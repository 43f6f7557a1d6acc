/** File descriptors of a worker: the table from process and descriptor to inode, each inode's own
    map of the descriptors that refer to it, its reference count, and what closing does when the
    inode is unlinked and waits for its last descriptor to close. */
module Descriptors {
  import opened NatLists
  import opened Options

  type Ino = nat
  type Pid = nat
  type Fd = nat

  /** InMemInode: appFdMap_, ref and unlinkDeallocResourcesOnClose. */
  datatype Node = Node(fds: map<Pid, set<Fd>>, ref: int, dealloc: bool)

  /** A FileMng: the inodes, ownerAppFdMap_ (a FileObj is known by its inode), and the inodes handed to
      OwnerDeallocResources, in order. */
  datatype Mng = Mng(inodes: map<Ino, Node>, table: map<Pid, map<Fd, Ino>>, handed: seq<Ino>)

  predicate Refers(fds: map<Pid, set<Fd>>, p: Pid, f: Fd)
  {
    p in fds && f in fds[p]
  }

  /** All descriptors, as pairs. */
  function Flat(fds: map<Pid, set<Fd>>): (r: set<(Pid, Fd)>)
    ensures forall x :: x in r <==> Refers(fds, x.0, x.1)
  {
    set p, f | p in fds && f in fds[p] :: (p, f)
  }

  function AddFd(n: Node, pid: Pid, fd: Fd): (r: Node)
  {
    var s := if pid in n.fds then n.fds[pid] else {};
    n.(fds := n.fds[pid := s + {fd}], ref := if fd in s then n.ref else n.ref + 1)
  }

  function DelFd(n: Node, pid: Pid, fd: Fd): (r: Node)
  {
    if pid !in n.fds then n
    else
      var s := n.fds[pid] - {fd};
      n.(fds := if s == {} then n.fds - {pid} else n.fds[pid := s],
         ref := if fd in n.fds[pid] then n.ref - 1 else n.ref)
  }

  predicate Resolved(m: Mng, pid: Pid, fd: Fd)
  {
    pid in m.table && fd in m.table[pid]
  }

  /** getFileObjForFd */
  function Resolve(m: Mng, pid: Pid, fd: Fd): (r: Option<Ino>)
  {
    if Resolved(m, pid, fd) then Some(m.table[pid][fd]) else None
  }

  /** The count is the number of descriptors, and no process is listed without one. */
  ghost predicate Counted(n: Node)
  {
    n.ref == |Flat(n.fds)| && forall p :: p in n.fds ==> n.fds[p] != {}
  }

  ghost predicate AllCounted(inodes: map<Ino, Node>)
  {
    forall i :: i in inodes ==> Counted(inodes[i])
  }

  /** The table and the inodes' own maps say the same. */
  ghost predicate Linked(m: Mng)
  {
    && (forall p, f :: Resolved(m, p, f) ==> m.table[p][f] in m.inodes && Refers(m.inodes[m.table[p][f]].fds, p, f))
    && (forall i, p, f :: i in m.inodes && Refers(m.inodes[i].fds, p, f) ==> Resolved(m, p, f) && m.table[p][f] == i)
  }

  ghost predicate Agree(m: Mng)
  {
    AllCounted(m.inodes) && Linked(m)
  }

  lemma AddFdRefers(n: Node, pid: Pid, fd: Fd)
    ensures forall p, f :: Refers(AddFd(n, pid, fd).fds, p, f) <==> Refers(n.fds, p, f) || (p == pid && f == fd)
  {
  }

  lemma DelFdRefers(n: Node, pid: Pid, fd: Fd)
    ensures forall p, f :: Refers(DelFd(n, pid, fd).fds, p, f) <==> Refers(n.fds, p, f) && !(p == pid && f == fd)
  {
    if pid in n.fds {
      assert forall f :: f in n.fds[pid] && f != fd ==> f in n.fds[pid] - {fd};
    }
  }

  lemma AddFdCounted(n: Node, pid: Pid, fd: Fd)
    requires Counted(n)
    ensures Counted(AddFd(n, pid, fd))
  {
    AddFdRefers(n, pid, fd);
    assert Flat(AddFd(n, pid, fd).fds) == Flat(n.fds) + {(pid, fd)};
  }

  lemma DelFdCounted(n: Node, pid: Pid, fd: Fd)
    requires Counted(n)
    ensures Counted(DelFd(n, pid, fd))
  {
    DelFdRefers(n, pid, fd);
    assert Flat(DelFd(n, pid, fd).fds) == Flat(n.fds) - {(pid, fd)};
  }

  /** Two counted maps with the same descriptors are the same map. */
  lemma RefersDetermines(a: Node, b: Node)
    requires Counted(a) && Counted(b) && a.dealloc == b.dealloc
    requires forall p, f :: Refers(a.fds, p, f) <==> Refers(b.fds, p, f)
    ensures a == b
  {
    forall p | p in a.fds ensures p in b.fds && a.fds[p] <= b.fds[p] {
      var f :| f in a.fds[p];
      assert Refers(b.fds, p, f);
      forall g | g in a.fds[p] ensures g in b.fds[p] {
        assert Refers(a.fds, p, g);
      }
    }
    forall p | p in b.fds ensures p in a.fds && b.fds[p] <= a.fds[p] {
      var f :| f in b.fds[p];
      assert Refers(a.fds, p, f);
      forall g | g in b.fds[p] ensures g in a.fds[p] {
        assert Refers(b.fds, p, g);
      }
    }
    assert forall p :: p in a.fds ==> a.fds[p] == b.fds[p];
    assert a.fds == b.fds;
  }

  // ---------------------------------------------------------------- open and close

  /** The descriptors of a process, as `table[pid]` gives them: none if the process is new. */
  function RowFor(m: Mng, pid: Pid): (t: map<Fd, Ino>)
  {
    if pid in m.table then m.table[pid] else map[]
  }

  function Open(m: Mng, pid: Pid, fd: Fd, ino: Ino): (r: Mng)
    requires ino in m.inodes
  {
    var t := RowFor(m, pid);
    m.(inodes := m.inodes[ino := AddFd(m.inodes[ino], pid, fd)],
       table := m.table[pid := if fd in t then t else t[fd := ino]])
  }

  function HandOff(handed: seq<Ino>, inodes: map<Ino, Node>, ino: Ino): (r: seq<Ino>)
  {
    if ino in inodes && inodes[ino].dealloc && inodes[ino].ref == 0 then handed + [ino] else handed
  }

  /** processClose; a descriptor that does not resolve is an error and changes nothing. */
  function Close(m: Mng, pid: Pid, fd: Fd): (r: Mng)
  {
    match Resolve(m, pid, fd)
    case None => m
    case Some(ino) =>
      if ino !in m.inodes then m
      else
        var inodes := m.inodes[ino := DelFd(m.inodes[ino], pid, fd)];
        Mng(inodes, m.table[pid := m.table[pid] - {fd}], HandOff(m.handed, inodes, ino))
  }

  function CloseEach(m: Mng, pid: Pid, order: seq<Fd>): (r: Mng)
    decreases order
  {
    if order == [] then m else CloseEach(Close(m, pid, order[0]), pid, order[1..])
  }

  function DelEach(inodes: map<Ino, Node>, pid: Pid, t: map<Fd, Ino>, order: seq<Fd>): (r: map<Ino, Node>)
    decreases order
  {
    if order == [] then inodes else DelEach(DelOne(inodes, pid, t, order[0]), pid, t, order[1..])
  }

  function HandOffEach(handed: seq<Ino>, inodes: map<Ino, Node>, visit: seq<Ino>): (r: seq<Ino>)
    decreases visit
  {
    if visit == [] then handed else HandOffEach(HandOff(handed, inodes, visit[0]), inodes, visit[1..])
  }

  /** closeAllFileDescriptors; `order` and `visit` are the traversal orders of the process's
      descriptors and of the inodes they refer to. */
  function CloseAll(m: Mng, pid: Pid, order: seq<Fd>, visit: seq<Ino>): (r: Mng)
  {
    if pid !in m.table then m
    else
      var inodes := DelEach(m.inodes, pid, m.table[pid], order);
      Mng(inodes, m.table - {pid}, HandOffEach(m.handed, inodes, visit))
  }

  lemma OpenResolves(m: Mng, pid: Pid, fd: Fd, ino: Ino)
    requires ino in m.inodes && !Resolved(m, pid, fd)
    ensures var r := Open(m, pid, fd, ino);
      forall p, f :: && (Resolved(r, p, f) <==> Resolved(m, p, f) || (p == pid && f == fd))
                     && (Resolved(r, p, f) ==> r.table[p][f] == if p == pid && f == fd then ino else m.table[p][f])
  {
  }

  lemma OpenLinked(m: Mng, pid: Pid, fd: Fd, ino: Ino)
    requires Linked(m) && ino in m.inodes && !Resolved(m, pid, fd)
    ensures Linked(Open(m, pid, fd, ino))
  {
    AddFdRefers(m.inodes[ino], pid, fd);
    OpenResolves(m, pid, fd, ino);
  }

  lemma OpenAgrees(m: Mng, pid: Pid, fd: Fd, ino: Ino)
    requires Agree(m) && ino in m.inodes && !Resolved(m, pid, fd)
    ensures Agree(Open(m, pid, fd, ino)) && Resolve(Open(m, pid, fd, ino), pid, fd) == Some(ino)
  {
    AddFdCounted(m.inodes[ino], pid, fd);
    OpenLinked(m, pid, fd, ino);
  }

  lemma CloseResolves(m: Mng, pid: Pid, fd: Fd)
    requires Resolved(m, pid, fd) && m.table[pid][fd] in m.inodes
    ensures var r := Close(m, pid, fd);
      forall p, f :: && (Resolved(r, p, f) <==> Resolved(m, p, f) && !(p == pid && f == fd))
                     && (Resolved(r, p, f) ==> r.table[p][f] == m.table[p][f])
  {
  }

  lemma CloseLinked(m: Mng, pid: Pid, fd: Fd)
    requires Linked(m) && Resolved(m, pid, fd)
    ensures Linked(Close(m, pid, fd))
  {
    DelFdRefers(m.inodes[m.table[pid][fd]], pid, fd);
    CloseResolves(m, pid, fd);
  }

  lemma CloseAgrees(m: Mng, pid: Pid, fd: Fd)
    requires Agree(m)
    ensures Agree(Close(m, pid, fd)) && !Resolved(Close(m, pid, fd), pid, fd)
    ensures Close(m, pid, fd).inodes.Keys == m.inodes.Keys
  {
    if Resolved(m, pid, fd) {
      DelFdCounted(m.inodes[m.table[pid][fd]], pid, fd);
      CloseLinked(m, pid, fd);
    }
  }

  /** An open gives the number given to the inode given, unless the number is taken; every other number
      resolves as before, every other inode is as it was, and nothing is handed over. */
  lemma OpenAnswer(m: Mng, pid: Pid, fd: Fd, ino: Ino, p: Pid, f: Fd)
    requires ino in m.inodes
    ensures var m' := Open(m, pid, fd, ino); var n, n' := m.inodes[ino], m'.inodes[ino];
      && Resolve(m', p, f) == (if !Resolved(m, p, f) && p == pid && f == fd then Some(ino) else Resolve(m, p, f))
      && m'.inodes - {ino} == m.inodes - {ino} && m'.handed == m.handed
      && n'.dealloc == n.dealloc && n'.ref == n.ref + (if Refers(n.fds, pid, fd) then 0 else 1)
      && (Refers(n'.fds, p, f) <==> Refers(n.fds, p, f) || (p == pid && f == fd))
  {
    AddFdRefers(m.inodes[ino], pid, fd);
    assert Open(m, pid, fd, ino).inodes - {ino} == m.inodes - {ino};
  }

  /** A close forgets its own number and no other; it hands the inode over exactly if that number was its
      last reference and it is to be deallocated. */
  ghost predicate Forgotten(m: Mng, m': Mng, pid: Pid, fd: Fd, ino: Ino, p: Pid, f: Fd)
    requires ino in m.inodes && ino in m'.inodes
  {
    && m'.inodes - {ino} == m.inodes - {ino}
    && Resolve(m', p, f) == (if p == pid && f == fd then None else Resolve(m, p, f))
    && m'.inodes[ino].ref == m.inodes[ino].ref - 1 && m'.inodes[ino].dealloc == m.inodes[ino].dealloc
    && (Refers(m'.inodes[ino].fds, p, f) <==> Refers(m.inodes[ino].fds, p, f) && !(p == pid && f == fd))
    && m'.handed == m.handed + (if m.inodes[ino].dealloc && m.inodes[ino].ref == 1 then [ino] else [])
  }

  lemma CloseForgets(m: Mng, pid: Pid, fd: Fd, p: Pid, f: Fd)
    requires Resolved(m, pid, fd) && m.table[pid][fd] in m.inodes
    requires Refers(m.inodes[m.table[pid][fd]].fds, pid, fd)
    ensures Forgotten(m, Close(m, pid, fd), pid, fd, m.table[pid][fd], p, f)
  {
    var ino := m.table[pid][fd];
    DelFdRefers(m.inodes[ino], pid, fd);
    assert Close(m, pid, fd).inodes - {ino} == m.inodes - {ino};
  }

  lemma CloseAnswer(m: Mng, pid: Pid, fd: Fd, p: Pid, f: Fd)
    requires Agree(m) && Resolved(m, pid, fd)
    ensures m.table[pid][fd] in m.inodes && m.table[pid][fd] in Close(m, pid, fd).inodes
    ensures Forgotten(m, Close(m, pid, fd), pid, fd, m.table[pid][fd], p, f)
  {
    assert m.table[pid][fd] in m.inodes && Refers(m.inodes[m.table[pid][fd]].fds, pid, fd);
    CloseForgets(m, pid, fd, p, f);
  }

  /** A new number opened and closed again leaves every resolution, reference and count as it was; the inode
      is handed over if nobody else holds it and it is to be deallocated. */
  lemma OpenClose(m: Mng, pid: Pid, fd: Fd, ino: Ino, p: Pid, f: Fd)
    requires ino in m.inodes && !Resolved(m, pid, fd) && !Refers(m.inodes[ino].fds, pid, fd)
    ensures var m' := Close(Open(m, pid, fd, ino), pid, fd); var n := m.inodes[ino];
      && Resolve(m', p, f) == Resolve(m, p, f)
      && ino in m'.inodes && m'.inodes - {ino} == m.inodes - {ino}
      && m'.inodes[ino].ref == n.ref && m'.inodes[ino].dealloc == n.dealloc
      && (Refers(m'.inodes[ino].fds, p, f) <==> Refers(n.fds, p, f))
      && m'.handed == m.handed + (if n.dealloc && n.ref == 0 then [ino] else [])
  {
    OpenAnswer(m, pid, fd, ino, pid, fd);
    OpenAnswer(m, pid, fd, ino, p, f);
    CloseForgets(Open(m, pid, fd, ino), pid, fd, p, f);
  }

  // ---------------------------------------------------------------- closing many descriptors

  /** Closing the descriptors `gone` of a process: what every inode's map becomes. */
  ghost predicate Closes(inodes: map<Ino, Node>, pid: Pid, gone: set<Fd>, inodes': map<Ino, Node>)
  {
    AllCounted(inodes') && Drops(inodes, pid, gone, inodes')
  }

  ghost predicate Drops(inodes: map<Ino, Node>, pid: Pid, gone: set<Fd>, inodes': map<Ino, Node>)
  {
    && inodes'.Keys == inodes.Keys
    && (forall i :: i in inodes ==> inodes'[i].dealloc == inodes[i].dealloc)
    && (forall i, p, f :: i in inodes ==>
          (Refers(inodes'[i].fds, p, f) <==> Refers(inodes[i].fds, p, f) && !(p == pid && f in gone)))
  }

  /** That determines the result. */
  lemma ClosesDetermines(inodes: map<Ino, Node>, pid: Pid, gone: set<Fd>, a: map<Ino, Node>, b: map<Ino, Node>)
    requires Closes(inodes, pid, gone, a) && Closes(inodes, pid, gone, b)
    ensures a == b
  {
    forall i | i in inodes ensures a[i] == b[i] {
      RefersDetermines(a[i], b[i]);
    }
  }

  lemma ClosesTwice(inodes: map<Ino, Node>, pid: Pid, one: set<Fd>, mid: map<Ino, Node>, two: set<Fd>,
                    inodes': map<Ino, Node>)
    requires Closes(inodes, pid, one, mid) && Closes(mid, pid, two, inodes')
    ensures Closes(inodes, pid, one + two, inodes')
  {
  }

  /** The process's row of the table, as far as the inodes are concerned. */
  ghost predicate Row(inodes: map<Ino, Node>, pid: Pid, t: map<Fd, Ino>)
  {
    && (forall f :: f in t ==> t[f] in inodes)
    && (forall i, f :: i in inodes && Refers(inodes[i].fds, pid, f) ==> f in t && t[f] == i)
  }

  function DelOne(inodes: map<Ino, Node>, pid: Pid, t: map<Fd, Ino>, f: Fd): (r: map<Ino, Node>)
  {
    if f in t && t[f] in inodes then inodes[t[f] := DelFd(inodes[t[f]], pid, f)] else inodes
  }

  lemma DelOneDrops(inodes: map<Ino, Node>, pid: Pid, t: map<Fd, Ino>, f: Fd)
    requires Row(inodes, pid, t)
    ensures Drops(inodes, pid, {f}, DelOne(inodes, pid, t, f)) && Row(DelOne(inodes, pid, t, f), pid, t)
  {
    if f in t {
      DelFdRefers(inodes[t[f]], pid, f);
    }
  }

  lemma DelOneCloses(inodes: map<Ino, Node>, pid: Pid, t: map<Fd, Ino>, f: Fd)
    requires AllCounted(inodes) && Row(inodes, pid, t)
    ensures Closes(inodes, pid, {f}, DelOne(inodes, pid, t, f)) && Row(DelOne(inodes, pid, t, f), pid, t)
  {
    DelOneDrops(inodes, pid, t, f);
    if f in t {
      DelFdCounted(inodes[t[f]], pid, f);
    }
  }

  lemma {:induction false} DelEachCloses(inodes: map<Ino, Node>, pid: Pid, t: map<Fd, Ino>, order: seq<Fd>)
    requires AllCounted(inodes) && Row(inodes, pid, t)
    ensures Closes(inodes, pid, Elems(order), DelEach(inodes, pid, t, order))
    decreases order
  {
    if order != [] {
      var f := order[0];
      var mid := DelOne(inodes, pid, t, f);
      DelOneCloses(inodes, pid, t, f);
      DelEachCloses(mid, pid, t, order[1..]);
      ClosesTwice(inodes, pid, {f}, mid, Elems(order[1..]), DelEach(inodes, pid, t, order));
      assert order == [f] + order[1..];
      assert Elems(order) == {f} + Elems(order[1..]);
    }
  }

  /** The table row of a process loses the closed descriptors, other rows stay. */
  ghost predicate Unresolves(m: Mng, pid: Pid, gone: set<Fd>, m': Mng)
  {
    forall p, f ::
      && (Resolved(m', p, f) <==> Resolved(m, p, f) && !(p == pid && f in gone))
      && (Resolved(m', p, f) ==> m'.table[p][f] == m.table[p][f])
  }

  lemma RowOf(m: Mng, pid: Pid)
    requires Linked(m)
    ensures Row(m.inodes, pid, RowFor(m, pid))
  {
    var t := RowFor(m, pid);
    forall f | f in t ensures t[f] in m.inodes {
      assert Resolved(m, pid, f);
    }
    forall i, f | i in m.inodes && Refers(m.inodes[i].fds, pid, f) ensures f in t && t[f] == i {
      assert Resolved(m, pid, f);
    }
  }

  lemma CloseIsDelOne(m: Mng, pid: Pid, f: Fd)
    ensures Close(m, pid, f).inodes == DelOne(m.inodes, pid, RowFor(m, pid), f)
  {
  }

  lemma CloseOneInodes(m: Mng, pid: Pid, f: Fd)
    requires Agree(m)
    ensures Closes(m.inodes, pid, {f}, Close(m, pid, f).inodes)
  {
    RowOf(m, pid);
    DelOneCloses(m.inodes, pid, RowFor(m, pid), f);
    CloseIsDelOne(m, pid, f);
  }

  lemma CloseOneTable(m: Mng, pid: Pid, f: Fd)
    requires Agree(m)
    ensures Unresolves(m, pid, {f}, Close(m, pid, f))
  {
    if Resolved(m, pid, f) {
      CloseResolves(m, pid, f);
    } else {
      assert Close(m, pid, f).table == m.table;
    }
  }

  lemma CloseOne(m: Mng, pid: Pid, f: Fd)
    requires Agree(m)
    ensures Closes(m.inodes, pid, {f}, Close(m, pid, f).inodes) && Unresolves(m, pid, {f}, Close(m, pid, f))
  {
    CloseOneInodes(m, pid, f);
    CloseOneTable(m, pid, f);
  }

  lemma {:induction false} CloseEachCloses(m: Mng, pid: Pid, order: seq<Fd>)
    requires Agree(m)
    ensures var r := CloseEach(m, pid, order);
      Agree(r) && Closes(m.inodes, pid, Elems(order), r.inodes) && Unresolves(m, pid, Elems(order), r)
    decreases order
  {
    if order != [] {
      var f := order[0];
      CloseAgrees(m, pid, f);
      CloseOne(m, pid, f);
      CloseEachCloses(Close(m, pid, f), pid, order[1..]);
      ClosesTwice(m.inodes, pid, {f}, Close(m, pid, f).inodes, Elems(order[1..]), CloseEach(m, pid, order).inodes);
      assert order == [f] + order[1..];
      assert Elems(order) == {f} + Elems(order[1..]);
    }
  }

  // ---------------------------------------------------------------- what is handed to deallocation

  predicate Ready(inodes: map<Ino, Node>, ino: Ino)
  {
    ino in inodes && inodes[ino].dealloc && inodes[ino].ref == 0
  }

  /** The inodes a process's descriptors refer to. */
  ghost function Touched(m: Mng, pid: Pid, order: seq<Fd>): (r: set<Ino>)
  {
    set f | f in order && Resolved(m, pid, f) :: m.table[pid][f]
  }

  ghost function ReadyOf(s: set<Ino>, inodes: map<Ino, Node>): (r: set<Ino>)
  {
    set i | i in s && Ready(inodes, i)
  }

  lemma ReadyPlus(s: set<Ino>, ino: Ino, inodes: map<Ino, Node>)
    ensures ReadyOf(s + {ino}, inodes) == ReadyOf(s, inodes) + (if Ready(inodes, ino) then {ino} else {})
  {
  }

  lemma PrependNew(v: nat, q: seq<nat>)
    requires NoDup(q) && v !in Elems(q)
    ensures NoDup([v] + q) && Elems([v] + q) == {v} + Elems(q)
  {
    NoDupCons(v, q);
  }

  lemma {:induction false} HandedEach(handed: seq<Ino>, inodes: map<Ino, Node>, visit: seq<Ino>)
    returns (more: seq<Ino>)
    requires NoDup(visit)
    ensures HandOffEach(handed, inodes, visit) == handed + more
    ensures NoDup(more) && Elems(more) == ReadyOf(Elems(visit), inodes)
    decreases visit
  {
    if visit == [] {
      more := [];
    } else {
      var v, rest := visit[0], visit[1..];
      assert visit == [v] + rest;
      NoDupCons(v, rest);
      var tail := HandedEach(HandOff(handed, inodes, v), inodes, rest);
      assert Elems(visit) == Elems(rest) + {v};
      ReadyPlus(Elems(rest), v, inodes);
      if Ready(inodes, v) {
        more := [v] + tail;
        PrependNew(v, tail);
        assert handed + more == handed + [v] + tail;
      } else {
        more := tail;
      }
    }
  }

  /** An inode no longer referred to has count zero, and the other way round. */
  lemma NoneLeft(n: Node, p: Pid, f: Fd)
    requires Counted(n)
    ensures n.ref == 0 ==> !Refers(n.fds, p, f)
  {
    if Refers(n.fds, p, f) {
      assert (p, f) in Flat(n.fds);
    }
  }

  lemma UntouchedSame(m: Mng, pid: Pid, order: seq<Fd>, ino: Ino)
    requires Agree(m) && ino in m.inodes && ino !in Touched(m, pid, order)
    ensures ino in CloseEach(m, pid, order).inodes && CloseEach(m, pid, order).inodes[ino] == m.inodes[ino]
  {
    CloseEachCloses(m, pid, order);
    var r := CloseEach(m, pid, order);
    assert forall f :: f in order && Resolved(m, pid, f) ==> m.table[pid][f] != ino;
    RefersDetermines(r.inodes[ino], m.inodes[ino]);
  }

  lemma TouchedCons(m: Mng, pid: Pid, f: Fd, rest: seq<Fd>)
    requires Agree(m) && f !in rest
    ensures Touched(m, pid, [f] + rest) ==
            Touched(Close(m, pid, f), pid, rest) + (if Resolved(m, pid, f) then {m.table[pid][f]} else {})
  {
    CloseOne(m, pid, f);
    var m1 := Close(m, pid, f);
    forall g | g in rest ensures Resolved(m1, pid, g) <==> Resolved(m, pid, g) {
    }
    forall g | g in rest && Resolved(m, pid, g) ensures m1.table[pid][g] == m.table[pid][g] {
      assert Resolved(m1, pid, g);
    }
  }

  /** Whether the inode just closed is among the ready ones in the end: it is if it is ready now, and
      if it is not, only when a later descriptor refers to it. */
  lemma ReadyLater(m: Mng, pid: Pid, rest: seq<Fd>, ino: Ino)
    requires Agree(m) && ino in m.inodes
    ensures var r := CloseEach(m, pid, rest);
      && (Ready(m.inodes, ino) ==> ino !in Touched(m, pid, rest) && Ready(r.inodes, ino))
      && (!Ready(m.inodes, ino) && Ready(r.inodes, ino) ==> ino in Touched(m, pid, rest))
  {
    if Ready(m.inodes, ino) {
      ReadyIsUntouched(m, pid, rest, ino);
    }
    if ino !in Touched(m, pid, rest) {
      UntouchedSame(m, pid, rest, ino);
    }
  }

  lemma HandedStep(inodes: map<Ino, Node>, later: set<Ino>, ino: Ino, now: bool, tail: seq<Ino>)
    requires NoDup(tail) && Elems(tail) == ReadyOf(later, inodes)
    requires now ==> ino !in later && Ready(inodes, ino)
    requires !now && Ready(inodes, ino) ==> ino in later
    ensures var more := if now then [ino] + tail else tail;
      NoDup(more) && Elems(more) == ReadyOf(later + {ino}, inodes)
  {
    ReadyPlus(later, ino, inodes);
    if now {
      PrependNew(ino, tail);
    }
  }

  /** What closing one by one hands over, in order. */
  ghost function NewlyHanded(m: Mng, pid: Pid, order: seq<Fd>): (r: seq<Ino>)
    decreases order
  {
    if order == [] then []
    else
      var m1 := Close(m, pid, order[0]);
      (if Resolved(m, pid, order[0]) && Ready(m1.inodes, m.table[pid][order[0]]) then [m.table[pid][order[0]]] else [])
        + NewlyHanded(m1, pid, order[1..])
  }

  ghost predicate HandedRight(inodes: map<Ino, Node>, touched: set<Ino>, handed: seq<Ino>)
  {
    NoDup(handed) && Elems(handed) == ReadyOf(touched, inodes)
  }

  lemma ClosedFirst(m: Mng, pid: Pid, f: Fd, rest: seq<Fd>)
    ensures CloseEach(m, pid, [f] + rest) == CloseEach(Close(m, pid, f), pid, rest)
    ensures NewlyHanded(m, pid, [f] + rest) ==
            if Resolved(m, pid, f) && Ready(Close(m, pid, f).inodes, m.table[pid][f])
            then [m.table[pid][f]] + NewlyHanded(Close(m, pid, f), pid, rest)
            else NewlyHanded(Close(m, pid, f), pid, rest)
  {
    assert ([f] + rest)[1..] == rest;
  }

  /** Closing one descriptor hands over its inode or nothing. */
  lemma HandedOne(m: Mng, pid: Pid, f: Fd)
    requires Agree(m)
    ensures Close(m, pid, f).handed == m.handed +
            if Resolved(m, pid, f) && Ready(Close(m, pid, f).inodes, m.table[pid][f]) then [m.table[pid][f]] else []
  {
    CloseOne(m, pid, f);
  }

  lemma {:induction false} HandedIs(m: Mng, pid: Pid, order: seq<Fd>)
    requires Agree(m)
    ensures CloseEach(m, pid, order).handed == m.handed + NewlyHanded(m, pid, order)
    decreases order
  {
    if order == [] {
      assert NewlyHanded(m, pid, order) == [];
    } else {
      var f, rest := order[0], order[1..];
      assert order == [f] + rest;
      var m1 := Close(m, pid, f);
      CloseAgrees(m, pid, f);
      HandedIs(m1, pid, rest);
      HandedOne(m, pid, f);
      ClosedFirst(m, pid, f, rest);
      Associate(m.handed, if Resolved(m, pid, f) && Ready(m1.inodes, m.table[pid][f]) then [m.table[pid][f]] else [],
                NewlyHanded(m1, pid, rest));
    }
  }

  lemma HandedMore(m: Mng, pid: Pid, f: Fd, rest: seq<Fd>)
    requires Agree(m) && Agree(Close(m, pid, f)) && f !in rest
    requires var m1 := Close(m, pid, f);
             HandedRight(CloseEach(m1, pid, rest).inodes, Touched(m1, pid, rest), NewlyHanded(m1, pid, rest))
    ensures HandedRight(CloseEach(m, pid, [f] + rest).inodes, Touched(m, pid, [f] + rest),
                        NewlyHanded(m, pid, [f] + rest))
  {
    var m1 := Close(m, pid, f);
    ClosedFirst(m, pid, f, rest);
    TouchedCons(m, pid, f, rest);
    if Resolved(m, pid, f) {
      var ino := m.table[pid][f];
      ReadyLater(m1, pid, rest, ino);
      HandedStep(CloseEach(m1, pid, rest).inodes, Touched(m1, pid, rest), ino, Ready(m1.inodes, ino),
                 NewlyHanded(m1, pid, rest));
    } else {
      assert Touched(m1, pid, rest) + {} == Touched(m1, pid, rest);
    }
  }

  /** Closing descriptors one by one hands each inode over at most once: exactly those that were
      waiting and end up without descriptors. */
  lemma {:induction false} HandedByEach(m: Mng, pid: Pid, order: seq<Fd>)
    requires Agree(m) && NoDup(order)
    ensures HandedRight(CloseEach(m, pid, order).inodes, Touched(m, pid, order), NewlyHanded(m, pid, order))
    decreases order
  {
    if order != [] {
      var f, rest := order[0], order[1..];
      assert order == [f] + rest;
      NoDupCons(f, rest);
      assert f !in rest by { assert f !in Elems(rest); }
      CloseAgrees(m, pid, f);
      HandedByEach(Close(m, pid, f), pid, rest);
      HandedMore(m, pid, f, rest);
    }
  }

  lemma ReadyIsUntouched(m: Mng, pid: Pid, rest: seq<Fd>, ino: Ino)
    requires Agree(m) && Ready(m.inodes, ino)
    ensures ino !in Touched(m, pid, rest)
  {
    forall f | f in rest && Resolved(m, pid, f) ensures m.table[pid][f] != ino {
      NoneLeft(m.inodes[ino], pid, f);
    }
  }

  /** Closing all descriptors of a process at once has the same effect as closing them one by one in
      any order: the same inodes, the same counts, the same resolution, and the same inodes handed to
      deallocation, each at most once. */
  lemma CloseAllIsCloseEach(m: Mng, pid: Pid, order: seq<Fd>, visit: seq<Ino>, each: seq<Fd>)
      returns (all: seq<Ino>, single: seq<Ino>)
    requires Agree(m) && pid in m.table
    requires NoDup(order) && Elems(order) == m.table[pid].Keys && NoDup(each) && Elems(each) == m.table[pid].Keys
    requires NoDup(visit) && Elems(visit) == Touched(m, pid, order)
    ensures var a := CloseAll(m, pid, order, visit); var b := CloseEach(m, pid, each);
      && a.inodes == b.inodes && Agree(a)
      && (forall p, f :: Resolve(a, p, f) == Resolve(b, p, f))
      && (forall f :: !Resolved(a, pid, f))
      && a.handed == m.handed + all && b.handed == m.handed + single
      && NoDup(all) && NoDup(single) && Elems(all) == Elems(single)
  {
    RowOf(m, pid);
    DelEachCloses(m.inodes, pid, m.table[pid], order);
    CloseEachCloses(m, pid, each);
    var a := CloseAll(m, pid, order, visit);
    var b := CloseEach(m, pid, each);
    ClosesDetermines(m.inodes, pid, Elems(order), a.inodes, b.inodes);
    all := HandedEach(m.handed, a.inodes, visit);
    single := NewlyHanded(m, pid, each);
    HandedIs(m, pid, each);
    HandedByEach(m, pid, each);
    SameTouched(m, pid, order, each);
    SameTable(m, pid, each, a, b);
    SameLinks(a, b);
  }

  lemma SameTouched(m: Mng, pid: Pid, order: seq<Fd>, each: seq<Fd>)
    requires Elems(order) == Elems(each)
    ensures Touched(m, pid, order) == Touched(m, pid, each)
  {
    assert forall f :: f in order <==> f in Elems(order);
    assert forall f :: f in each <==> f in Elems(each);
  }

  lemma SameTable(m: Mng, pid: Pid, each: seq<Fd>, a: Mng, b: Mng)
    requires pid in m.table && Elems(each) == m.table[pid].Keys && a.table == m.table - {pid}
    requires Unresolves(m, pid, Elems(each), b)
    ensures forall p, f :: Resolved(a, p, f) <==> Resolved(b, p, f)
    ensures forall p, f :: Resolved(a, p, f) ==> a.table[p][f] == b.table[p][f]
    ensures forall f :: !Resolved(a, pid, f)
  {
    forall p, f ensures Resolved(a, p, f) <==> Resolved(b, p, f) {
      assert Resolved(b, p, f) <==> Resolved(m, p, f) && !(p == pid && f in Elems(each));
    }
    forall p, f | Resolved(a, p, f) ensures a.table[p][f] == b.table[p][f] {
      assert Resolved(b, p, f);
    }
  }

  lemma SameLinks(a: Mng, b: Mng)
    requires a.inodes == b.inodes && Linked(b)
    requires forall p, f :: Resolved(a, p, f) <==> Resolved(b, p, f)
    requires forall p, f :: Resolved(a, p, f) ==> a.table[p][f] == b.table[p][f]
    ensures Linked(a)
  {
  }

  // ---------------------------------------------------------------- runs

  datatype Op =
    | DoOpen(pid: Pid, fd: Fd, ino: Ino)
    | DoClose(pid: Pid, fd: Fd)
    | DoExit(pid: Pid, order: seq<Fd>, visit: seq<Ino>)

  /** A descriptor is opened under a number that is not in use; an exit visits all descriptors. */
  ghost predicate Enabled(m: Mng, op: Op)
  {
    match op
    case DoOpen(pid, fd, ino) => ino in m.inodes && !Resolved(m, pid, fd)
    case DoClose(_, _) => true
    case DoExit(pid, order, visit) =>
      pid in m.table ==> Enumerates(order, m.table[pid].Keys) && Enumerates(visit, Touched(m, pid, order))
  }

  ghost function Apply(m: Mng, op: Op): (r: Mng)
    requires Enabled(m, op)
  {
    match op
    case DoOpen(pid, fd, ino) => Open(m, pid, fd, ino)
    case DoClose(pid, fd) => Close(m, pid, fd)
    case DoExit(pid, order, visit) => CloseAll(m, pid, order, visit)
  }

  ghost predicate Runs(m: Mng, ops: seq<Op>, m': Mng)
    decreases ops
  {
    if ops == [] then m' == m else Enabled(m, ops[0]) && Runs(Apply(m, ops[0]), ops[1..], m')
  }

  /** In every run of opens, closes and exits each inode's count is the total size of its descriptor
      maps, and a descriptor resolves to an inode exactly when the inode lists it. */
  lemma {:induction false} DescriptorRuns(m: Mng, ops: seq<Op>, m': Mng)
    requires Agree(m) && Runs(m, ops, m')
    ensures Agree(m')
    decreases ops
  {
    if ops != [] {
      match ops[0] {
        case DoOpen(pid, fd, ino) => OpenAgrees(m, pid, fd, ino);
        case DoClose(pid, fd) => CloseAgrees(m, pid, fd);
        case DoExit(pid, order, visit) =>
          if pid in m.table {
            var _, _ := CloseAllIsCloseEach(m, pid, order, visit, order);
          }
      }
      DescriptorRuns(Apply(m, ops[0]), ops[1..], m');
    }
  }

  // ---------------------------------------------------------------- the object

  class FileMng {
    var inodes: map<Ino, Node>
    var table: map<Pid, map<Fd, Ino>>
    var handed: seq<Ino>

    ghost function State(): (m: Mng)
      reads this
    {
      Mng(inodes, table, handed)
    }

    method AddFdMappingOnOpen(pid: Pid, fd: Fd, ino: Ino)
      requires ino in inodes
      modifies this
      ensures State() == Open(old(State()), pid, fd, ino)
    {
      var n := inodes[ino];
      var fdmap := if pid in n.fds then n.fds[pid] else {};
      if fd !in fdmap {
        n := n.(ref := n.ref + 1);
      }
      inodes := inodes[ino := n.(fds := n.fds[pid := fdmap + {fd}])];
      var t := if pid in table then table[pid] else map[];
      if fd !in t {
        t := t[fd := ino];
      }
      table := table[pid := t];
    }

    method DelFdOf(pid: Pid, fd: Fd, ino: Ino)
      requires ino in inodes
      modifies this`inodes
      ensures inodes == old(inodes)[ino := DelFd(old(inodes[ino]), pid, fd)]
    {
      var n := inodes[ino];
      if pid in n.fds {
        var fdmap := n.fds[pid] - {fd};
        if fd in n.fds[pid] {
          n := n.(ref := n.ref - 1);
        }
        n := n.(fds := if fdmap == {} then n.fds - {pid} else n.fds[pid := fdmap]);
        inodes := inodes[ino := n];
      }
      assert inodes == old(inodes)[ino := DelFd(old(inodes[ino]), pid, fd)];
    }

    method ProcessClose(pid: Pid, fd: Fd) returns (ok: bool)
      requires Agree(State())
      modifies this
      ensures State() == Close(old(State()), pid, fd) && Agree(State())
      ensures ok <==> old(Resolved(State(), pid, fd))
    {
      CloseAgrees(State(), pid, fd);
      if !(pid in table && fd in table[pid]) {
        return false;
      }
      assert Resolved(State(), pid, fd);
      var ino := table[pid][fd];
      DelFdOf(pid, fd, ino);
      table := table[pid := table[pid] - {fd}];
      if inodes[ino].dealloc && inodes[ino].ref == 0 {
        handed := handed + [ino];
      }
      return true;
    }

    /** `order` and `visit` are the traversal orders of the two hash maps. */
    method CloseAllFileDescriptors(pid: Pid, order: seq<Fd>, visit: seq<Ino>)
      requires Agree(State())
      requires pid in table ==> Enumerates(order, table[pid].Keys) && Enumerates(visit, Touched(State(), pid, order))
      modifies this
      ensures State() == CloseAll(old(State()), pid, order, visit)
    {
      if pid !in table {
        return;
      }
      var t := table[pid];
      for k := 0 to |order|
        invariant DelEach(old(inodes), pid, t, order) == DelEach(inodes, pid, t, order[k..])
        invariant table == old(table) && handed == old(handed)
        invariant inodes.Keys == old(inodes).Keys
      {
        assert order[k..][1..] == order[k + 1..] && order[k..][0] == order[k];
        assert order[k] in Elems(order);
        assert Resolved(old(State()), pid, order[k]);
        DelFdOf(pid, order[k], t[order[k]]);
      }
      for k := 0 to |visit|
        invariant HandOffEach(old(handed), inodes, visit) == HandOffEach(handed, inodes, visit[k..])
        invariant table == old(table) && inodes == DelEach(old(inodes), pid, t, order)
      {
        assert visit[k..][1..] == visit[k + 1..] && visit[k..][0] == visit[k];
        if visit[k] in inodes && inodes[visit[k]].dealloc && inodes[visit[k]].ref == 0 {
          handed := handed + [visit[k]];
        }
      }
      table := table - {pid};
    }
  }
}
