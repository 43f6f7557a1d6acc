/** The path cache and its delayed garbage collection (`FsPermission` in
    cfs/include/FsProc_Permission.h and cfs/src/FsProc_Permission.cc).

    Each cached directory has a map from names to entries; an entry of a directory points to that
    directory's own map. Maps are numbers here, 0 is the null pointer, and `store` holds the maps that
    have been allocated and not freed. */
module PermissionMaps {

  import opened NatLists
  import opened Options

  const GC_THRESHOLD: nat := 1000000000

  datatype Item = Item(name: string, ptr: nat, ino: nat)

  /** The items of a map in the order in which the hash map lists them. */
  type Store = map<nat, seq<Item>>

  /** The non-null pointers of a map. */
  function Ptrs(items: seq<Item>): (r: seq<nat>)
    ensures 0 !in r
  {
    if items == [] then []
    else
      var r := Ptrs(items[..|items| - 1]);
      if items[|items| - 1].ptr == 0 then r else r + [items[|items| - 1].ptr]
  }

  // ---------------------------------------------------------------- collection

  datatype Drained = Drained(store: Store, freed: seq<nat>)

  /** The loop of `garbage_collect` from a worklist; `freed` lists the maps in the order they are deleted. */
  function Drain(store: Store, work: seq<nat>): (d: Drained)
    decreases |store|, |work|
  {
    if work == [] then Drained(store, [])
    else
      var g, rest := work[|work| - 1], work[..|work| - 1];
      if g == 0 || g !in store then Drain(store, rest)
      else
        var d := Drain(store - {g}, rest + Ptrs(store[g]));
        d.(freed := [g] + d.freed)
  }

  predicate Distinct(q: seq<nat>)
  {
    forall i, j :: 0 <= i < j < |q| && q[i] != 0 ==> q[i] != q[j]
  }

  predicate Child(store: Store, m: nat, x: nat)
  {
    m in store && x in Ptrs(store[m])
  }

  ghost predicate IsChild(store: Store, x: nat)
  {
    exists m :: Child(store, m, x)
  }

  /** Every pointer in a live map leads to a live map, and no two of them to the same one. */
  ghost predicate Tree(store: Store)
  {
    && 0 !in store
    && (forall m :: m in store ==> NoDup(Ptrs(store[m])))
    && (forall m, x :: Child(store, m, x) ==> x in store)
    && (forall m, m', x :: Child(store, m, x) && Child(store, m', x) ==> m == m')
  }

  /** The maps of a list are live, each listed once, and no live map points to them. */
  ghost predicate Roots(store: Store, q: seq<nat>)
  {
    && Distinct(q)
    && (forall x :: x in q && x != 0 ==> x in store && !IsChild(store, x))
  }

  /** Maps that something other than a worklist or another map refers to. */
  ghost predicate Others(store: Store, others: set<nat>)
  {
    forall x :: x in others ==> x in store && !IsChild(store, x)
  }

  ghost predicate Owned(store: Store, work: seq<nat>, others: set<nat>)
  {
    Tree(store) && Roots(store, work) && Others(store, others) && (forall x :: x in work ==> x !in others)
  }

  /** No map is lost: each is referred to by something. */
  ghost predicate Covered(store: Store, work: seq<nat>, others: set<nat>)
  {
    forall m :: m in store ==> m in others || m in work || IsChild(store, m)
  }

  ghost predicate Whole(store: Store, work: seq<nat>, others: set<nat>)
  {
    Owned(store, work, others) && Covered(store, work, others)
  }

  lemma Popped(store: Store, rest: seq<nat>, g: nat, others: set<nat>)
    requires Owned(store, rest + [g], others) && g != 0
    ensures g in store && g !in others && g !in rest && !IsChild(store, g)
    ensures Distinct(rest) && (forall x :: x in rest && x != 0 ==> x in store && !IsChild(store, x))
  {
    var work := rest + [g];
    assert g in work && work[|rest|] == g;
    assert forall i :: 0 <= i < |rest| ==> work[i] == rest[i] && rest[i] in work;
    forall i | 0 <= i < |rest| ensures rest[i] != g {
      assert work[i] != 0 ==> work[i] != work[|rest|];
    }
    forall i, j | 0 <= i < j < |rest| && rest[i] != 0 ensures rest[i] != rest[j] {
      assert work[i] != work[j];
    }
  }

  /** One iteration: the popped map is deleted and its children take its place. */
  lemma PopKeeps(store: Store, rest: seq<nat>, g: nat, others: set<nat>)
    requires Owned(store, rest + [g], others) && g != 0
    ensures g in store && Owned(store - {g}, rest + Ptrs(store[g]), others)
  {
    Popped(store, rest, g, others);
    var s', kids := store - {g}, Ptrs(store[g]);
    var w' := rest + kids;
    forall x | x in kids ensures Child(store, g, x) && IsChild(store, x) {
      assert Child(store, g, x);
    }
    forall m, x | Child(s', m, x) ensures Child(store, m, x) && m != g && IsChild(store, x) {
      assert Child(store, m, x);
    }
    forall i, j | 0 <= i < j < |w'| && w'[i] != 0 ensures w'[i] != w'[j] {
      if i < |rest| <= j {
        assert w'[j] in kids && w'[i] in rest;
      }
    }
    forall x | x in w' && x != 0 ensures x in s' && !IsChild(s', x) {
      assert x in kids || x in rest;
    }
    forall x | x in w' ensures x !in others {
      if x !in kids {
        assert x in rest + [g];
      }
    }
  }

  /** `freed` is made of the worklist and what hangs from it: closed under children, and each map is
      there because it was on the list or because a map freed before it pointed to it. */
  ghost predicate Under(store: Store, work: seq<nat>, freed: seq<nat>)
  {
    && (forall x :: x in work && x != 0 ==> x in freed)
    && (forall m, x :: m in freed && Child(store, m, x) ==> x in freed)
    && (forall i :: 0 <= i < |freed| ==> freed[i] in work || HangsFrom(store, freed[..i], freed[i]))
  }

  ghost predicate HangsFrom(store: Store, earlier: seq<nat>, x: nat)
  {
    exists m :: m in earlier && Child(store, m, x)
  }

  lemma UnderStep(store: Store, rest: seq<nat>, g: nat, freed: seq<nat>)
    requires g in store && g !in freed
    requires Under(store - {g}, rest + Ptrs(store[g]), freed)
    ensures Under(store, rest + [g], [g] + freed)
  {
    var s', kids, all, work := store - {g}, Ptrs(store[g]), [g] + freed, rest + [g];
    forall x | x in work && x != 0 ensures x in all {
      if x != g {
        assert x in rest && x in rest + kids;
      }
    }
    forall m, x | m in all && Child(store, m, x) ensures x in all {
      if m == g {
        assert x in rest + kids && x != 0;
      } else {
        assert Child(s', m, x);
      }
    }
    forall i | 0 <= i < |all| ensures all[i] in work || HangsFrom(store, all[..i], all[i]) {
      if i > 0 {
        assert all[i] == freed[i - 1] && all[..i] == [g] + freed[..i - 1];
        if freed[i - 1] in kids {
          assert g in all[..i] && Child(store, g, all[i]);
        } else if freed[i - 1] in rest {
          assert all[i] in work;
        } else {
          assert HangsFrom(s', freed[..i - 1], freed[i - 1]);
          var m :| m in freed[..i - 1] && Child(s', m, freed[i - 1]);
          assert m in all[..i] && Child(store, m, all[i]);
        }
      } else {
        assert all[0] == g;
      }
    }
  }

  /** What a collection has done. */
  ghost predicate Collected(store: Store, work: seq<nat>, d: Drained)
  {
    && NoDup(d.freed) && Under(store, work, d.freed)
    && Elems(d.freed) + d.store.Keys == store.Keys && Elems(d.freed) !! d.store.Keys
    && (forall m :: m in d.store ==> d.store[m] == store[m])
  }

  lemma CollectedNull(store: Store, rest: seq<nat>, d: Drained)
    requires Collected(store, rest, d)
    ensures Collected(store, rest + [0], d)
  {
    var work := rest + [0];
    assert forall x :: x in rest ==> x in work;
    assert forall x :: x in work && x != 0 ==> x in rest;
  }

  lemma CollectedPop(store: Store, rest: seq<nat>, g: nat, d: Drained)
    requires g in store && Collected(store - {g}, rest + Ptrs(store[g]), d)
    ensures Collected(store, rest + [g], d.(freed := [g] + d.freed))
  {
    assert forall x :: x in d.freed ==> x in Elems(d.freed);
    UnderStep(store, rest, g, d.freed);
    NoDupCons(g, d.freed);
    assert Elems([g] + d.freed) == {g} + Elems(d.freed);
  }

  lemma RootsNull(store: Store, rest: seq<nat>, others: set<nat>)
    requires Owned(store, rest + [0], others)
    ensures Owned(store, rest, others)
  {
    var work := rest + [0];
    assert forall i :: 0 <= i < |rest| ==> rest[i] == work[i] && rest[i] in work;
  }

  /** Collection frees the maps under the worklist, each once, and nothing else; what the rest of the
      system refers to stays, with everything that hangs from it. */
  lemma {:induction false} DrainFrees(store: Store, work: seq<nat>, others: set<nat>)
    requires Owned(store, work, others)
    ensures Collected(store, work, Drain(store, work)) && Owned(Drain(store, work).store, [], others)
    decreases |store|, |work|
  {
    if work != [] {
      var g, rest := work[|work| - 1], work[..|work| - 1];
      assert work == rest + [g];
      if g == 0 {
        RootsNull(store, rest, others);
        DrainFrees(store, rest, others);
        CollectedNull(store, rest, Drain(store, rest));
      } else {
        PopKeeps(store, rest, g, others);
        DrainFrees(store - {g}, rest + Ptrs(store[g]), others);
        CollectedPop(store, rest, g, Drain(store - {g}, rest + Ptrs(store[g])));
      }
    } else {
      assert Elems([]) == {};
    }
  }

  lemma DrainCovers(store: Store, work: seq<nat>, others: set<nat>)
    requires Whole(store, work, others)
    ensures Whole(Drain(store, work).store, [], others)
  {
    var d := Drain(store, work);
    DrainFrees(store, work, others);
    assert forall x :: x in d.freed <==> x in Elems(d.freed);
    forall m | m in d.store ensures m in others || IsChild(d.store, m) {
      if m !in others {
        var m' :| Child(store, m', m);
        assert Child(d.store, m', m);
      }
    }
  }

  // ---------------------------------------------------------------- the whole structure

  /** `held` are the maps of entries that were deleted and not yet inserted again or registered;
      `reg` the clock reading at which each registered map was registered. */
  datatype Perm = Perm(store: Store, root: nat, news: seq<nat>, olds: seq<nat>, held: set<nat>,
                       last: nat, clock: nat, reg: map<nat, nat>)

  function Referred(p: Perm): (r: set<nat>)
  {
    {p.root} + (Elems(p.news) - {0}) + p.held
  }

  /** No map is referred to twice from outside. */
  predicate Apart(root: nat, news: seq<nat>, held: set<nat>)
  {
    Distinct(news) && root !in news && root !in held && (forall x :: x in news ==> x !in held)
  }

  /** Every map is referred to exactly once: by the root pointer, a list, a holder or one map. */
  ghost predicate Inv(p: Perm)
  {
    Whole(p.store, p.olds, Referred(p)) && Apart(p.root, p.news, p.held)
  }

  ghost predicate Timed(p: Perm)
  {
    && p.last <= p.clock
    && (forall x :: x in p.reg <==> x != 0 && (x in p.news || x in p.olds))
    && (forall x :: x in p.news && x != 0 ==> p.reg[x] <= p.clock)
    && (forall x :: x in p.olds && x != 0 ==> p.reg[x] <= p.last)
  }

  /** Position of a name in a map, -1 if it is not there. */
  function Find(items: seq<Item>, name: string): (k: int)
    ensures -1 <= k < |items| && (k >= 0 ==> items[k].name == name)
    ensures k < 0 ==> forall i :: 0 <= i < |items| ==> items[i].name != name
  {
    if items == [] then -1
    else if items[|items| - 1].name == name then |items| - 1
    else Find(items[..|items| - 1], name)
  }

  function Target(p: Perm, dir: nat): (m: nat)
  {
    if dir == 0 then p.root else dir
  }

  function Allocate(p: Perm, id: nat): (r: Perm)
  {
    p.(store := p.store[id := []], held := p.held + {id})
  }

  /** The second `setPermission`: an entry that was deleted before goes into a map. */
  function Insert(p: Perm, dir: nat, it: Item): (r: Perm)
    requires Target(p, dir) in p.store
  {
    var m := Target(p, dir);
    if Find(p.store[m], it.name) >= 0 then p
    else p.(store := p.store[m := p.store[m] + [it]], held := p.held - {it.ptr})
  }

  /** The first `setPermission`: a new entry, with a new map `id` if it is a directory (`id` 0 if not). */
  function SetNew(p: Perm, dir: nat, name: string, ino: nat, id: nat): (r: Perm)
    requires Target(p, dir) in p.store
  {
    if Find(p.store[Target(p, dir)], name) >= 0 then p
    else Insert(if id == 0 then p else Allocate(p, id), dir, Item(name, id, ino))
  }

  function Delete(p: Perm, dir: nat, name: string): (r: Perm)
    requires Target(p, dir) in p.store
  {
    var m := Target(p, dir);
    var items := p.store[m];
    var k := Find(items, name);
    if k < 0 then p
    else p.(store := p.store[m := items[..k] + items[k + 1..]], held := p.held + ({items[k].ptr} - {0}))
  }

  /** `now` and `later` are the two clock readings of the call. */
  function Register(p: Perm, x: nat, now: nat, later: nat): (r: Perm)
  {
    var news, held, reg := p.news + [x], p.held - {x}, if x == 0 then p.reg else p.reg[x := now];
    if now - p.last > GC_THRESHOLD then
      var d := Drain(p.store, p.olds);
      p.(store := d.store, news := [], olds := news, held := held, last := later, clock := later,
         reg := reg - Elems(d.freed))
    else p.(news := news, held := held, clock := now, reg := reg)
  }

  // ---------------------------------------------------------------- what every operation keeps

  lemma {:induction false} PtrsConcat(a: seq<Item>, b: seq<Item>)
    ensures Ptrs(a + b) == Ptrs(a) + Ptrs(b)
  {
    if b == [] {
      assert a + b == a;
    } else {
      PtrsConcat(a, b[..|b| - 1]);
      assert (a + b)[..|a + b| - 1] == a + b[..|b| - 1];
    }
  }

  lemma PtrsOne(it: Item)
    ensures Ptrs([it]) == if it.ptr == 0 then [] else [it.ptr]
  {
    assert [it][..0] == [];
  }

  lemma PtrsSnocNull(items: seq<Item>, it: Item)
    requires it.ptr == 0
    ensures Ptrs(items + [it]) == Ptrs(items)
  {
    PtrsConcat(items, [it]);
    PtrsOne(it);
  }

  /** A new map that nothing points to. */
  lemma AllocateKeeps(store: Store, work: seq<nat>, others: set<nat>, id: nat)
    requires Whole(store, work, others) && id != 0 && id !in store
    ensures Whole(store[id := []], work, others + {id})
  {
    var s' := store[id := []];
    assert Ptrs([]) == [];
    assert forall m, x :: Child(s', m, x) <==> Child(store, m, x);
    assert forall x :: IsChild(s', x) <==> IsChild(store, x);
    assert !IsChild(store, id);
  }

  /** Only the pointers of a map matter. */
  lemma SamePtrsKeeps(store: Store, work: seq<nat>, others: set<nat>, m: nat, items: seq<Item>)
    requires Whole(store, work, others) && m in store && Ptrs(items) == Ptrs(store[m])
    ensures Whole(store[m := items], work, others)
  {
    var s' := store[m := items];
    assert forall m', x :: Child(s', m', x) <==> Child(store, m', x);
    assert forall x :: IsChild(s', x) <==> IsChild(store, x);
  }

  /** With the pointer the edges are as before, and the one more. */
  lemma AttachEdges(store: Store, s': Store, m: nat, items: seq<Item>, x: nat)
    requires m in store && Ptrs(items) == Ptrs(store[m]) + [x] && s' == store[m := items]
    ensures forall m', y :: Child(s', m', y) <==> Child(store, m', y) || (m' == m && y == x)
    ensures forall y :: IsChild(s', y) <==> IsChild(store, y) || y == x
  {
    assert forall m', y :: Child(s', m', y) <==> Child(store, m', y) || (m' == m && y == x);
    forall y ensures IsChild(s', y) <==> IsChild(store, y) || y == x {
      if IsChild(store, y) {
        var m' :| Child(store, m', y);
        assert Child(s', m', y);
      }
      assert Child(s', m, x);
    }
  }

  /** A pointer that others held goes into a map. */
  lemma AttachKeeps(store: Store, work: seq<nat>, others: set<nat>, m: nat, items: seq<Item>, x: nat)
    requires Whole(store, work, others) && m in store && x in others
    requires Ptrs(items) == Ptrs(store[m]) + [x]
    ensures Whole(store[m := items], work, others - {x})
  {
    AttachEdges(store, store[m := items], m, items, x);
    assert !IsChild(store, x) && !Child(store, m, x);
  }

  lemma NoDupWithout(a: seq<nat>, x: nat, b: seq<nat>)
    requires NoDup(a + [x] + b)
    ensures NoDup(a + b) && x !in a + b && forall y :: y in a + [x] + b <==> y in a + b || y == x
  {
    var q := a + [x] + b;
    assert q[|a|] == x;
    assert forall i :: 0 <= i < |a| ==> q[i] == a[i];
    assert forall i :: 0 <= i < |b| ==> q[|a| + 1 + i] == b[i];
    forall i, j | 0 <= i < j < |a + b| ensures (a + b)[i] != (a + b)[j] {
      assert q[if i < |a| then i else i + 1] != q[if j < |a| then j else j + 1];
    }
  }

  /** Without the pointer the edges are as before, but for the one. */
  lemma DetachEdges(store: Store, s': Store, m: nat, items: seq<Item>, a: seq<nat>, x: nat, b: seq<nat>)
    requires Tree(store) && m in store && Ptrs(store[m]) == a + [x] + b && Ptrs(items) == a + b
    requires s' == store[m := items]
    ensures Tree(s') && Child(store, m, x)
    ensures forall m', y :: Child(s', m', y) <==> Child(store, m', y) && y != x
    ensures forall y :: IsChild(s', y) <==> IsChild(store, y) && y != x
  {
    NoDupWithout(a, x, b);
    assert Child(store, m, x);
    forall m', y ensures Child(s', m', y) <==> Child(store, m', y) && y != x {
      if m' != m {
        assert Child(s', m', y) <==> Child(store, m', y);
      }
    }
    forall y ensures IsChild(s', y) <==> IsChild(store, y) && y != x {
      if IsChild(store, y) && y != x {
        var m' :| Child(store, m', y);
        assert Child(s', m', y);
      }
    }
  }

  /** A pointer taken out of a map is held from then on. */
  lemma DetachKeeps(store: Store, work: seq<nat>, others: set<nat>, m: nat, items: seq<Item>,
                    a: seq<nat>, x: nat, b: seq<nat>)
    requires Whole(store, work, others) && m in store
    requires Ptrs(store[m]) == a + [x] + b && Ptrs(items) == a + b
    ensures Whole(store[m := items], work, others + {x}) && x !in others
  {
    DetachEdges(store, store[m := items], m, items, a, x, b);
    assert IsChild(store, x);
  }

  lemma ReferredHeld(p: Perm, x: nat)
    requires Apart(p.root, p.news, p.held) && x in p.held
    ensures Referred(p.(held := p.held - {x})) == Referred(p) - {x}
  {
  }

  lemma InsertNullKeeps(p: Perm, m: nat, it: Item)
    requires Inv(p) && m in p.store && it.ptr == 0
    ensures Inv(p.(store := p.store[m := p.store[m] + [it]], held := p.held - {0}))
  {
    PtrsSnocNull(p.store[m], it);
    SamePtrsKeeps(p.store, p.olds, Referred(p), m, p.store[m] + [it]);
    assert 0 !in Referred(p);
    assert p.held - {0} == p.held;
  }

  lemma PtrsSnoc(items: seq<Item>, it: Item)
    requires it.ptr != 0
    ensures Ptrs(items + [it]) == Ptrs(items) + [it.ptr]
  {
    PtrsConcat(items, [it]);
    PtrsOne(it);
  }

  lemma HeldApart(root: nat, news: seq<nat>, held: set<nat>, x: nat)
    requires Apart(root, news, held)
    ensures Apart(root, news, held - {x})
  {
  }

  lemma InsertEntryKeeps(p: Perm, m: nat, it: Item)
    requires Inv(p) && m in p.store && it.ptr in p.held && it.ptr != 0
    ensures Inv(p.(store := p.store[m := p.store[m] + [it]], held := p.held - {it.ptr}))
  {
    PtrsSnoc(p.store[m], it);
    ReferredHeld(p, it.ptr);
    HeldApart(p.root, p.news, p.held, it.ptr);
    assert it.ptr in Referred(p);
    AttachKeeps(p.store, p.olds, Referred(p), m, p.store[m] + [it], it.ptr);
  }

  lemma InsertKeeps(p: Perm, dir: nat, it: Item)
    requires Inv(p) && Target(p, dir) in p.store && (it.ptr == 0 || it.ptr in p.held)
    ensures Inv(Insert(p, dir, it))
  {
    if it.ptr == 0 {
      InsertNullKeeps(p, Target(p, dir), it);
    } else {
      InsertEntryKeeps(p, Target(p, dir), it);
    }
  }

  lemma AllocatedKeeps(p: Perm, id: nat)
    requires Inv(p) && id != 0 && id !in p.store
    ensures Inv(Allocate(p, id))
  {
    AllocateKeeps(p.store, p.olds, Referred(p), id);
    assert Referred(Allocate(p, id)) == Referred(p) + {id};
    assert id !in Referred(p);
    assert forall x :: x in p.news && x != 0 ==> x in Referred(p);
  }

  lemma SetNewKeeps(p: Perm, dir: nat, name: string, ino: nat, id: nat)
    requires Inv(p) && Target(p, dir) in p.store && id !in p.store
    ensures Inv(SetNew(p, dir, name, ino, id))
  {
    if Find(p.store[Target(p, dir)], name) < 0 {
      if id == 0 {
        InsertKeeps(p, dir, Item(name, 0, ino));
      } else {
        AllocatedKeeps(p, id);
        InsertKeeps(Allocate(p, id), dir, Item(name, id, ino));
      }
    }
  }

  lemma PtrsWithout(items: seq<Item>, k: nat) returns (a: seq<nat>, b: seq<nat>)
    requires k < |items|
    ensures Ptrs(items[..k] + items[k + 1..]) == a + b
    ensures Ptrs(items) == if items[k].ptr == 0 then a + b else a + [items[k].ptr] + b
  {
    var l, it, r := items[..k], items[k], items[k + 1..];
    a, b := Ptrs(l), Ptrs(r);
    assert items == l + [it] + r;
    PtrsConcat(l + [it], r);
    PtrsConcat(l, [it]);
    PtrsConcat(l, r);
    PtrsOne(it);
    assert a + [] + b == a + b;
  }

  lemma DeleteKeeps(p: Perm, dir: nat, name: string)
    requires Inv(p) && Target(p, dir) in p.store
    ensures Inv(Delete(p, dir, name))
  {
    var p', m := Delete(p, dir, name), Target(p, dir);
    var k := Find(p.store[m], name);
    if k >= 0 {
      var x := p.store[m][k].ptr;
      var a, b := PtrsWithout(p.store[m], k);
      if x == 0 {
        SamePtrsKeeps(p.store, p.olds, Referred(p), m, p'.store[m]);
        assert Referred(p') == Referred(p);
      } else {
        DetachKeeps(p.store, p.olds, Referred(p), m, p'.store[m], a, x, b);
        assert Referred(p') == Referred(p) + {x};
        assert x in p.news ==> x in Referred(p);
      }
    }
  }

  lemma DistinctSnoc(q: seq<nat>, x: nat)
    requires Distinct(q) && (x == 0 || x !in q)
    ensures Distinct(q + [x])
  {
  }

  lemma RegisterReferred(p: Perm, x: nat)
    requires Inv(p) && (x == 0 || x in p.held)
    ensures Apart(p.root, p.news + [x], p.held - {x})
    ensures Referred(p.(news := p.news + [x], held := p.held - {x})) == Referred(p)
    ensures 0 !in Referred(p) && Elems(p.news + [x]) == Elems(p.news) + {x}
    ensures forall y :: y in p.news + [x] && y != 0 ==> y in Referred(p)
  {
    DistinctSnoc(p.news, x);
    assert Elems(p.news + [x]) == Elems(p.news) + {x};
    assert forall y :: y in Referred(p) ==> y in p.store;
  }

  /** After a collection the maps of the new list become the worklist of the next. */
  lemma Handover(store: Store, news: seq<nat>, referred: set<nat>, left: set<nat>)
    requires Whole(store, [], referred) && Distinct(news) && 0 !in referred
    requires left <= referred <= left + Elems(news)
    requires forall y :: y in news && y != 0 ==> y in referred && y !in left
    ensures Whole(store, news, left)
  {
    assert forall y :: y in Elems(news) <==> y in news;
  }

  lemma CollectKeeps(p: Perm, x: nat)
    requires Inv(p) && (x == 0 || x in p.held)
    ensures Whole(Drain(p.store, p.olds).store, p.news + [x], {p.root} + (p.held - {x}))
  {
    RegisterReferred(p, x);
    DrainCovers(p.store, p.olds, Referred(p));
    assert Elems(p.news + [x]) == Elems(p.news) + {x};
    Handover(Drain(p.store, p.olds).store, p.news + [x], Referred(p), {p.root} + (p.held - {x}));
  }

  /** Registering a held map or a null pointer keeps the structure, whether or not it collects. */
  lemma RegisterKeeps(p: Perm, x: nat, now: nat, later: nat)
    requires Inv(p) && (x == 0 || x in p.held)
    ensures Inv(Register(p, x, now, later))
  {
    RegisterReferred(p, x);
    if now - p.last > GC_THRESHOLD {
      CollectKeeps(p, x);
      assert Elems([]) == {};
      assert Referred(Register(p, x, now, later)) == {p.root} + (p.held - {x});
    }
  }

  /** And it is needed: registering anything else breaks the structure. */
  lemma RegisterKeepsIff(p: Perm, x: nat, now: nat, later: nat)
    requires Inv(p)
    ensures Inv(Register(p, x, now, later)) <==> x == 0 || x in p.held
  {
    if x == 0 || x in p.held {
      RegisterKeeps(p, x, now, later);
    } else {
      var p', news := Register(p, x, now, later), p.news + [x];
      assert news[|p.news|] == x && x in Elems(news);
      if x in p.news {
        var i :| 0 <= i < |p.news| && p.news[i] == x;
        assert news[i] == news[|p.news|];
        assert !Distinct(news);
      } else if now - p.last > GC_THRESHOLD {
        DrainFrees(p.store, p.olds, Referred(p));
        var d := Drain(p.store, p.olds);
        assert p'.olds == news && x in p'.olds;
        if x in d.store && x != p.root {
          assert x in p.store && x !in d.freed by { assert x !in Elems(d.freed); }
          var m :| Child(p.store, m, x);
          assert m in d.store by {
            assert m !in d.freed && (m in Elems(d.freed) <==> m in d.freed);
          }
          assert Child(d.store, m, x);
          assert IsChild(d.store, x);
        } else if x == p.root {
          assert p.root in Referred(p');
        }
      } else {
        assert p'.news == news && x in Referred(p');
      }
    }
  }

  /** A collection frees everything on the old list, and nothing of the new one. */
  lemma OldsFreed(p: Perm, x: nat)
    requires Inv(p) && (x == 0 || x in p.held)
    ensures var freed := Elems(Drain(p.store, p.olds).freed);
            && (forall y :: y in p.olds && y != 0 ==> y in freed)
            && (forall y :: y in p.news + [x] && y != 0 ==> y !in freed)
  {
    var d := Drain(p.store, p.olds);
    DrainFrees(p.store, p.olds, Referred(p));
    RegisterReferred(p, x);
    assert forall y :: y in d.freed <==> y in Elems(d.freed);
    forall y | y in p.news + [x] && y != 0 ensures y !in Elems(d.freed) {
      assert y in Referred(p) && y in d.store;
    }
  }

  lemma RegisterTimed(p: Perm, x: nat, now: nat, later: nat)
    requires Inv(p) && Timed(p) && (x == 0 || x in p.held) && p.clock <= now <= later
    ensures Timed(Register(p, x, now, later))
  {
    assert forall y :: y in p.news + [x] <==> y in p.news || y == x;
    if now - p.last > GC_THRESHOLD {
      OldsFreed(p, x);
    }
  }

  /** A collection frees no map that was registered at most the threshold before, and none that is in use. */
  lemma FreedLate(p: Perm, x: nat, now: nat, later: nat, m: nat)
    requires Inv(p) && Timed(p) && (x == 0 || x in p.held) && p.clock <= now <= later
    requires m in p.store && m !in Register(p, x, now, later).store
    ensures now - p.last > GC_THRESHOLD && m != p.root && m !in p.held
    ensures m in p.reg ==> p.reg[m] + GC_THRESHOLD < now
  {
    DrainFrees(p.store, p.olds, Referred(p));
    assert m !in Referred(p);
    assert m in p.news ==> m in Referred(p);
  }

  // ---------------------------------------------------------------- runs

  datatype Op =
    | DoSet(dir: nat, name: string, ino: nat, id: nat)
    | DoInsert(dir: nat, it: Item)
    | DoDelete(dir: nat, name: string)
    | DoRegister(x: nat, now: nat, later: nat)

  predicate Enabled(p: Perm, op: Op)
  {
    match op
    case DoSet(dir, _, _, id) => Target(p, dir) in p.store && id !in p.store
    case DoInsert(dir, it) => Target(p, dir) in p.store && (it.ptr == 0 || it.ptr in p.held)
    case DoDelete(dir, _) => Target(p, dir) in p.store
    case DoRegister(x, now, later) => (x == 0 || x in p.held) && p.clock <= now <= later
  }

  function Apply(p: Perm, op: Op): (r: Perm)
    requires Enabled(p, op)
  {
    match op
    case DoSet(dir, name, ino, id) => SetNew(p, dir, name, ino, id)
    case DoInsert(dir, it) => Insert(p, dir, it)
    case DoDelete(dir, name) => Delete(p, dir, name)
    case DoRegister(x, now, later) => Register(p, x, now, later)
  }

  ghost predicate Runs(p: Perm, ops: seq<Op>, p': Perm)
    decreases ops
  {
    if ops == [] then p' == p else Enabled(p, ops[0]) && Runs(Apply(p, ops[0]), ops[1..], p')
  }

  function Start(root: nat): (p: Perm)
  {
    Perm(map[root := []], root, [], [], {}, 0, 0, map[])
  }

  lemma StartInv(root: nat)
    requires root != 0
    ensures Inv(Start(root)) && Timed(Start(root)) && Named(Start(root).store)
  {
    assert Ptrs([]) == [];
    assert forall m, x :: !Child(Start(root).store, m, x);
    assert Referred(Start(root)) == {root};
  }

  lemma StepKeeps(p: Perm, op: Op)
    requires Inv(p) && Enabled(p, op)
    ensures Inv(Apply(p, op))
  {
    match op {
      case DoSet(dir, name, ino, id) => SetNewKeeps(p, dir, name, ino, id);
      case DoInsert(dir, it) => InsertKeeps(p, dir, it);
      case DoDelete(dir, name) => DeleteKeeps(p, dir, name);
      case DoRegister(x, now, later) => RegisterKeeps(p, x, now, later);
    }
  }

  /** In every run each live map is referred to exactly once, and a further registration frees only
      maps that were registered more than the threshold before, or that hang from such a map. */
  lemma {:induction false} GcRuns(p: Perm, ops: seq<Op>, p': Perm)
    requires Inv(p) && Timed(p) && Runs(p, ops, p')
    ensures Inv(p') && Timed(p')
    decreases ops
  {
    if ops != [] {
      var op := ops[0];
      StepKeeps(p, op);
      if op.DoRegister? {
        RegisterTimed(p, op.x, op.now, op.later);
      }
      GcRuns(Apply(p, op), ops[1..], p');
    }
  }

  // ---------------------------------------------------------------- what is found under a name

  /** The item of a name. */
  function Lookup(items: seq<Item>, name: string): (r: Option<Item>)
  {
    var k := Find(items, name);
    if k < 0 then None else Some(items[k])
  }

  /** No name occurs twice. */
  predicate NamesApart(items: seq<Item>)
  {
    forall i, j :: 0 <= i < j < |items| ==> items[i].name != items[j].name
  }

  ghost predicate Named(store: Store)
  {
    forall m :: m in store ==> NamesApart(store[m])
  }

  /** With distinct names an item is found exactly if it is there. */
  lemma LookupIs(items: seq<Item>, it: Item)
    requires NamesApart(items)
    ensures Lookup(items, it.name) == Some(it) <==> it in items
  {
    var k := Find(items, it.name);
    if it in items {
      var i :| 0 <= i < |items| && items[i] == it;
      assert k >= 0;
      assert i == k;
    }
  }

  lemma LookupSnoc(items: seq<Item>, it: Item, name: string)
    ensures Lookup(items + [it], name) == if name == it.name then Some(it) else Lookup(items, name)
  {
    assert (items + [it])[..|items|] == items;
  }

  lemma NamesSnoc(items: seq<Item>, it: Item)
    requires NamesApart(items) && Find(items, it.name) < 0
    ensures NamesApart(items + [it])
  {
  }

  lemma {:induction false} LookupConcat(a: seq<Item>, b: seq<Item>, name: string)
    ensures Lookup(a + b, name) == if Lookup(b, name).Some? then Lookup(b, name) else Lookup(a, name)
  {
    if b == [] {
      assert a + b == a;
    } else {
      var front, it := b[..|b| - 1], b[|b| - 1];
      LookupConcat(a, front, name);
      LookupSnoc(a + front, it, name);
      LookupSnoc(front, it, name);
      assert a + b == (a + front) + [it] && b == front + [it];
    }
  }

  /** Without one item its name is not found, and every other name finds what it found. */
  lemma LookupWithout(items: seq<Item>, k: nat, name: string)
    requires NamesApart(items) && k < |items|
    ensures NamesApart(items[..k] + items[k + 1..])
    ensures Lookup(items[..k] + items[k + 1..], name) == if name == items[k].name then None else Lookup(items, name)
  {
    var l, it, r := items[..k], items[k], items[k + 1..];
    assert items == (l + [it]) + r;
    LookupConcat(l + [it], r, name);
    LookupSnoc(l, it, name);
    LookupConcat(l, r, name);
    assert forall i :: 0 <= i < |r| ==> r[i] == items[k + 1 + i];
    if name == it.name {
      assert Find(l, name) < 0 && Find(r, name) < 0;
    }
    NamesWithout(items, k);
  }

  lemma NamesWithout(items: seq<Item>, k: nat)
    requires NamesApart(items) && k < |items|
    ensures NamesApart(items[..k] + items[k + 1..])
  {
    var q := items[..k] + items[k + 1..];
    forall i, j | 0 <= i < j < |q| ensures q[i].name != q[j].name {
      assert q[i] == items[if i < k then i else i + 1] && q[j] == items[if j < k then j else j + 1];
    }
  }

  /** Everything but one map, and what is held, is as it was. */
  predicate OnlyAt(p: Perm, p': Perm, m: nat)
  {
    p' == p.(store := p'.store, held := p'.held) && p'.store - {m} == p.store - {m}
  }

  function Erased(items: seq<Item>, name: string): (r: seq<Item>)
  {
    var k := Find(items, name);
    if k < 0 then items else items[..k] + items[k + 1..]
  }

  lemma ErasedForgets(items: seq<Item>, name: string, other: string)
    requires NamesApart(items)
    ensures NamesApart(Erased(items, name)) && Lookup(Erased(items, name), name) == None
    ensures other != name ==> Lookup(Erased(items, name), other) == Lookup(items, other)
  {
    var k := Find(items, name);
    if k >= 0 {
      LookupWithout(items, k, name);
      LookupWithout(items, k, other);
    }
  }

  /** A deletion touches the one map, and hands over the pointer of the entry. */
  lemma DeleteOnly(p: Perm, dir: nat, name: string)
    requires Target(p, dir) in p.store
    ensures var p', m := Delete(p, dir, name), Target(p, dir);
      && m in p'.store && OnlyAt(p, p', m) && p'.store[m] == Erased(p.store[m], name)
      && p'.held == p.held + (if Lookup(p.store[m], name).Some? then {Lookup(p.store[m], name).value.ptr} - {0} else {})
  {
  }

  /** After a deletion the name is not found, whatever its entry was; every other name of the map finds what
      it found, and every other map is as it was. */
  lemma DeleteForgets(p: Perm, dir: nat, name: string, other: string)
    requires Target(p, dir) in p.store && NamesApart(p.store[Target(p, dir)])
    ensures var p', m := Delete(p, dir, name), Target(p, dir);
      && m in p'.store && OnlyAt(p, p', m) && NamesApart(p'.store[m])
      && Lookup(p'.store[m], name) == None
      && (other != name ==> Lookup(p'.store[m], other) == Lookup(p.store[m], other))
  {
    DeleteOnly(p, dir, name);
    ErasedForgets(p.store[Target(p, dir)], name, other);
  }

  /** After an insertion the name finds the item given, if it was free; otherwise nothing has changed. */
  lemma InsertFinds(p: Perm, dir: nat, it: Item, other: string)
    requires Target(p, dir) in p.store && NamesApart(p.store[Target(p, dir)])
    ensures var p', m := Insert(p, dir, it), Target(p, dir);
      && m in p'.store && OnlyAt(p, p', m) && NamesApart(p'.store[m])
      && (Lookup(p.store[m], it.name).Some? ==> p' == p)
      && (Lookup(p.store[m], it.name).None? ==>
            Lookup(p'.store[m], it.name) == Some(it) && p'.held == p.held - {it.ptr})
      && (other != it.name ==> Lookup(p'.store[m], other) == Lookup(p.store[m], other))
  {
    var m := Target(p, dir);
    if Find(p.store[m], it.name) < 0 {
      LookupSnoc(p.store[m], it, it.name);
      LookupSnoc(p.store[m], it, other);
      NamesSnoc(p.store[m], it);
    }
  }

  /** A new entry is found with its map, which is new and empty; a name that is taken keeps its entry. */
  lemma SetNewFinds(p: Perm, dir: nat, name: string, ino: nat, id: nat, other: string)
    requires Target(p, dir) in p.store && id !in p.store && Named(p.store)
    ensures var p', m := SetNew(p, dir, name, ino, id), Target(p, dir);
      && m in p'.store && Named(p'.store) && p'.store - {m, id} == p.store - {m, id}
      && (Lookup(p.store[m], name).Some? ==> p' == p)
      && (Lookup(p.store[m], name).None? ==>
            && Lookup(p'.store[m], name) == Some(Item(name, id, ino))
            && (id != 0 ==> id in p'.store && p'.store[id] == []))
      && (other != name ==> Lookup(p'.store[m], other) == Lookup(p.store[m], other))
  {
    var m := Target(p, dir);
    if Find(p.store[m], name) < 0 {
      var q := if id == 0 then p else Allocate(p, id);
      assert q.store[m] == p.store[m];
      InsertFinds(q, dir, Item(name, id, ino), other);
      var p' := SetNew(p, dir, name, ino, id);
      assert p'.store - {m} == q.store - {m};
      assert forall x :: x in p'.store && x != m ==> x in q.store && p'.store[x] == q.store[x];
    }
  }

  /** An entry deleted and put back is found as before, as is every other. */
  lemma DeleteInsert(p: Perm, dir: nat, name: string, any: string)
    requires Target(p, dir) in p.store && NamesApart(p.store[Target(p, dir)])
    requires Lookup(p.store[Target(p, dir)], name).Some?
    ensures var q, m := Delete(p, dir, name), Target(p, dir);
      && Target(q, dir) == m && m in q.store
      && (var p' := Insert(q, dir, Lookup(p.store[m], name).value);
          m in p'.store && p'.store - {m} == p.store - {m} && Lookup(p'.store[m], any) == Lookup(p.store[m], any))
  {
    var m := Target(p, dir);
    DeleteForgets(p, dir, name, any);
    InsertFinds(Delete(p, dir, name), dir, Lookup(p.store[m], name).value, any);
  }

  lemma RegisterNamed(p: Perm, x: nat, now: nat, later: nat)
    requires Inv(p) && Named(p.store)
    ensures Named(Register(p, x, now, later).store)
  {
    DrainFrees(p.store, p.olds, Referred(p));
  }

  /** Names are distinct in every map in every run. */
  lemma {:induction false} NamedRuns(p: Perm, ops: seq<Op>, p': Perm)
    requires Inv(p) && Named(p.store) && Runs(p, ops, p')
    ensures Named(p'.store)
    decreases ops
  {
    if ops != [] {
      StepKeeps(p, ops[0]);
      StepNamed(p, ops[0]);
      NamedRuns(Apply(p, ops[0]), ops[1..], p');
    }
  }

  lemma StepNamed(p: Perm, op: Op)
    requires Inv(p) && Named(p.store) && Enabled(p, op)
    ensures Named(Apply(p, op).store)
  {
    match op {
      case DoSet(dir, name, ino, id) => SetNewFinds(p, dir, name, ino, id, name);
      case DoInsert(dir, it) =>
        InsertFinds(p, dir, it, it.name);
        OnlyNamed(p, Insert(p, dir, it), Target(p, dir));
      case DoDelete(dir, name) =>
        DeleteForgets(p, dir, name, name);
        OnlyNamed(p, Delete(p, dir, name), Target(p, dir));
      case DoRegister(x, now, later) => RegisterNamed(p, x, now, later);
    }
  }

  lemma OnlyNamed(p: Perm, p': Perm, m: nat)
    requires Named(p.store) && OnlyAt(p, p', m) && (m in p'.store ==> NamesApart(p'.store[m]))
    ensures Named(p'.store)
  {
    forall x | x in p'.store && x != m ensures NamesApart(p'.store[x]) {
      assert x in p'.store - {m} && (p'.store - {m})[x] == p'.store[x];
      assert x in p.store - {m} && (p.store - {m})[x] == p.store[x];
    }
  }

  // ---------------------------------------------------------------- what a registration does

  /** A registration collects exactly when more than the threshold has passed since the last collection. Then
      every map of the old list is gone and the new list, with the map registered, becomes the old one;
      otherwise no map is touched. */
  lemma RegisterCollectsIff(p: Perm, x: nat, now: nat, later: nat)
    requires Inv(p) && (x == 0 || x in p.held)
    ensures var p' := Register(p, x, now, later);
      && (now - p.last > GC_THRESHOLD ==>
            && p'.last == later && p'.clock == later && p'.news == [] && p'.olds == p.news + [x]
            && (forall y :: y in p.olds && y != 0 ==> y in p.store && y !in p'.store)
            && (forall y :: y in p'.store ==> y in p.store && p'.store[y] == p.store[y])
            && (forall y :: y in Referred(p) ==> y in p'.store))
      && (now - p.last <= GC_THRESHOLD ==>
            p'.store == p.store && p'.last == p.last && p'.news == p.news + [x] && p'.olds == p.olds)
  {
    if now - p.last > GC_THRESHOLD {
      DrainFrees(p.store, p.olds, Referred(p));
      OldsFreed(p, x);
    }
  }

  /** A map registered by a call that collects survives that collection and is freed by the next. */
  lemma FreedSecond(p: Perm, x: nat, now: nat, later: nat, y: nat, now': nat, later': nat)
    requires Inv(p) && x != 0 && x in p.held && now - p.last > GC_THRESHOLD
    requires now' - later > GC_THRESHOLD && (y == 0 || y in Register(p, x, now, later).held)
    ensures x in Register(p, x, now, later).store
    ensures x !in Register(Register(p, x, now, later), y, now', later').store
  {
    var p' := Register(p, x, now, later);
    RegisterKeeps(p, x, now, later);
    RegisterCollectsIff(p, x, now, later);
    assert x in Referred(p) && x in p'.olds;
    RegisterCollectsIff(p', y, now', later');
  }

  // ---------------------------------------------------------------- what can be reached

  ghost predicate Leads(store: Store, path: seq<nat>)
  {
    path != [] && forall i :: 0 <= i < |path| - 1 ==> Child(store, path[i], path[i + 1])
  }

  /** A chain of pointers leads from one of `from` to `x`. */
  ghost predicate Reach(store: Store, from: set<nat>, x: nat)
  {
    exists path :: Leads(store, path) && path[0] in from && path[|path| - 1] == x
  }

  lemma ReachRoot(store: Store, from: set<nat>, x: nat)
    requires x in from
    ensures Reach(store, from, x)
  {
    assert Leads(store, [x]) && [x][0] in from;
  }

  lemma ReachStep(store: Store, from: set<nat>, m: nat, x: nat)
    requires Reach(store, from, m) && Child(store, m, x)
    ensures Reach(store, from, x)
  {
    var path :| Leads(store, path) && path[0] in from && path[|path| - 1] == m;
    var longer := path + [x];
    assert Leads(store, longer) && longer[0] in from && longer[|longer| - 1] == x;
  }

  /** What holds of the start and passes along every pointer holds of all that is reached. */
  lemma {:induction false} ReachAll(store: Store, from: set<nat>, path: seq<nat>, inside: nat -> bool)
    requires Leads(store, path) && path[0] in from
    requires forall r :: r in from ==> inside(r)
    requires forall m, x :: inside(m) && Child(store, m, x) ==> inside(x)
    ensures inside(path[|path| - 1])
  {
    if |path| > 1 {
      ReachAll(store, from, path[..|path| - 1], inside);
      assert Child(store, path[|path| - 2], path[|path| - 1]);
    }
  }

  lemma ReachInside(store: Store, from: set<nat>, x: nat, inside: nat -> bool)
    requires Reach(store, from, x)
    requires forall r :: r in from ==> inside(r)
    requires forall m, y :: inside(m) && Child(store, m, y) ==> inside(y)
    ensures inside(x)
  {
    var path :| Leads(store, path) && path[0] in from && path[|path| - 1] == x;
    ReachAll(store, from, path, inside);
  }

  /** What is reached from `x` and is not `x` has a parent that is. */
  lemma ReachParent(store: Store, x: nat, y: nat) returns (m: nat)
    requires Reach(store, {x}, y) && y != x
    ensures Reach(store, {x}, m) && Child(store, m, y)
  {
    var path :| Leads(store, path) && path[0] in {x} && path[|path| - 1] == y;
    var shorter := path[..|path| - 1];
    m := path[|path| - 2];
    assert Leads(store, shorter) && shorter[0] in {x} && shorter[|shorter| - 1] == m;
    assert Child(store, path[|path| - 2], path[|path| - 1]);
  }

  /** Only `x` is reached from a map without pointers. */
  lemma ReachNowhere(store: Store, x: nat, y: nat)
    requires Reach(store, {x}, y) && (x in store ==> Ptrs(store[x]) == [])
    ensures y == x
  {
    var inside := (z: nat) => z == x;
    ReachInside(store, {x}, y, inside);
  }

  /** Every live map can be reached from outside. */
  ghost predicate AllReached(store: Store, from: set<nat>)
  {
    forall m :: m in store ==> Reach(store, from, m)
  }

  lemma MoreReached(store: Store, s': Store, from: set<nat>, from': set<nat>, x: nat)
    requires Reach(store, from, x)
    requires forall r :: r in from ==> Reach(s', from', r)
    requires forall m, y :: Child(store, m, y) ==> Child(s', m, y) || y in from'
    ensures Reach(s', from', x)
  {
    var inside := (y: nat) => Reach(s', from', y);
    forall m, y | inside(m) && Child(store, m, y) ensures inside(y) {
      if y in from' {
        ReachRoot(s', from', y);
      } else {
        ReachStep(s', from', m, y);
      }
    }
    ReachInside(store, from, x, inside);
  }

  lemma AllocateReaches(store: Store, s': Store, from: set<nat>, id: nat)
    requires AllReached(store, from) && id !in store && s' == store[id := []]
    ensures AllReached(s', from + {id})
  {
    assert forall m, y :: Child(store, m, y) ==> Child(s', m, y);
    forall r | r in from + {id} ensures Reach(s', from + {id}, r) {
      ReachRoot(s', from + {id}, r);
    }
    forall m | m in store ensures Reach(s', from + {id}, m) {
      MoreReached(store, s', from, from + {id}, m);
    }
  }

  lemma SamePtrsReaches(store: Store, s': Store, from: set<nat>, m: nat, items: seq<Item>)
    requires AllReached(store, from) && m in store && Ptrs(items) == Ptrs(store[m]) && s' == store[m := items]
    ensures AllReached(s', from)
  {
    assert forall m', y :: Child(store, m', y) ==> Child(s', m', y);
    forall r | r in from ensures Reach(s', from, r) {
      ReachRoot(s', from, r);
    }
    forall m' | m' in store ensures Reach(s', from, m') {
      MoreReached(store, s', from, from, m');
    }
  }

  lemma DetachReaches(store: Store, s': Store, from: set<nat>, m: nat, items: seq<Item>,
                      a: seq<nat>, x: nat, b: seq<nat>)
    requires Tree(store) && AllReached(store, from) && m in store && s' == store[m := items]
    requires Ptrs(store[m]) == a + [x] + b && Ptrs(items) == a + b
    ensures AllReached(s', from + {x})
  {
    DetachEdges(store, s', m, items, a, x, b);
    forall r | r in from ensures Reach(s', from + {x}, r) {
      ReachRoot(s', from + {x}, r);
    }
    forall m' | m' in store ensures Reach(s', from + {x}, m') {
      MoreReached(store, s', from, from + {x}, m');
    }
  }

  /** The map that gets the pointer is still reached, unless it hangs from what the pointer leads to. */
  lemma AttachTarget(store: Store, s': Store, from: set<nat>, m: nat, items: seq<Item>, x: nat)
    requires m in store && Ptrs(items) == Ptrs(store[m]) + [x] && s' == store[m := items]
    requires Reach(store, from, m) && !Reach(store, {x}, m)
    ensures Reach(s', from - {x}, m)
  {
    AttachEdges(store, s', m, items, x);
    var inside := (y: nat) => Reach(s', from - {x}, y) || Reach(store, {x}, y);
    forall r | r in from ensures inside(r) {
      if r == x {
        ReachRoot(store, {x}, r);
      } else {
        ReachRoot(s', from - {x}, r);
      }
    }
    forall u, y | inside(u) && Child(store, u, y) ensures inside(y) {
      if Reach(store, {x}, u) {
        ReachStep(store, {x}, u, y);
      } else {
        ReachStep(s', from - {x}, u, y);
      }
    }
    ReachInside(store, from, m, inside);
  }

  lemma AttachReaches(store: Store, s': Store, from: set<nat>, m: nat, items: seq<Item>, x: nat)
    requires AllReached(store, from) && m in store && Ptrs(items) == Ptrs(store[m]) + [x] && s' == store[m := items]
    requires !Reach(store, {x}, m)
    ensures AllReached(s', from - {x})
  {
    AttachEdges(store, s', m, items, x);
    AttachTarget(store, s', from, m, items, x);
    assert Child(s', m, x);
    ReachStep(s', from - {x}, m, x);
    forall r | r in from ensures Reach(s', from - {x}, r) {
      if r != x {
        ReachRoot(s', from - {x}, r);
      }
    }
    forall m' | m' in store ensures Reach(s', from - {x}, m') {
      MoreReached(store, s', from, from - {x}, m');
    }
  }

  /** Then whatever points to a map that is reached from `x` is reached from `x` too. */
  lemma AttachParent(store: Store, s': Store, m: nat, items: seq<Item>, x: nat, u: nat, y: nat)
    requires Tree(store) && !IsChild(store, x) && Reach(store, {x}, m)
    requires m in store && Ptrs(items) == Ptrs(store[m]) + [x] && s' == store[m := items]
    requires Child(s', u, y) && Reach(store, {x}, y)
    ensures Reach(store, {x}, u)
  {
    AttachEdges(store, s', m, items, x);
    if y != x {
      var v := ReachParent(store, x, y);
      assert u == v;
    } else {
      assert Child(store, u, x) ==> IsChild(store, x);
      assert u == m;
    }
  }

  /** Otherwise the two lead to each other, and nothing leads to them. */
  lemma AttachLoses(store: Store, s': Store, from: set<nat>, m: nat, items: seq<Item>, x: nat)
    requires Tree(store) && Others(store, from) && x in from && Reach(store, {x}, m)
    requires m in store && Ptrs(items) == Ptrs(store[m]) + [x] && s' == store[m := items]
    ensures !Reach(s', from - {x}, x)
  {
    var outside := (y: nat) => !Reach(store, {x}, y);
    forall r | r in from - {x} ensures outside(r) {
      if Reach(store, {x}, r) {
        var u := ReachParent(store, x, r);
        assert IsChild(store, r);
      }
    }
    forall u, y | outside(u) && Child(s', u, y) ensures outside(y) {
      if Reach(store, {x}, y) {
        AttachParent(store, s', m, items, x, u, y);
      }
    }
    ReachRoot(store, {x}, x);
    if Reach(s', from - {x}, x) {
      ReachInside(s', from - {x}, x, outside);
    }
  }

  /** A collection loses nothing that something else leads to. */
  lemma DrainReaches(store: Store, work: seq<nat>, others: set<nat>, x: nat)
    requires Owned(store, work, others) && Reach(store, others + (Elems(work) - {0}), x)
    requires x in Drain(store, work).store
    ensures Reach(Drain(store, work).store, others, x)
  {
    var d := Drain(store, work);
    DrainFrees(store, work, others);
    assert forall y :: y in d.freed <==> y in Elems(d.freed);
    var inside := (y: nat) => y in d.store ==> Reach(d.store, others, y);
    forall r | r in others + (Elems(work) - {0}) ensures inside(r) {
      if r in others {
        ReachRoot(d.store, others, r);
      }
    }
    forall m, y | inside(m) && Child(store, m, y) ensures inside(y) {
      if y in d.store {
        assert m !in d.freed;
        assert Child(d.store, m, y);
        ReachStep(d.store, others, m, y);
      }
    }
    ReachInside(store, others + (Elems(work) - {0}), x, inside);
  }

  /** All that refers to a map from outside the maps. */
  function Anchors(p: Perm): (r: set<nat>)
  {
    Referred(p) + (Elems(p.olds) - {0})
  }

  ghost predicate Reached(p: Perm)
  {
    AllReached(p.store, Anchors(p))
  }

  lemma AnchorsRoots(p: Perm)
    requires Inv(p)
    ensures Others(p.store, Anchors(p)) && 0 !in Anchors(p)
  {
    assert forall y :: y in Elems(p.olds) <==> y in p.olds;
  }

  lemma AnchorsHeld(p: Perm, x: nat)
    requires Inv(p) && x in p.held
    ensures Anchors(p.(held := p.held - {x})) == Anchors(p) - {x}
  {
    ReferredHeld(p, x);
    assert x !in p.olds;
  }

  /** An entry put back keeps every map reachable if and only if the directory it goes to does not hang
      from the entry's own map. */
  lemma InsertReachesIff(p: Perm, dir: nat, it: Item)
    requires Inv(p) && Reached(p) && Target(p, dir) in p.store && it.ptr in p.held
    requires Find(p.store[Target(p, dir)], it.name) < 0
    ensures Reached(Insert(p, dir, it)) <==> !Reach(p.store, {it.ptr}, Target(p, dir))
  {
    var m, x := Target(p, dir), it.ptr;
    var items := p.store[m] + [it];
    var p' := Insert(p, dir, it);
    AnchorsRoots(p);
    assert x in Anchors(p);
    PtrsConcat(p.store[m], [it]);
    PtrsOne(it);
    AnchorsHeld(p, x);
    assert Anchors(p') == Anchors(p) - {x};
    if Reach(p.store, {x}, m) {
      AttachLoses(p.store, p'.store, Anchors(p), m, items, x);
      assert x in p'.store;
    } else {
      AttachReaches(p.store, p'.store, Anchors(p), m, items, x);
    }
  }

  lemma InsertNullReaches(p: Perm, dir: nat, it: Item)
    requires 0 !in p.held && Reached(p) && Target(p, dir) in p.store && it.ptr == 0
    ensures Reached(Insert(p, dir, it))
  {
    var m := Target(p, dir);
    PtrsSnocNull(p.store[m], it);
    SamePtrsReaches(p.store, p.store[m := p.store[m] + [it]], Anchors(p), m, p.store[m] + [it]);
    assert p.held - {0} == p.held;
  }

  lemma SetNewReaches(p: Perm, dir: nat, name: string, ino: nat, id: nat)
    requires Inv(p) && Reached(p) && Target(p, dir) in p.store && id !in p.store
    ensures Reached(SetNew(p, dir, name, ino, id))
  {
    var m := Target(p, dir);
    if Find(p.store[m], name) < 0 {
      if id == 0 {
        AnchorsRoots(p);
        InsertNullReaches(p, dir, Item(name, 0, ino));
      } else {
        var q := Allocate(p, id);
        AllocatedKeeps(p, id);
        AllocateReaches(p.store, q.store, Anchors(p), id);
        assert Anchors(q) == Anchors(p) + {id};
        if Reach(q.store, {id}, m) {
          ReachNowhere(q.store, id, m);
        }
        InsertReachesIff(q, dir, Item(name, id, ino));
      }
    }
  }

  lemma DeleteNullReaches(p: Perm, m: nat, k: nat)
    requires Reached(p) && m in p.store && k < |p.store[m]| && p.store[m][k].ptr == 0
    ensures AllReached(p.store[m := p.store[m][..k] + p.store[m][k + 1..]], Anchors(p))
  {
    var items := p.store[m][..k] + p.store[m][k + 1..];
    var a, b := PtrsWithout(p.store[m], k);
    SamePtrsReaches(p.store, p.store[m := items], Anchors(p), m, items);
  }

  lemma DeleteEntryReaches(p: Perm, m: nat, k: nat)
    requires Tree(p.store) && Reached(p) && m in p.store && k < |p.store[m]| && p.store[m][k].ptr != 0
    ensures AllReached(p.store[m := p.store[m][..k] + p.store[m][k + 1..]], Anchors(p) + {p.store[m][k].ptr})
  {
    var items := p.store[m][..k] + p.store[m][k + 1..];
    var a, b := PtrsWithout(p.store[m], k);
    DetachReaches(p.store, p.store[m := items], Anchors(p), m, items, a, p.store[m][k].ptr, b);
  }

  lemma DeleteReaches(p: Perm, dir: nat, name: string)
    requires Tree(p.store) && Reached(p) && Target(p, dir) in p.store
    ensures Reached(Delete(p, dir, name))
  {
    var p', m := Delete(p, dir, name), Target(p, dir);
    var k := Find(p.store[m], name);
    if k >= 0 {
      if p.store[m][k].ptr == 0 {
        DeleteNullReaches(p, m, k);
        assert Anchors(p') == Anchors(p);
      } else {
        DeleteEntryReaches(p, m, k);
        assert Anchors(p') == Anchors(p) + {p.store[m][k].ptr};
      }
    }
  }

  lemma CollectReaches(store: Store, work: seq<nat>, others: set<nat>)
    requires Owned(store, work, others) && AllReached(store, others + (Elems(work) - {0}))
    ensures AllReached(Drain(store, work).store, others)
  {
    DrainFrees(store, work, others);
    forall m | m in Drain(store, work).store ensures Reach(Drain(store, work).store, others, m) {
      assert m in store;
      DrainReaches(store, work, others, m);
    }
  }

  lemma RegisterAnchors(p: Perm, x: nat, now: nat, later: nat)
    requires Inv(p) && (x == 0 || x in p.held)
    ensures Anchors(Register(p, x, now, later)) == if now - p.last > GC_THRESHOLD then Referred(p) else Anchors(p)
  {
    RegisterReferred(p, x);
    if now - p.last > GC_THRESHOLD {
      assert Elems([]) == {};
    }
  }

  lemma RegisterReaches(p: Perm, x: nat, now: nat, later: nat)
    requires Inv(p) && Reached(p) && (x == 0 || x in p.held)
    ensures Reached(Register(p, x, now, later))
  {
    RegisterAnchors(p, x, now, later);
    if now - p.last > GC_THRESHOLD {
      CollectReaches(p.store, p.olds, Referred(p));
    }
  }

  /** An operation puts no directory below itself. */
  ghost predicate Fits(p: Perm, op: Op)
    requires Enabled(p, op)
  {
    op.DoInsert? && op.it.ptr != 0 && Find(p.store[Target(p, op.dir)], op.it.name) < 0 ==>
      !Reach(p.store, {op.it.ptr}, Target(p, op.dir))
  }

  lemma StepReachesIff(p: Perm, op: Op)
    requires Inv(p) && Reached(p) && Enabled(p, op)
    ensures Reached(Apply(p, op)) <==> Fits(p, op)
  {
    match op {
      case DoSet(dir, name, ino, id) => SetNewReaches(p, dir, name, ino, id);
      case DoInsert(dir, it) =>
        if it.ptr == 0 {
          AnchorsRoots(p);
          InsertNullReaches(p, dir, it);
        } else if Find(p.store[Target(p, dir)], it.name) < 0 {
          InsertReachesIff(p, dir, it);
        }
      case DoDelete(dir, name) => DeleteReaches(p, dir, name);
      case DoRegister(x, now, later) => RegisterReaches(p, x, now, later);
    }
  }

  ghost predicate AlwaysReached(p: Perm, ops: seq<Op>)
    decreases ops
  {
    Reached(p) && (ops == [] || (Enabled(p, ops[0]) && AlwaysReached(Apply(p, ops[0]), ops[1..])))
  }

  ghost predicate AlwaysFits(p: Perm, ops: seq<Op>)
    decreases ops
  {
    ops == [] || (Enabled(p, ops[0]) && Fits(p, ops[0]) && AlwaysFits(Apply(p, ops[0]), ops[1..]))
  }

  /** Every live map can be reached from outside all along a run if and only if no operation of the run
      puts a directory below itself. */
  lemma {:induction false} ReachedRunsIff(p: Perm, ops: seq<Op>, p': Perm)
    requires Inv(p) && Reached(p) && Runs(p, ops, p')
    ensures AlwaysReached(p, ops) <==> AlwaysFits(p, ops)
    decreases ops
  {
    if ops != [] {
      var q := Apply(p, ops[0]);
      StepKeeps(p, ops[0]);
      StepReachesIff(p, ops[0]);
      if Reached(q) {
        ReachedRunsIff(q, ops[1..], p');
      }
    }
  }

  lemma StartReached(root: nat)
    requires root != 0
    ensures Reached(Start(root))
  {
    ReachRoot(Start(root).store, Anchors(Start(root)), root);
  }

  /** Deleting an entry leaves the pointers of the entry's own map. */
  lemma DeleteChild(p: Perm, dir: nat, name: string, k: nat, m: nat)
    requires Inv(p) && Target(p, dir) in p.store && k == Find(p.store[Target(p, dir)], name)
    requires var x := p.store[Target(p, dir)][k].ptr; x != 0 && x != m && Child(p.store, x, m)
    requires m in p.store && Find(p.store[m], name) < 0
    ensures var x, q := p.store[Target(p, dir)][k].ptr, Delete(p, dir, name);
            x in q.held && m in q.store && q.store[m] == p.store[m] && Child(q.store, x, m)
  {
    var from := Target(p, dir);
    var items := p.store[from][..k] + p.store[from][k + 1..];
    var a, b := PtrsWithout(p.store[from], k);
    DetachEdges(p.store, p.store[from := items], from, items, a, p.store[from][k].ptr, b);
  }

  lemma InsertBelow(q: Perm, m: nat, it: Item)
    requires Inv(q) && Reached(q) && m != 0 && m in q.store && it.ptr in q.held
    requires Find(q.store[m], it.name) < 0 && Child(q.store, it.ptr, m)
    ensures Inv(Insert(q, m, it)) && !Reached(Insert(q, m, it))
  {
    ReachRoot(q.store, {it.ptr}, it.ptr);
    ReachStep(q.store, {it.ptr}, it.ptr, m);
    InsertReachesIff(q, m, it);
    InsertKeeps(q, m, it);
  }

  lemma RunsTwo(p: Perm, a: Op, b: Op)
    requires Enabled(p, a) && Enabled(Apply(p, a), b)
    ensures Runs(p, [a, b], Apply(Apply(p, a), b))
  {
    assert [a, b][1..] == [b];
    assert Runs(Apply(p, a), [b], Apply(Apply(p, a), b));
  }

  /** A directory moved into one of its own directories, from any state: its entry is deleted from the
      map that has it and inserted below. The two maps then lead to each other, and nothing leads to them. */
  lemma MovedBelow(p: Perm, dir: nat, name: string, k: nat, m: nat) returns (p': Perm)
    requires Inv(p) && Reached(p) && Target(p, dir) in p.store && k == Find(p.store[Target(p, dir)], name)
    requires var x := p.store[Target(p, dir)][k].ptr; x != 0 && x != m && Child(p.store, x, m)
    requires m in p.store && Find(p.store[m], name) < 0
    ensures Runs(p, [DoDelete(dir, name), DoInsert(m, p.store[Target(p, dir)][k])], p')
    ensures Inv(p') && !Reached(p')
  {
    var it := p.store[Target(p, dir)][k];
    var q := Delete(p, dir, name);
    DeleteKeeps(p, dir, name);
    DeleteReaches(p, dir, name);
    DeleteChild(p, dir, name, k, m);
    assert m != 0;
    InsertBelow(q, m, it);
    p' := Insert(q, m, it);
    RunsTwo(p, DoDelete(dir, name), DoInsert(m, it));
  }

  // ---------------------------------------------------------------- the object

  /** The loop of `garbage_collect`: it never meets a map that has been freed. */
  method FreeAll(store0: Store, work0: seq<nat>, ghost others: set<nat>) returns (store: Store)
    requires Owned(store0, work0, others)
    ensures store == Drain(store0, work0).store
  {
    store := store0;
    var work := work0;
    while work != []
      invariant Owned(store, work, others)
      invariant Drain(store, work).store == Drain(store0, work0).store
      decreases |store|, |work|
    {
      var g, rest := work[|work| - 1], work[..|work| - 1];
      assert work == rest + [g];
      if g == 0 {
        RootsNull(store, rest, others);
        work := rest;
      } else {
        PopKeeps(store, rest, g, others);
        work, store := rest + Ptrs(store[g]), store - {g};
      }
    }
  }

  lemma FindSnoc(items: seq<Item>, it: Item)
    ensures Find(items + [it], it.name) == |items|
  {
  }

  /** What `SetNew` does when the name is free. */
  lemma SetNewStore(p: Perm, dir: nat, name: string, ino: nat, id: nat)
    requires Target(p, dir) in p.store && id !in p.store && Find(p.store[Target(p, dir)], name) < 0
    ensures var p', m, it := SetNew(p, dir, name, ino, id), Target(p, dir), Item(name, id, ino);
            && p'.store == (if id == 0 then p.store else p.store[id := []])[m := p.store[m] + [it]]
            && p'.root == p.root && p'.news == p.news && p'.olds == p.olds && p'.last == p.last
            && p'.store[m] == p.store[m] + [it] && Find(p'.store[m], name) == |p.store[m]|
  {
    FindSnoc(p.store[Target(p, dir)], Item(name, id, ino));
  }

  /** The map of a deleted entry is held from then on, and was not before. */
  lemma DeleteHands(p: Perm, dir: nat, name: string)
    requires Inv(p) && Target(p, dir) in p.store
    ensures var k := Find(p.store[Target(p, dir)], name);
            k >= 0 && p.store[Target(p, dir)][k].ptr != 0 ==>
              var x := p.store[Target(p, dir)][k].ptr; x in Delete(p, dir, name).held && x !in p.held
  {
    var m := Target(p, dir);
    var k := Find(p.store[m], name);
    if k >= 0 && p.store[m][k].ptr != 0 {
      var items := p.store[m][..k] + p.store[m][k + 1..];
      var a, b := PtrsWithout(p.store[m], k);
      DetachKeeps(p.store, p.olds, Referred(p), m, items, a, p.store[m][k].ptr, b);
    }
  }

  class FsPermission {
    var store: Store
    const root: nat
    var garbageNew: seq<nat>
    var garbageOld: seq<nat>
    var garbageLastTime: nat

    constructor (root: nat)
      requires root != 0
      ensures this.root == root && store == map[root := []]
      ensures garbageNew == garbageOld == [] && garbageLastTime == 0
    {
      this.root := root;
      store, garbageNew, garbageOld, garbageLastTime := map[root := []], [], [], 0;
    }

    /** The fields stand for `p`, whose other parts only the callers know. */
    ghost predicate Is(p: Perm)
      reads this
    {
      && store == p.store && root == p.root && garbageNew == p.news && garbageOld == p.olds
      && garbageLastTime == p.last
    }

    /** Inserts a new entry unless the name is taken. */
    method Enter(dir: nat, name: string, ino: nat, id: nat, ghost p: Perm) returns (inserted: bool, dirMap: nat)
      requires Is(p) && Target(p, dir) in store && id !in store
      modifies this`store
      ensures Is(SetNew(p, dir, name, ino, id)) && Target(p, dir) in store
      ensures inserted <==> Find(old(store)[Target(p, dir)], name) < 0
      ensures var items := store[Target(p, dir)];
              var k := Find(items, name);
              k >= 0 && items[k].ptr == dirMap && (inserted ==> items[k] == Item(name, id, ino))
    {
      var m := if dir == 0 then root else dir;
      var k := Find(store[m], name);
      if k >= 0 {
        return false, store[m][k].ptr;
      }
      SetNewStore(p, dir, name, ino, id);
      if id != 0 {
        store := store[id := []];
      }
      store := store[m := store[m] + [Item(name, id, ino)]];
      return true, id;
    }

    method SetPermission(dir: nat, name: string, ino: nat, id: nat, ghost p: Perm) returns (inserted: bool, dirMap: nat)
      requires Is(p) && Inv(p) && Target(p, dir) in store && id !in store
      modifies this`store
      ensures Is(SetNew(p, dir, name, ino, id)) && Inv(SetNew(p, dir, name, ino, id)) && Target(p, dir) in store
      ensures inserted <==> Find(old(store)[Target(p, dir)], name) < 0
      ensures var items := store[Target(p, dir)];
              var k := Find(items, name);
              k >= 0 && items[k].ptr == dirMap && (inserted ==> items[k] == Item(name, id, ino))
    {
      SetNewKeeps(p, dir, name, ino, id);
      inserted, dirMap := Enter(dir, name, ino, id, p);
    }

    /** Takes the entry of a name out of a map. */
    method TakeOut(dir: nat, name: string, ghost p: Perm) returns (found: bool, it: Item)
      requires Is(p) && Target(p, dir) in store
      modifies this`store
      ensures Is(Delete(p, dir, name))
      ensures found <==> Find(old(store)[Target(p, dir)], name) >= 0
      ensures found ==> it == old(store)[Target(p, dir)][Find(old(store)[Target(p, dir)], name)]
      ensures Target(p, dir) in store
    {
      var m := if dir == 0 then root else dir;
      var k := Find(store[m], name);
      found, it := false, Item("", 0, 0);
      if k >= 0 {
        found, it := true, store[m][k];
        store := store[m := store[m][..k] + store[m][k + 1..]];
      }
    }

    method DeleteEntry(dir: nat, name: string, ghost p: Perm) returns (found: bool, it: Item)
      requires Is(p) && Inv(p) && Target(p, dir) in store
      modifies this`store
      ensures Is(Delete(p, dir, name)) && Inv(Delete(p, dir, name)) && Target(p, dir) in store
      ensures Named(p.store) ==> Lookup(store[Target(p, dir)], name) == None
      ensures found <==> Find(old(store)[Target(p, dir)], name) >= 0
      ensures found ==> it in old(store)[Target(p, dir)] && it.name == name
      ensures found && it.ptr != 0 ==> it.ptr in Delete(p, dir, name).held && it.ptr !in p.held
    {
      DeleteKeeps(p, dir, name);
      DeleteHands(p, dir, name);
      if Named(p.store) {
        DeleteForgets(p, dir, name, name);
      }
      found, it := TakeOut(dir, name, p);
    }

    method GarbageCollect(ghost p: Perm)
      requires Is(p) && Inv(p)
      modifies this
      ensures store == Drain(p.store, p.olds).store && garbageOld == p.news && garbageNew == []
      ensures garbageLastTime == old(garbageLastTime)
    {
      store := FreeAll(store, garbageOld, Referred(p));
      garbageOld, garbageNew := garbageNew, [];
    }

    /** `now` and `later` are what the clock shows at the two readings. */
    method RegisterGC(x: nat, now: nat, later: nat, ghost p: Perm)
      requires Is(p) && Inv(p) && (x == 0 || x in p.held) && p.last <= now
      modifies this
      ensures Is(Register(p, x, now, later)) && Inv(Register(p, x, now, later))
    {
      RegisterKeeps(p, x, now, later);
      garbageNew := garbageNew + [x];
      if now - garbageLastTime > GC_THRESHOLD {
        ghost var q := p.(news := p.news + [x], held := p.held - {x});
        RegisterReferred(p, x);
        GarbageCollect(q);
        garbageLastTime := later;
      }
    }
  }
}
