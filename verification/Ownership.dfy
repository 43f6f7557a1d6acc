/** Which worker owns an inode.  An owner exports an inode to the primary in a message, the primary
    forwards it to the new owner, the new owner imports it and notifies the primary, and the primary
    notifies the old owner.  Any number of workers and inodes take these steps in any order;
    messages from one worker to another arrive in the order they were sent.

    The source runs a step at once instead of sending a message when the primary talks to itself.
    Here it goes through a queue like any other, which only adds interleavings.

    Before it notifies the primary, the new owner runs a callback, and the callback may export the
    inode again (`Relay`).  Where each inode is does not depend on that; what the primary's owner map
    says does. */
module Ownership {

  type Ino = nat
  type Wid = nat
  type FdKey = (nat, nat)   // process, descriptor

  const PRIMARY: Wid := 0
  const UNKNOWN: int := -1

  /** The part of InMemInode that the protocol reads or changes. */
  datatype Inode = Inode(mng: int, fds: set<FdKey>, flag: bool)

  /** A worker's file manager: its inode map, its three sets of marks, and its descriptor table. */
  datatype Worker = Worker(inodes: map<Ino, Inode>, dirty: set<Ino>, unlinked: set<Ino>, ckpt: set<Ino>,
                           fdTable: map<FdKey, Ino>)

  datatype Exported = Exported(ino: Ino, inode: Inode, exporter: Wid, importer: Wid,
                               inDirty: bool, inUnlinked: bool, inCkpt: bool)

  /** The states of a reassignment, with what each message carries. */
  datatype Msg =
    | Request(exp: Exported)                              // kPrimaryRequestNewOwnerImport
    | Import(exp: Exported)                               // kNewOwnerImport
    | Imported(ino: Ino, exporter: Wid, importer: Wid)    // kPrimaryImportSuccessNotification
    | Finished(ino: Ino)                                  // kOldOwnerExportSuccessNotification

  /** Everything an inode is to its users, wherever it is. */
  datatype Whole = Whole(fds: set<FdKey>, flag: bool, dirty: bool, unlinked: bool, ckpt: bool)

  datatype Loc = Held(w: Wid) | Requested(w: Wid) | Importing(w: Wid)

  /** `up` and `down` are the queues from and to each worker; `owners` is the primary's owner map;
      `kept` its unsafe_reassigned_inodes.  The last three fields are auxiliary, no step takes a value
      from them: where each inode is, what it is as a whole, and which imports the primary has yet to
      hear of.  A new descriptor number is compared with those of all inodes in `whole`. */
  datatype World = World(
    workers: map<Wid, Worker>,
    up: map<Wid, seq<Msg>>,
    down: map<Wid, seq<Msg>>,
    owners: map<Ino, int>,
    kept: set<Ino>,
    loc: map<Ino, Loc>,
    whole: map<Ino, Whole>,
    waiting: set<Ino>)

  /** getInodeOwner: an inode not in the map belongs to the primary. */
  function OwnerOf(owners: map<Ino, int>, ino: Ino): (w: int)
  {
    if ino in owners then owners[ino] else PRIMARY
  }

  /** markInodeOwnershipUpdated */
  function MarkUpdated(owners: map<Ino, int>, ino: Ino, w: Wid): (r: map<Ino, int>)
    ensures OwnerOf(r, ino) == w && forall i :: i != ino ==> OwnerOf(r, i) == OwnerOf(owners, i)
  {
    if w == PRIMARY then owners - {ino} else owners[ino := w]
  }

  function WholeAt(k: Worker, ino: Ino): (r: Whole)
    requires ino in k.inodes
  {
    Whole(k.inodes[ino].fds, k.inodes[ino].flag, ino in k.dirty, ino in k.unlinked, ino in k.ckpt)
  }

  function WholeIn(e: Exported): (r: Whole)
  {
    Whole(e.inode.fds, e.inode.flag, e.inDirty, e.inUnlinked, e.inCkpt)
  }

  // ---------------------------------------------------------------- export and import

  /** exportInode: the inode leaves the worker's tables with its marks and descriptors. */
  function ExportInode(k: Worker, w: Wid, ino: Ino, to: Wid): (r: (Worker, Exported))
    requires ino in k.inodes
  {
    var n := k.inodes[ino];
    (Worker(k.inodes - {ino}, k.dirty - {ino}, k.unlinked - {ino}, k.ckpt - {ino}, k.fdTable - n.fds),
     Exported(ino, n.(mng := UNKNOWN), w, to, ino in k.dirty, ino in k.unlinked, ino in k.ckpt))
  }

  function If<T>(c: bool, s: set<T>, x: T): (r: set<T>)
  {
    if c then s + {x} else s
  }

  /** importInode.  An inode already in the map, and a descriptor already in the table, stay. */
  function ImportInode(k: Worker, e: Exported): (r: Worker)
  {
    Worker(if e.ino in k.inodes then k.inodes else k.inodes[e.ino := e.inode],
           If(e.inDirty, k.dirty, e.ino), If(e.inUnlinked, k.unlinked, e.ino), If(e.inCkpt, k.ckpt, e.ino),
           (map f | f in e.inode.fds :: e.ino) + k.fdTable)
  }

  /** A worker's tables agree: marks and descriptors are those of inodes it holds. */
  ghost predicate Tidy(k: Worker)
  {
    && k.dirty <= k.inodes.Keys && k.unlinked <= k.inodes.Keys && k.ckpt <= k.inodes.Keys
    && (forall ino :: ino in k.dirty ==> ino in k.inodes && k.inodes[ino].flag)
    && (forall f :: f in k.fdTable ==> k.fdTable[f] in k.inodes && f in k.inodes[k.fdTable[f]].fds)
    && (forall ino :: ino in k.inodes ==> forall f :: f in k.inodes[ino].fds ==> f in k.fdTable && k.fdTable[f] == ino)
  }

  /** Importing what was exported restores the worker: nothing of the inode is lost on the way. */
  lemma ExportImportRoundTrip(k: Worker, w: Wid, ino: Ino, to: Wid)
    requires Tidy(k) && ino in k.inodes && k.inodes[ino].mng == w
    ensures var (k', e) := ExportInode(k, w, ino, to);
      && Tidy(k') && ino !in k'.inodes && WholeIn(e) == WholeAt(k, ino)
      && (forall f :: f in k'.fdTable ==> k'.fdTable[f] != ino)
      && ImportInode(k', e.(inode := e.inode.(mng := w))) == k
  {
    var (k', e) := ExportInode(k, w, ino, to);
    var r := ImportInode(k', e.(inode := e.inode.(mng := w)));
    assert r.inodes == k.inodes;
    assert r.dirty == k.dirty && r.unlinked == k.unlinked && r.ckpt == k.ckpt;
    assert r.fdTable == k.fdTable;
  }

  lemma ImportTidy(k: Worker, e: Exported)
    requires Tidy(k) && e.ino !in k.inodes && (e.inDirty ==> e.inode.flag)
    requires forall ino :: ino in k.inodes ==> k.inodes[ino].fds !! e.inode.fds
    ensures var r := ImportInode(k, e);
      && Tidy(r) && r.inodes == k.inodes[e.ino := e.inode] && WholeAt(r, e.ino) == WholeIn(e)
      && (forall ino :: ino in k.inodes ==> WholeAt(r, ino) == WholeAt(k, ino))
  {
  }

  // ---------------------------------------------------------------- steps

  datatype Step =
    | Export(w: Wid, ino: Ino, to: Wid)
    | PrimaryRecv(from: Wid)
    | WorkerRecv(at: Wid)
    | Relay(at: Wid, to: Wid)
    | Open(w: Wid, ino: Ino, f: FdKey)
    | Close(w: Wid, f: FdKey)
    | Mark(w: Wid, ino: Ino, flag: bool, d: bool, u: bool, c: bool)

  /** A worker exports, opens and marks inodes of its own map; a descriptor number is new to its
      process; an inode goes into the dirty set only with its dirty flag set.  In a relay the callback
      of an import exports the inode again. */
  ghost predicate Enabled(s: World, step: Step)
  {
    match step
    case Export(w, ino, to) => w in s.workers && ino in s.workers[w].inodes && to in s.workers && to != w && w in s.up
    case PrimaryRecv(w) => w in s.up && s.up[w] != [] && (s.up[w][0].Request? ==> s.up[w][0].exp.importer in s.down)
                           && (s.up[w][0].Imported? ==> s.up[w][0].exporter in s.down)
    case WorkerRecv(w) => w in s.down && s.down[w] != [] && w in s.workers && w in s.up
    case Relay(w, to) => w in s.down && s.down[w] != [] && s.down[w][0].Import? && w in s.workers && w in s.up
                         && to in s.workers && to != w
    case Open(w, ino, f) => w in s.workers && ino in s.workers[w].inodes && ino in s.whole
                            && (forall i :: i in s.whole ==> f !in s.whole[i].fds)
    case Close(w, f) => w in s.workers && f in s.workers[w].fdTable
                        && s.workers[w].fdTable[f] in s.workers[w].inodes && s.workers[w].fdTable[f] in s.whole
    case Mark(w, ino, flag, d, u, c) => w in s.workers && ino in s.workers[w].inodes && ino in s.whole && (d ==> flag)
  }

  function Put<T>(c: bool, s: set<T>, x: T): (r: set<T>)
  {
    if c then s + {x} else s - {x}
  }

  function Assign(e: Exported): (r: Exported)
  {
    e.(inode := e.inode.(mng := e.importer))
  }

  /** The export of an inode, and the import at the head of a worker's queue. */
  ghost function Exports(s: World, w: Wid, ino: Ino, to: Wid): (s': World)
    requires w in s.workers && w in s.up && ino in s.workers[w].inodes
  {
    var (k, e) := ExportInode(s.workers[w], w, ino, to);
    s.(workers := s.workers[w := k], up := s.up[w := s.up[w] + [Request(e)]],
       kept := if w == PRIMARY then s.kept + {ino} else s.kept,
       loc := s.loc[ino := Requested(w)])
  }

  ghost predicate CanImport(s: World, w: Wid)
  {
    w in s.down && s.down[w] != [] && w in s.workers && w in s.up && s.down[w][0].Import?
  }

  ghost function Imports(s: World, w: Wid): (s': World)
    requires CanImport(s, w)
  {
    var e := s.down[w][0].exp;
    s.(down := s.down[w := s.down[w][1..]], workers := s.workers[w := ImportInode(s.workers[w], e)],
       up := s.up[w := s.up[w] + [Imported(e.ino, e.exporter, w)]],
       kept := if w == PRIMARY then s.kept - {e.ino} else s.kept,
       loc := s.loc[e.ino := Held(w)], waiting := s.waiting + {e.ino})
  }

  /** The old owner is told that its export is done. */
  ghost predicate CanDrop(s: World, w: Wid)
  {
    w in s.down && s.down[w] != [] && w in s.workers && w in s.up && s.down[w][0].Finished?
  }

  ghost function Drops(s: World, w: Wid): (s': World)
    requires w in s.down && s.down[w] != []
  {
    s.(down := s.down[w := s.down[w][1..]])
  }

  /** The primary forwards an export, or hears of an import. */
  ghost predicate CanForward(s: World, w: Wid)
  {
    w in s.up && s.up[w] != [] && s.up[w][0].Request? && s.up[w][0].exp.importer in s.down
  }

  ghost function Forwards(s: World, w: Wid): (s': World)
    requires CanForward(s, w)
  {
    var e := s.up[w][0].exp;
    s.(up := s.up[w := s.up[w][1..]], owners := s.owners[e.ino := UNKNOWN],
       down := s.down[e.importer := s.down[e.importer] + [Import(Assign(e))]],
       loc := s.loc[e.ino := Importing(e.importer)])
  }

  ghost predicate CanHear(s: World, w: Wid)
  {
    w in s.up && s.up[w] != [] && s.up[w][0].Imported? && s.up[w][0].exporter in s.down
  }

  ghost function Hears(s: World, w: Wid): (s': World)
    requires CanHear(s, w)
  {
    var Imported(ino, ex, im) := s.up[w][0];
    s.(up := s.up[w := s.up[w][1..]], owners := MarkUpdated(s.owners, ino, im),
       down := s.down[ex := s.down[ex] + [Finished(ino)]],
       waiting := s.waiting - {ino})
  }

  /** The last two messages to the primary, the news and the export, in the other order. */
  function Swapped(q: seq<Msg>): (r: seq<Msg>)
  {
    if |q| < 2 then q else q[..|q| - 2] + [q[|q| - 1], q[|q| - 2]]
  }

  ghost function Next(s: World, step: Step): (s': World)
    requires Enabled(s, step)
  {
    match step
    case Export(w, ino, to) => Exports(s, w, ino, to)
    case PrimaryRecv(w) =>
      if s.up[w][0].Request? then Forwards(s, w)
      else if s.up[w][0].Imported? then Hears(s, w)
      else s.(up := s.up[w := s.up[w][1..]])
    case WorkerRecv(w) =>
      if s.down[w][0].Import? then Imports(s, w) else Drops(s, w)
    case Relay(w, to) =>
      var s2 := Exports(Imports(s, w), w, About(s.down[w][0]), to);
      s2.(up := s2.up[w := Swapped(s2.up[w])])
    case Open(w, ino, f) =>
      s.(workers := s.workers[w := Opened(s.workers[w], ino, f)],
         whole := s.whole[ino := s.whole[ino].(fds := s.whole[ino].fds + {f})])
    case Close(w, f) =>
      var ino := s.workers[w].fdTable[f];
      s.(workers := s.workers[w := Closed(s.workers[w], f)],
         whole := s.whole[ino := s.whole[ino].(fds := s.whole[ino].fds - {f})])
    case Mark(w, ino, flag, d, u, c) =>
      s.(workers := s.workers[w := Marked(s.workers[w], ino, flag, d, u, c)],
         whole := s.whole[ino := Whole(s.whole[ino].fds, flag, d, u, c)])
  }

  // ---------------------------------------------------------------- what holds in every state

  ghost predicate Workers(s: World)
  {
    && PRIMARY in s.workers && s.up.Keys == s.workers.Keys && s.down.Keys == s.workers.Keys
    && s.loc.Keys == s.whole.Keys
    && (forall w :: w in s.workers ==> Tidy(s.workers[w]))
  }

  /** A held inode names its holder, and is there as a whole. */
  ghost predicate Holds(s: World, w: Wid, ino: Ino)
    requires w in s.workers && ino in s.workers[w].inodes
  {
    && ino in s.loc && s.loc[ino] == Held(w) && ino in s.whole
    && s.workers[w].inodes[ino].mng == w && s.whole[ino] == WholeAt(s.workers[w], ino)
  }

  /** An inode is in a worker's map exactly when that worker holds it. */
  ghost predicate HeldOk(s: World)
  {
    && (forall w, ino :: w in s.workers && ino in s.workers[w].inodes ==> Holds(s, w, ino))
    && (forall ino :: ino in s.loc && s.loc[ino].Held? ==>
          s.loc[ino].w in s.workers && ino in s.workers[s.loc[ino].w].inodes)
  }

  /** No descriptor belongs to two inodes. */
  ghost predicate FdsDisjoint(whole: map<Ino, Whole>)
  {
    forall a, b :: a in whole && b in whole && a != b ==> whole[a].fds !! whole[b].fds
  }

  /** A message to the primary: the one export of an inode its worker no longer holds, or the news
      of an import at its worker. */
  ghost predicate UpMsg(s: World, w: Wid, m: Msg)
  {
    match m
    case Request(e) =>
      && e.ino in s.loc && s.loc[e.ino] == Requested(w) && e.ino in s.whole && s.whole[e.ino] == WholeIn(e)
      && e.exporter == w && e.importer in s.workers && e.inode.mng == UNKNOWN && (e.inDirty ==> e.inode.flag)
    case Imported(ino, ex, im) =>
      im == w && ex in s.workers
    case _ => false
  }

  ghost predicate DownMsg(s: World, w: Wid, m: Msg)
  {
    match m
    case Import(e) =>
      && e.ino in s.loc && s.loc[e.ino] == Importing(w) && e.ino in s.whole && s.whole[e.ino] == WholeIn(e)
      && e.exporter in s.workers && e.inode.mng == w && (e.inDirty ==> e.inode.flag)
    case Finished(_) => true
    case _ => false
  }

  function About(m: Msg): (ino: Ino)
  {
    match m case Request(e) => e.ino case Import(e) => e.ino case Imported(ino, _, _) => ino case Finished(ino) => ino
  }

  ghost predicate UpOrder(q: seq<Msg>)
  {
    forall i, j :: 0 <= i < j < |q| && q[i].Request? && q[j].Request? ==> About(q[i]) != About(q[j])
  }

  ghost predicate DownOrder(q: seq<Msg>)
  {
    forall i, j :: 0 <= i < j < |q| && q[i].Import? && q[j].Import? ==> About(q[i]) != About(q[j])
  }

  ghost predicate HasRequest(q: seq<Msg>, ino: Ino)
  {
    exists i :: 0 <= i < |q| && q[i].Request? && About(q[i]) == ino
  }

  ghost predicate HasImported(q: seq<Msg>, ino: Ino)
  {
    exists i :: 0 <= i < |q| && q[i].Imported? && About(q[i]) == ino
  }

  ghost predicate HasImport(q: seq<Msg>, ino: Ino)
  {
    exists i :: 0 <= i < |q| && q[i].Import? && About(q[i]) == ino
  }

  ghost predicate UpOk(s: World)
  {
    forall w :: w in s.up ==> UpOrder(s.up[w]) && forall i :: 0 <= i < |s.up[w]| ==> UpMsg(s, w, s.up[w][i])
  }

  ghost predicate DownOk(s: World)
  {
    forall w :: w in s.down ==> DownOrder(s.down[w]) && forall i :: 0 <= i < |s.down[w]| ==> DownMsg(s, w, s.down[w][i])
  }

  /** An inode that nobody holds is in a message, at the place where it is said to be. */
  ghost predicate RequestedOk(s: World)
  {
    forall ino :: ino in s.loc && s.loc[ino].Requested? ==> s.loc[ino].w in s.up && HasRequest(s.up[s.loc[ino].w], ino)
  }

  ghost predicate ImportingOk(s: World)
  {
    forall ino :: ino in s.loc && s.loc[ino].Importing? ==>
      s.loc[ino].w in s.down && HasImport(s.down[s.loc[ino].w], ino)
  }

  ghost predicate InFlight(s: World)
  {
    RequestedOk(s) && ImportingOk(s)
  }

  ghost predicate KeptOk(s: World)
  {
    forall ino :: ino in s.loc ==> (ino in s.kept <==> s.loc[ino] != Held(PRIMARY))
  }

  ghost predicate Inv(s: World)
  {
    Workers(s) && HeldOk(s) && FdsDisjoint(s.whole) && UpOk(s) && DownOk(s) && InFlight(s) && KeptOk(s)
  }

  // ---------------------------------------------------------------- export

  lemma ExportOthers(k: Worker, w: Wid, ino: Ino, to: Wid)
    requires ino in k.inodes
    ensures var k' := ExportInode(k, w, ino, to).0;
      forall x :: x in k'.inodes ==>
        x in k.inodes && x != ino && k'.inodes[x] == k.inodes[x] && WholeAt(k', x) == WholeAt(k, x)
  {
  }

  lemma ExportHeld(s: World, w: Wid, ino: Ino, to: Wid)
    requires HeldOk(s) && Enabled(s, Export(w, ino, to))
    ensures HeldOk(Exports(s, w, ino, to))
  {
    assert Holds(s, w, ino);
    ExportOthers(s.workers[w], w, ino, to);
    var s' := Exports(s, w, ino, to);
    forall v, x | v in s'.workers && x in s'.workers[v].inodes ensures Holds(s', v, x) {
      assert Holds(s, v, x);
    }
    forall x | x in s'.loc && s'.loc[x].Held? ensures s'.loc[x].w in s'.workers && x in s'.workers[s'.loc[x].w].inodes {
      assert x != ino;
    }
  }

  lemma ExportTidy(k: Worker, w: Wid, ino: Ino, to: Wid)
    requires Tidy(k) && ino in k.inodes && k.inodes[ino].mng == w
    ensures Tidy(ExportInode(k, w, ino, to).0)
  {
    ExportImportRoundTrip(k, w, ino, to);
  }

  lemma WorkersUpdate(s: World, s': World, w: Wid, k: Worker)
    requires Workers(s) && w in s.workers && Tidy(k) && s'.workers == s.workers[w := k]
    requires s'.up.Keys == s.up.Keys && s'.down.Keys == s.down.Keys
    requires s'.loc.Keys == s.loc.Keys && s'.whole == s.whole
    ensures Workers(s')
  {
  }

  lemma ExportWorkers(s: World, w: Wid, ino: Ino, to: Wid)
    requires w in s.workers && ino in s.workers[w].inodes && Holds(s, w, ino)
    requires Workers(s) && Enabled(s, Export(w, ino, to))
    ensures Workers(Exports(s, w, ino, to))
  {
    ExportTidy(s.workers[w], w, ino, to);
    WorkersUpdate(s, Exports(s, w, ino, to), w, ExportInode(s.workers[w], w, ino, to).0);
  }

  lemma ExportUp(s: World, w: Wid, ino: Ino, to: Wid)
    requires w in s.workers && Tidy(s.workers[w]) && ino in s.workers[w].inodes && Holds(s, w, ino)
    requires UpOk(s) && Enabled(s, Export(w, ino, to))
    ensures UpOk(Exports(s, w, ino, to))
  {
    ExportImportRoundTrip(s.workers[w], w, ino, to);
    var s' := Exports(s, w, ino, to);
    forall v | v in s'.up
      ensures UpOrder(s'.up[v]) && forall i :: 0 <= i < |s'.up[v]| ==> UpMsg(s', v, s'.up[v][i])
    {
      forall i | 0 <= i < |s.up[v]|
        ensures UpMsg(s', v, s.up[v][i]) && (About(s.up[v][i]) == ino ==> !s.up[v][i].Request?)
      {
        assert UpMsg(s, v, s.up[v][i]);
      }
    }
  }

  lemma ExportDown(s: World, w: Wid, ino: Ino, to: Wid)
    requires w in s.workers && ino in s.workers[w].inodes && Holds(s, w, ino)
    requires DownOk(s) && KeptOk(s) && Enabled(s, Export(w, ino, to))
    ensures var s' := Exports(s, w, ino, to); DownOk(s') && KeptOk(s')
  {
    var s' := Exports(s, w, ino, to);
    forall v, i | v in s'.down && 0 <= i < |s'.down[v]| ensures DownMsg(s', v, s'.down[v][i]) {
      assert DownMsg(s, v, s.down[v][i]);
    }
  }

  lemma ExportInFlight(s: World, w: Wid, ino: Ino, to: Wid)
    requires w in s.workers && ino in s.workers[w].inodes && Holds(s, w, ino) && InFlight(s)
    requires Enabled(s, Export(w, ino, to))
    ensures InFlight(Exports(s, w, ino, to))
  {
    AppendHas(s.up[w], Request(ExportInode(s.workers[w], w, ino, to).1));
  }

  lemma ExportKeeps(s: World, w: Wid, ino: Ino, to: Wid)
    requires Inv(s) && Enabled(s, Export(w, ino, to))
    ensures Inv(Exports(s, w, ino, to))
  {
    assert Holds(s, w, ino);
    ExportHeld(s, w, ino, to);
    ExportWorkers(s, w, ino, to);
    ExportUp(s, w, ino, to);
    ExportDown(s, w, ino, to);
    ExportInFlight(s, w, ino, to);
  }

  lemma AppendHas(q: seq<Msg>, m: Msg)
    ensures forall x :: HasRequest(q, x) ==> HasRequest(q + [m], x)
    ensures forall x :: HasImported(q, x) ==> HasImported(q + [m], x)
    ensures forall x :: HasImport(q, x) ==> HasImport(q + [m], x)
    ensures m.Request? ==> HasRequest(q + [m], About(m))
    ensures m.Imported? ==> HasImported(q + [m], About(m))
    ensures m.Import? ==> HasImport(q + [m], About(m))
  {
    var r := q + [m];
    assert r[|q|] == m && forall i :: 0 <= i < |q| ==> r[i] == q[i];
  }

  lemma PopHas(q: seq<Msg>)
    requires q != []
    ensures forall x :: HasRequest(q, x) ==> HasRequest(q[1..], x) || (q[0].Request? && About(q[0]) == x)
    ensures forall x :: HasImported(q, x) ==> HasImported(q[1..], x) || (q[0].Imported? && About(q[0]) == x)
    ensures forall x :: HasImport(q, x) ==> HasImport(q[1..], x) || (q[0].Import? && About(q[0]) == x)
  {
    var r := q[1..];
    assert forall i :: 1 <= i < |q| ==> q[i] == r[i - 1];
  }

  // ---------------------------------------------------------------- the primary receives

  /** The two states know the same about every inode but one. */
  ghost predicate SameBut(s: World, s': World, ino: Ino)
  {
    && s'.workers.Keys == s.workers.Keys
    && (forall x :: x != ino ==> (x in s.loc <==> x in s'.loc) && (x in s.loc ==> s'.loc[x] == s.loc[x]))
    && (forall x :: x != ino ==> (x in s.whole <==> x in s'.whole) && (x in s.whole ==> s'.whole[x] == s.whole[x]))
  }

  lemma UpMsgSame(s: World, s': World, ino: Ino, v: Wid, m: Msg)
    requires SameBut(s, s', ino) && UpMsg(s, v, m) && (m.Request? ==> About(m) != ino)
    ensures UpMsg(s', v, m)
  {
  }

  lemma DownMsgSame(s: World, s': World, ino: Ino, v: Wid, m: Msg)
    requires SameBut(s, s', ino) && DownMsg(s, v, m) && (m.Import? ==> About(m) != ino)
    ensures DownMsg(s', v, m)
  {
  }

  lemma OrderPop(q: seq<Msg>)
    requires q != []
    ensures UpOrder(q) ==> UpOrder(q[1..])
    ensures DownOrder(q) ==> DownOrder(q[1..])
    ensures UpOrder(q) ==>
      forall i :: 0 <= i < |q[1..]| && q[0].Request? && q[1..][i].Request? ==> About(q[1..][i]) != About(q[0])
    ensures DownOrder(q) ==>
      forall i :: 0 <= i < |q[1..]| && q[0].Import? && q[1..][i].Import? ==> About(q[1..][i]) != About(q[0])
  {
    var r := q[1..];
    assert forall i :: 0 <= i < |r| ==> r[i] == q[i + 1];
  }

  lemma RequestUp(s: World, w: Wid)
    requires UpOk(s) && CanForward(s, w)
    ensures UpOk(Forwards(s, w))
  {
    var s' := Forwards(s, w);
    var ino := About(s.up[w][0]);
    assert UpMsg(s, w, s.up[w][0]);
    OrderPop(s.up[w]);
    forall v | v in s'.up
      ensures UpOrder(s'.up[v]) && forall i :: 0 <= i < |s'.up[v]| ==> UpMsg(s', v, s'.up[v][i])
    {
      forall i | 0 <= i < |s'.up[v]| ensures UpMsg(s', v, s'.up[v][i]) {
        var m := s'.up[v][i];
        assert UpMsg(s, v, m) by {
          assert if v == w then m == s.up[v][i + 1] else m == s.up[v][i];
        }
        UpMsgSame(s, s', ino, v, m);
      }
    }
  }

  lemma RequestDownMsg(s: World, w: Wid, v: Wid, i: nat)
    requires UpOk(s) && DownOk(s) && CanForward(s, w)
    requires v in s.down && i < |s.down[v]|
    ensures DownMsg(Forwards(s, w), v, s.down[v][i])
    ensures s.down[v][i].Import? ==> About(s.down[v][i]) != s.up[w][0].exp.ino
  {
    assert UpMsg(s, w, s.up[w][0]);
    assert DownMsg(s, v, s.down[v][i]);
    DownMsgSame(s, Forwards(s, w), s.up[w][0].exp.ino, v, s.down[v][i]);
  }

  lemma RequestDown(s: World, w: Wid)
    requires Workers(s) && UpOk(s) && DownOk(s) && CanForward(s, w)
    ensures DownOk(Forwards(s, w))
  {
    var s' := Forwards(s, w);
    var e := s.up[w][0].exp;
    assert UpMsg(s, w, s.up[w][0]);
    assert DownMsg(s', e.importer, Import(Assign(e)));
    forall v | v in s'.down
      ensures DownOrder(s'.down[v]) && forall i :: 0 <= i < |s'.down[v]| ==> DownMsg(s', v, s'.down[v][i])
    {
      forall i | 0 <= i < |s.down[v]|
        ensures DownMsg(s', v, s.down[v][i]) && (s.down[v][i].Import? ==> About(s.down[v][i]) != e.ino)
      {
        RequestDownMsg(s, w, v, i);
      }
      if v == e.importer {
        OrderAppend(s.down[v], Import(Assign(e)));
        assert s'.down[v] == s.down[v] + [Import(Assign(e))];
      } else {
        assert s'.down[v] == s.down[v];
      }
    }
  }

  lemma OrderAppend(q: seq<Msg>, m: Msg)
    requires DownOrder(q) && m.Import? && forall i :: 0 <= i < |q| && q[i].Import? ==> About(q[i]) != About(m)
    ensures DownOrder(q + [m])
  {
  }

  lemma RequestRequested(s: World, w: Wid)
    requires UpOk(s) && RequestedOk(s) && CanForward(s, w)
    ensures RequestedOk(Forwards(s, w))
  {
    assert UpMsg(s, w, s.up[w][0]);
    PopHas(s.up[w]);
  }

  lemma RequestImporting(s: World, w: Wid)
    requires Workers(s) && UpOk(s) && ImportingOk(s) && CanForward(s, w)
    ensures ImportingOk(Forwards(s, w))
  {
    var s' := Forwards(s, w);
    var e := s.up[w][0].exp;
    assert UpMsg(s, w, s.up[w][0]);
    AppendHas(s.down[e.importer], Import(Assign(e)));
    forall x | x in s'.loc && s'.loc[x].Importing?
      ensures s'.loc[x].w in s'.down && HasImport(s'.down[s'.loc[x].w], x)
    {
      if x != e.ino {
        assert HasImport(s.down[s.loc[x].w], x);
      }
    }
  }

  lemma RequestWorkers(s: World, w: Wid)
    requires Workers(s) && UpOk(s) && CanForward(s, w)
    ensures Workers(Forwards(s, w))
  {
    assert UpMsg(s, w, s.up[w][0]);
  }

  lemma RequestHeld(s: World, w: Wid)
    requires HeldOk(s) && UpOk(s) && CanForward(s, w)
    ensures HeldOk(Forwards(s, w))
  {
    var s' := Forwards(s, w);
    assert UpMsg(s, w, s.up[w][0]);
    forall v, x | v in s'.workers && x in s'.workers[v].inodes ensures Holds(s', v, x) {
      assert Holds(s, v, x);
    }
  }

  lemma RequestRest(s: World, w: Wid)
    requires FdsDisjoint(s.whole) && KeptOk(s) && UpOk(s) && CanForward(s, w)
    ensures var s' := Forwards(s, w); FdsDisjoint(s'.whole) && KeptOk(s')
  {
    assert UpMsg(s, w, s.up[w][0]);
  }

  lemma RequestKeeps(s: World, w: Wid)
    requires Inv(s) && CanForward(s, w)
    ensures Inv(Forwards(s, w))
  {
    RequestUp(s, w);
    RequestDown(s, w);
    RequestRequested(s, w);
    RequestImporting(s, w);
    RequestWorkers(s, w);
    RequestHeld(s, w);
    RequestRest(s, w);
  }

  lemma ImportedUp(s: World, w: Wid)
    requires UpOk(s) && CanHear(s, w)
    ensures UpOk(Hears(s, w))
  {
    var s' := Hears(s, w);
    var ino := About(s.up[w][0]);
    assert UpMsg(s, w, s.up[w][0]);
    OrderPop(s.up[w]);
    forall v | v in s'.up
      ensures UpOrder(s'.up[v]) && forall i :: 0 <= i < |s'.up[v]| ==> UpMsg(s', v, s'.up[v][i])
    {
      forall i | 0 <= i < |s'.up[v]| ensures UpMsg(s', v, s'.up[v][i]) {
        var m := s'.up[v][i];
        assert UpMsg(s, v, m) by {
          assert if v == w then m == s.up[v][i + 1] else m == s.up[v][i];
        }
      }
    }
  }

  lemma ImportedDown(s: World, w: Wid)
    requires DownOk(s) && CanHear(s, w)
    ensures DownOk(Hears(s, w))
  {
    var s' := Hears(s, w);
    forall v | v in s'.down
      ensures DownOrder(s'.down[v]) && forall i :: 0 <= i < |s'.down[v]| ==> DownMsg(s', v, s'.down[v][i])
    {
      forall i | 0 <= i < |s.down[v]| ensures DownMsg(s', v, s.down[v][i]) {
        assert DownMsg(s, v, s.down[v][i]);
      }
    }
  }

  lemma ImportedTravels(s: World, w: Wid)
    requires Workers(s) && RequestedOk(s) && ImportingOk(s) && CanHear(s, w)
    ensures var s' := Hears(s, w); RequestedOk(s') && ImportingOk(s')
  {
    var m := s.up[w][0];
    PopHas(s.up[w]);
    AppendHas(s.down[m.exporter], Finished(m.ino));
  }

  lemma ImportedRest(s: World, w: Wid)
    requires FdsDisjoint(s.whole) && KeptOk(s) && UpOk(s) && CanHear(s, w)
    ensures var s' := Hears(s, w); FdsDisjoint(s'.whole) && KeptOk(s')
  {
    assert UpMsg(s, w, s.up[w][0]);
  }

  lemma ImportedHeld(s: World, w: Wid)
    requires Workers(s) && HeldOk(s) && CanHear(s, w)
    ensures var s' := Hears(s, w); Workers(s') && HeldOk(s')
  {
    var s' := Hears(s, w);
    forall v, x | v in s'.workers && x in s'.workers[v].inodes ensures Holds(s', v, x) {
      assert Holds(s, v, x);
    }
  }

  lemma ImportedKeeps(s: World, w: Wid)
    requires Inv(s) && CanHear(s, w)
    ensures Inv(Hears(s, w))
  {
    ImportedUp(s, w);
    ImportedDown(s, w);
    ImportedTravels(s, w);
    ImportedHeld(s, w);
    ImportedRest(s, w);
  }

  // ---------------------------------------------------------------- a worker receives

  lemma ImportFds(s: World, w: Wid)
    requires Workers(s) && HeldOk(s) && FdsDisjoint(s.whole) && DownOk(s) && CanImport(s, w)
    ensures var e := s.down[w][0].exp; var k := s.workers[w];
      && e.ino !in k.inodes && (e.inDirty ==> e.inode.flag)
      && (forall x :: x in k.inodes ==> k.inodes[x].fds !! e.inode.fds)
  {
    var e := s.down[w][0].exp;
    assert DownMsg(s, w, s.down[w][0]);
    forall x | x in s.workers[w].inodes ensures s.workers[w].inodes[x].fds !! e.inode.fds {
      assert Holds(s, w, x);
    }
  }

  /** What the head of a worker's queue brings when it is an import. */
  ghost predicate Arrives(s: World, w: Wid)
  {
    && w in s.workers && w in s.up && w in s.down
    && s.down[w] != [] && s.down[w][0].Import? && DownMsg(s, w, s.down[w][0])
    && var e := s.down[w][0].exp; var k := s.workers[w];
      e.ino !in k.inodes && (forall x :: x in k.inodes ==> k.inodes[x].fds !! e.inode.fds)
  }

  lemma ImportWorkers(s: World, w: Wid)
    requires Workers(s) && Arrives(s, w)
    ensures Workers(Imports(s, w))
  {
    ImportTidy(s.workers[w], s.down[w][0].exp);
  }

  lemma ImportHeld(s: World, w: Wid)
    requires HeldOk(s) && Arrives(s, w) && Tidy(s.workers[w])
    ensures HeldOk(Imports(s, w))
  {
    var s' := Imports(s, w);
    var e := s.down[w][0].exp;
    ImportTidy(s.workers[w], e);
    forall v, x | v in s'.workers && x in s'.workers[v].inodes ensures Holds(s', v, x) {
      if x in s.workers[v].inodes {
        assert Holds(s, v, x);
      }
    }
    forall x | x in s'.loc && s'.loc[x].Held? ensures s'.loc[x].w in s'.workers && x in s'.workers[s'.loc[x].w].inodes {
      if x != e.ino {
        assert x in s.workers[s.loc[x].w].inodes;
      }
    }
  }

  lemma ImportUp(s: World, w: Wid)
    requires UpOk(s) && Arrives(s, w)
    ensures UpOk(Imports(s, w))
  {
    var s' := Imports(s, w);
    var e := s.down[w][0].exp;
    assert SameBut(s, s', e.ino);
    forall v | v in s'.up
      ensures UpOrder(s'.up[v]) && forall i :: 0 <= i < |s'.up[v]| ==> UpMsg(s', v, s'.up[v][i])
    {
      forall i | 0 <= i < |s.up[v]| ensures UpMsg(s', v, s.up[v][i]) {
        assert UpMsg(s, v, s.up[v][i]);
        UpMsgSame(s, s', e.ino, v, s.up[v][i]);
      }
      assert v == w ==> UpMsg(s', w, Imported(e.ino, e.exporter, w));
    }
  }

  lemma ImportDown(s: World, w: Wid)
    requires DownOk(s) && CanImport(s, w)
    ensures DownOk(Imports(s, w))
  {
    var s' := Imports(s, w);
    var e := s.down[w][0].exp;
    assert DownMsg(s, w, s.down[w][0]);
    OrderPop(s.down[w]);
    forall v | v in s'.down
      ensures DownOrder(s'.down[v]) && forall i :: 0 <= i < |s'.down[v]| ==> DownMsg(s', v, s'.down[v][i])
    {
      forall i | 0 <= i < |s'.down[v]| ensures DownMsg(s', v, s'.down[v][i]) {
        var m := s'.down[v][i];
        assert DownMsg(s, v, m) by {
          assert if v == w then m == s.down[v][i + 1] else m == s.down[v][i];
        }
        DownMsgSame(s, s', e.ino, v, m);
      }
    }
  }

  lemma ImportInFlight(s: World, w: Wid)
    requires Arrives(s, w) && InFlight(s) && s.up.Keys == s.workers.Keys && s.down.Keys == s.workers.Keys
    ensures InFlight(Imports(s, w))
  {
    var s' := Imports(s, w);
    var e := s.down[w][0].exp;
    PopHas(s.down[w]);
    AppendHas(s.up[w], Imported(e.ino, e.exporter, w));
    forall x | x in s'.loc && s'.loc[x].Importing?
      ensures s'.loc[x].w in s'.down && HasImport(s'.down[s'.loc[x].w], x)
    {
      assert HasImport(s.down[s.loc[x].w], x);
    }
    forall x | x in s'.loc && s'.loc[x].Requested? ensures s'.loc[x].w in s'.up && HasRequest(s'.up[s'.loc[x].w], x) {
      assert HasRequest(s.up[s.loc[x].w], x);
    }
  }

  lemma ImportKept(s: World, w: Wid)
    requires DownOk(s) && KeptOk(s) && CanImport(s, w)
    ensures KeptOk(Imports(s, w))
  {
    assert DownMsg(s, w, s.down[w][0]);
  }

  lemma ImportKeeps(s: World, w: Wid)
    requires Inv(s) && CanImport(s, w)
    ensures Inv(Imports(s, w))
  {
    ImportFds(s, w);
    assert DownMsg(s, w, s.down[w][0]);
    assert Arrives(s, w);
    ImportWorkers(s, w);
    ImportHeld(s, w);
    ImportUp(s, w);
    ImportDown(s, w);
    ImportInFlight(s, w);
    ImportKept(s, w);
  }

  lemma FinishedQueues(s: World, w: Wid)
    requires UpOk(s) && DownOk(s) && CanDrop(s, w)
    ensures UpOk(Drops(s, w)) && DownOk(Drops(s, w))
  {
    var s' := Drops(s, w);
    OrderPop(s.down[w]);
    forall v, i | v in s'.up && 0 <= i < |s'.up[v]| ensures UpMsg(s', v, s'.up[v][i]) {
      assert UpMsg(s, v, s.up[v][i]);
    }
    forall v, i | v in s'.down && 0 <= i < |s'.down[v]| ensures DownMsg(s', v, s'.down[v][i]) {
      assert DownMsg(s, v, if v == w then s.down[v][i + 1] else s.down[v][i]);
    }
  }

  lemma FinishedInFlight(s: World, w: Wid)
    requires InFlight(s) && CanDrop(s, w)
    ensures InFlight(Drops(s, w))
  {
    PopHas(s.down[w]);
  }

  lemma FinishedHeld(s: World, w: Wid)
    requires Workers(s) && HeldOk(s) && CanDrop(s, w)
    ensures var s' := Drops(s, w); Workers(s') && HeldOk(s')
  {
    var s' := Drops(s, w);
    forall v, x | v in s'.workers && x in s'.workers[v].inodes ensures Holds(s', v, x) {
      assert Holds(s, v, x);
    }
  }

  lemma FinishedRest(s: World, w: Wid)
    requires FdsDisjoint(s.whole) && KeptOk(s) && CanDrop(s, w)
    ensures var s' := Drops(s, w); FdsDisjoint(s'.whole) && KeptOk(s')
  {
  }

  lemma FinishedKeeps(s: World, w: Wid)
    requires Inv(s) && CanDrop(s, w)
    ensures Inv(Drops(s, w))
  {
    FinishedQueues(s, w);
    FinishedInFlight(s, w);
    FinishedHeld(s, w);
    FinishedRest(s, w);
  }

  // ---------------------------------------------------------------- the holder works on its inode

  /** Worker w changes one inode it holds and nothing else. */
  ghost predicate Local(s: World, s': World, w: Wid, ino: Ino)
  {
    && w in s.workers && w in s'.workers && ino in s.workers[w].inodes && ino in s'.workers[w].inodes
    && s' == s.(workers := s.workers[w := s'.workers[w]], whole := s.whole[ino := WholeAt(s'.workers[w], ino)])
    && s'.workers[w].inodes.Keys == s.workers[w].inodes.Keys
    && s'.workers[w].inodes[ino].mng == s.workers[w].inodes[ino].mng
    && (forall x :: x in s.workers[w].inodes && x != ino ==>
          s'.workers[w].inodes[x] == s.workers[w].inodes[x] && WholeAt(s'.workers[w], x) == WholeAt(s.workers[w], x))
  }

  lemma LocalWorkers(s: World, s': World, w: Wid, ino: Ino)
    requires Workers(s) && Local(s, s', w, ino) && Holds(s, w, ino) && Tidy(s'.workers[w])
    ensures Workers(s')
  {
    assert s'.whole.Keys == s.whole.Keys;
  }

  lemma LocalHeld(s: World, s': World, w: Wid, ino: Ino)
    requires HeldOk(s) && Local(s, s', w, ino) && Holds(s, w, ino)
    ensures HeldOk(s')
  {
    forall v, x | v in s'.workers && x in s'.workers[v].inodes ensures Holds(s', v, x) {
      assert Holds(s, v, x);
    }
  }

  lemma LocalQueues(s: World, s': World, w: Wid, ino: Ino)
    requires UpOk(s) && DownOk(s) && Local(s, s', w, ino) && ino in s.loc && s.loc[ino] == Held(w)
    ensures UpOk(s') && DownOk(s')
  {
    forall v, i | v in s'.up && 0 <= i < |s'.up[v]| ensures UpMsg(s', v, s'.up[v][i]) {
      assert UpMsg(s, v, s.up[v][i]);
    }
    forall v, i | v in s'.down && 0 <= i < |s'.down[v]| ensures DownMsg(s', v, s'.down[v][i]) {
      assert DownMsg(s, v, s.down[v][i]);
    }
  }

  lemma LocalKeeps(s: World, s': World, w: Wid, ino: Ino)
    requires Inv(s) && Local(s, s', w, ino) && Tidy(s'.workers[w]) && FdsDisjoint(s'.whole)
    ensures Inv(s')
  {
    assert Holds(s, w, ino);
    LocalWorkers(s, s', w, ino);
    LocalHeld(s, s', w, ino);
    LocalQueues(s, s', w, ino);
  }

  function Opened(k: Worker, ino: Ino, f: FdKey): (r: Worker)
    requires ino in k.inodes
  {
    k.(inodes := k.inodes[ino := k.inodes[ino].(fds := k.inodes[ino].fds + {f})], fdTable := k.fdTable[f := ino])
  }

  function Closed(k: Worker, f: FdKey): (r: Worker)
    requires f in k.fdTable && k.fdTable[f] in k.inodes
  {
    var ino := k.fdTable[f];
    k.(inodes := k.inodes[ino := k.inodes[ino].(fds := k.inodes[ino].fds - {f})], fdTable := k.fdTable - {f})
  }

  function Marked(k: Worker, ino: Ino, flag: bool, d: bool, u: bool, c: bool): (r: Worker)
    requires ino in k.inodes
  {
    Worker(k.inodes[ino := k.inodes[ino].(flag := flag)],
           Put(d, k.dirty, ino), Put(u, k.unlinked, ino), Put(c, k.ckpt, ino), k.fdTable)
  }

  lemma OpenTidy(k: Worker, ino: Ino, f: FdKey)
    requires Tidy(k) && ino in k.inodes && forall x :: x in k.inodes ==> f !in k.inodes[x].fds
    ensures Tidy(Opened(k, ino, f))
  {
  }

  lemma CloseTidy(k: Worker, f: FdKey)
    requires Tidy(k) && f in k.fdTable && k.fdTable[f] in k.inodes
    ensures Tidy(Closed(k, f))
  {
  }

  lemma MarkTidy(k: Worker, ino: Ino, flag: bool, d: bool, u: bool, c: bool)
    requires Tidy(k) && ino in k.inodes && (d ==> flag)
    ensures Tidy(Marked(k, ino, flag, d, u, c))
  {
  }

  lemma OpenLocal(s: World, w: Wid, ino: Ino, f: FdKey)
    requires Enabled(s, Open(w, ino, f)) && Holds(s, w, ino) && FdsDisjoint(s.whole)
    ensures var s' := Next(s, Open(w, ino, f)); Local(s, s', w, ino) && FdsDisjoint(s'.whole)
  {
  }

  lemma OpenKeeps(s: World, w: Wid, ino: Ino, f: FdKey)
    requires Inv(s) && Enabled(s, Open(w, ino, f))
    ensures Inv(Next(s, Open(w, ino, f)))
  {
    assert Holds(s, w, ino);
    OpenLocal(s, w, ino, f);
    forall x | x in s.workers[w].inodes ensures f !in s.workers[w].inodes[x].fds {
      assert Holds(s, w, x);
    }
    OpenTidy(s.workers[w], ino, f);
    LocalKeeps(s, Next(s, Open(w, ino, f)), w, ino);
  }

  lemma CloseLocal(s: World, w: Wid, f: FdKey)
    requires Enabled(s, Close(w, f)) && Holds(s, w, s.workers[w].fdTable[f]) && FdsDisjoint(s.whole)
    ensures var s' := Next(s, Close(w, f)); Local(s, s', w, s.workers[w].fdTable[f]) && FdsDisjoint(s'.whole)
  {
  }

  lemma CloseKeeps(s: World, w: Wid, f: FdKey)
    requires Inv(s) && Enabled(s, Close(w, f))
    ensures Inv(Next(s, Close(w, f)))
  {
    var ino := s.workers[w].fdTable[f];
    assert Holds(s, w, ino);
    CloseLocal(s, w, f);
    CloseTidy(s.workers[w], f);
    LocalKeeps(s, Next(s, Close(w, f)), w, ino);
  }

  lemma MarkLocal(s: World, w: Wid, ino: Ino, flag: bool, d: bool, u: bool, c: bool)
    requires Enabled(s, Mark(w, ino, flag, d, u, c)) && Holds(s, w, ino) && FdsDisjoint(s.whole)
    ensures var s' := Next(s, Mark(w, ino, flag, d, u, c)); Local(s, s', w, ino) && FdsDisjoint(s'.whole)
  {
  }

  lemma MarkKeeps(s: World, w: Wid, ino: Ino, flag: bool, d: bool, u: bool, c: bool)
    requires Inv(s) && Enabled(s, Mark(w, ino, flag, d, u, c))
    ensures Inv(Next(s, Mark(w, ino, flag, d, u, c)))
  {
    assert Holds(s, w, ino);
    MarkLocal(s, w, ino, flag, d, u, c);
    MarkTidy(s.workers[w], ino, flag, d, u, c);
    LocalKeeps(s, Next(s, Mark(w, ino, flag, d, u, c)), w, ino);
  }

  // ---------------------------------------------------------------- an import whose callback exports

  lemma SwapHas(q: seq<Msg>, x: Ino)
    ensures HasRequest(q, x) ==> HasRequest(Swapped(q), x)
    ensures HasImport(q, x) ==> HasImport(Swapped(q), x)
    ensures HasImported(q, x) ==> HasImported(Swapped(q), x)
  {
    var r, n := Swapped(q), |q|;
    if n >= 2 {
      assert forall i :: 0 <= i < n - 2 ==> r[i] == q[i];
      assert r[n - 2] == q[n - 1] && r[n - 1] == q[n - 2];
    }
  }

  lemma SwapOrder(q: seq<Msg>)
    requires UpOrder(q)
    ensures UpOrder(Swapped(q))
  {
    var r, n := Swapped(q), |q|;
    forall i, j | 0 <= i < j < |r| && r[i].Request? && r[j].Request? ensures About(r[i]) != About(r[j]) {
      if n >= 2 && j >= n - 2 {
        var j' := 2 * n - 3 - j;
        assert r[j] == q[j'];
        if i == n - 2 {
          assert r[i] == q[n - 1] && About(q[n - 2]) != About(q[n - 1]);
        }
      }
    }
  }

  lemma SwapUp(s: World, w: Wid)
    requires UpOk(s) && w in s.up
    ensures UpOk(s.(up := s.up[w := Swapped(s.up[w])]))
  {
    var s' := s.(up := s.up[w := Swapped(s.up[w])]);
    var q, n := s.up[w], |s.up[w]|;
    forall v | v in s'.up
      ensures UpOrder(s'.up[v]) && forall i :: 0 <= i < |s'.up[v]| ==> UpMsg(s', v, s'.up[v][i])
    {
      SwapOrder(q);
      assert UpOrder(s.up[v]);
      forall i | 0 <= i < |s'.up[v]| ensures UpMsg(s', v, s'.up[v][i]) {
        var k := if v != w || n < 2 || i < n - 2 then i else 2 * n - 3 - i;
        assert s'.up[v][i] == s.up[v][k] && UpMsg(s, v, s.up[v][k]);
      }
    }
  }

  /** Exchanging two messages of a queue loses none and moves no inode. */
  lemma SwapKeeps(s: World, w: Wid)
    requires Inv(s) && w in s.up
    ensures Inv(s.(up := s.up[w := Swapped(s.up[w])]))
  {
    var s' := s.(up := s.up[w := Swapped(s.up[w])]);
    SwapUp(s, w);
    SwapRest(s, s');
    SwapRequested(s, w);
  }

  lemma SwapRequested(s: World, w: Wid)
    requires RequestedOk(s) && w in s.up
    ensures RequestedOk(s.(up := s.up[w := Swapped(s.up[w])]))
  {
    var s' := s.(up := s.up[w := Swapped(s.up[w])]);
    forall x | x in s'.loc && s'.loc[x].Requested? ensures s'.loc[x].w in s'.up && HasRequest(s'.up[s'.loc[x].w], x) {
      SwapHas(s.up[w], x);
    }
  }

  lemma SwapRest(s: World, s': World)
    requires Inv(s) && s'.up.Keys == s.up.Keys && s' == s.(up := s'.up)
    ensures Workers(s') && HeldOk(s') && FdsDisjoint(s'.whole) && DownOk(s') && ImportingOk(s') && KeptOk(s')
  {
    forall v, x | v in s'.workers && x in s'.workers[v].inodes ensures Holds(s', v, x) {
      assert Holds(s, v, x);
    }
    forall v, i | v in s'.down && 0 <= i < |s'.down[v]| ensures DownMsg(s', v, s'.down[v][i]) {
      assert DownMsg(s, v, s.down[v][i]);
    }
  }

  lemma RelayKeeps(s: World, w: Wid, to: Wid)
    requires Inv(s) && Enabled(s, Relay(w, to))
    ensures Inv(Next(s, Relay(w, to)))
  {
    var ino := About(s.down[w][0]);
    ImportKeeps(s, w);
    var s1 := Imports(s, w);
    assert Enabled(s1, Export(w, ino, to));
    ExportKeeps(s1, w, ino, to);
    SwapKeeps(Exports(s1, w, ino, to), w);
  }

  // ---------------------------------------------------------------- every step, every run

  lemma PrimaryKeeps(s: World, w: Wid)
    requires Inv(s) && Enabled(s, PrimaryRecv(w))
    ensures Inv(Next(s, PrimaryRecv(w)))
  {
    assert UpMsg(s, w, s.up[w][0]);
    if s.up[w][0].Request? {
      RequestKeeps(s, w);
    } else {
      ImportedKeeps(s, w);
    }
  }

  lemma ReceiveKeeps(s: World, w: Wid)
    requires Inv(s) && Enabled(s, WorkerRecv(w))
    ensures Inv(Next(s, WorkerRecv(w)))
  {
    assert DownMsg(s, w, s.down[w][0]);
    if s.down[w][0].Import? {
      ImportKeeps(s, w);
    } else {
      FinishedKeeps(s, w);
    }
  }

  lemma StepKeeps(s: World, step: Step)
    requires Inv(s) && Enabled(s, step)
    ensures Inv(Next(s, step))
  {
    match step {
      case Export(w, ino, to) => ExportKeeps(s, w, ino, to);
      case PrimaryRecv(w) => PrimaryKeeps(s, w);
      case WorkerRecv(w) => ReceiveKeeps(s, w);
      case Relay(w, to) => RelayKeeps(s, w, to);
      case Open(w, ino, f) => OpenKeeps(s, w, ino, f);
      case Close(w, f) => CloseKeeps(s, w, f);
      case Mark(w, ino, flag, d, u, c) => MarkKeeps(s, w, ino, flag, d, u, c);
    }
  }

  ghost predicate Runs(s: World, steps: seq<Step>, s': World)
    decreases steps
  {
    if steps == [] then s' == s else Enabled(s, steps[0]) && Runs(Next(s, steps[0]), steps[1..], s')
  }

  lemma {:induction false} RunKeeps(s: World, steps: seq<Step>, s': World)
    requires Inv(s) && Runs(s, steps, s')
    ensures Inv(s')
    decreases steps
  {
    if steps != [] {
      StepKeeps(s, steps[0]);
      RunKeeps(Next(s, steps[0]), steps[1..], s');
    }
  }

  /** Start: the primary holds every inode, closed and clean. */
  function Start(ws: set<Wid>, inos: set<Ino>): (s: World)
  {
    var empty := Worker(map[], {}, {}, {}, map[]);
    World(map w | w in ws ::
            if w == PRIMARY then empty.(inodes := map i | i in inos :: Inode(PRIMARY, {}, false)) else empty,
          map w | w in ws :: [], map w | w in ws :: [], map[], {},
          map i | i in inos :: Held(PRIMARY), map i | i in inos :: Whole({}, false, false, false, false), {})
  }

  lemma StartInv(ws: set<Wid>, inos: set<Ino>)
    requires PRIMARY in ws
    ensures Inv(Start(ws, inos))
  {
    var s := Start(ws, inos);
    forall w, ino | w in s.workers && ino in s.workers[w].inodes ensures Holds(s, w, ino) {
      assert w == PRIMARY;
    }
  }

  // ---------------------------------------------------------------- what the protocol guarantees

  /** The places an inode can be in: a worker's map, or a message of a queue. */
  datatype Place = Table(w: Wid) | Up(w: Wid, i: nat) | Down(w: Wid, i: nat)

  ghost predicate IsAt(s: World, ino: Ino, p: Place)
  {
    match p
    case Table(w) => w in s.workers && ino in s.workers[w].inodes
    case Up(w, i) => w in s.up && i < |s.up[w]| && s.up[w][i].Request? && s.up[w][i].exp.ino == ino
    case Down(w, i) => w in s.down && i < |s.down[w]| && s.down[w][i].Import? && s.down[w][i].exp.ino == ino
  }

  function WholeOf(s: World, ino: Ino, p: Place): (r: Whole)
    requires IsAt(s, ino, p)
  {
    match p
    case Table(w) => WholeAt(s.workers[w], ino)
    case Up(w, i) => WholeIn(s.up[w][i].exp)
    case Down(w, i) => WholeIn(s.down[w][i].exp)
  }

  lemma PlaceIsLoc(s: World, ino: Ino, p: Place)
    requires Inv(s) && IsAt(s, ino, p)
    ensures ino in s.loc && ino in s.whole && WholeOf(s, ino, p) == s.whole[ino]
    ensures s.loc[ino] == match p case Table(w) => Held(w) case Up(w, _) => Requested(w) case Down(w, _) => Importing(w)
  {
    match p {
      case Table(w) => assert Holds(s, w, ino);
      case Up(w, i) => assert UpMsg(s, w, s.up[w][i]);
      case Down(w, i) => assert DownMsg(s, w, s.down[w][i]);
    }
  }

  /** Each inode is in exactly one place, and what is there is the whole inode. */
  lemma OnePlace(s: World, ino: Ino) returns (p: Place)
    requires Inv(s) && ino in s.loc
    ensures IsAt(s, ino, p) && WholeOf(s, ino, p) == s.whole[ino]
    ensures forall p' :: IsAt(s, ino, p') ==> p' == p
  {
    match s.loc[ino] {
      case Held(w) => p := Table(w);
      case Requested(w) =>
        assert HasRequest(s.up[w], ino);
        var i :| 0 <= i < |s.up[w]| && s.up[w][i].Request? && About(s.up[w][i]) == ino;
        p := Up(w, i);
      case Importing(w) =>
        assert HasImport(s.down[w], ino);
        var i :| 0 <= i < |s.down[w]| && s.down[w][i].Import? && About(s.down[w][i]) == ino;
        p := Down(w, i);
    }
    PlaceIsLoc(s, ino, p);
    forall p' | IsAt(s, ino, p') ensures p' == p {
      PlaceIsLoc(s, ino, p');
      SamePlace(s, ino, p, p');
    }
  }

  lemma SamePlace(s: World, ino: Ino, p: Place, p': Place)
    requires UpOk(s) && DownOk(s) && IsAt(s, ino, p) && IsAt(s, ino, p')
    requires p.Table? <==> p'.Table?
    requires p.Up? <==> p'.Up?
    requires p.w == p'.w
    ensures p == p'
  {
    if p.Up? {
      assert UpOrder(s.up[p.w]);
      assert About(s.up[p.w][p.i]) == ino == About(s.up[p.w][p'.i]);
    } else if p.Down? {
      assert DownOrder(s.down[p.w]);
      assert About(s.down[p.w][p.i]) == ino == About(s.down[p.w][p'.i]);
    }
  }

  /** A descriptor resolves at a worker exactly when that worker holds its inode. */
  lemma Resolves(s: World, w: Wid, f: FdKey, ino: Ino)
    requires Inv(s) && w in s.workers
    ensures f in s.workers[w].fdTable && s.workers[w].fdTable[f] == ino <==>
      ino in s.workers[w].inodes && ino in s.whole && f in s.whole[ino].fds
  {
    if ino in s.workers[w].inodes {
      assert Holds(s, w, ino);
    }
  }

  /** In every run from the start, relays included: each inode is in exactly one worker's map or one
      message, whole; while it is held it names its holder, and only the holder resolves its
      descriptors. */
  lemma EveryRun(ws: set<Wid>, inos: set<Ino>, steps: seq<Step>, s: World, ino: Ino) returns (p: Place)
    requires PRIMARY in ws && Runs(Start(ws, inos), steps, s) && ino in s.loc
    ensures Inv(s)
    ensures IsAt(s, ino, p) && (forall p' :: IsAt(s, ino, p') ==> p' == p) && WholeOf(s, ino, p) == s.whole[ino]
    ensures p.Table? ==> s.workers[p.w].inodes[ino].mng == p.w
    ensures forall w, f :: w in s.workers && f in s.workers[w].fdTable && s.workers[w].fdTable[f] == ino ==>
              p == Table(w)
  {
    StartInv(ws, inos);
    RunKeeps(Start(ws, inos), steps, s);
    p := OnePlace(s, ino);
    PlaceIsLoc(s, ino, p);
    if p.Table? {
      assert Holds(s, p.w, ino);
    }
    forall w, f | w in s.workers && f in s.workers[w].fdTable && s.workers[w].fdTable[f] == ino ensures p == Table(w) {
      assert Tidy(s.workers[w]);
      assert IsAt(s, ino, Table(w));
    }
  }

  lemma ImportAssertions(s: World, w: Wid)
    requires Inv(s) && Enabled(s, WorkerRecv(w))
    ensures s.down[w][0].Import? ==>
      var e := s.down[w][0].exp; var k := s.workers[w];
      && e.inode.mng == w && e.ino !in k.inodes && (e.inDirty ==> e.inode.flag)
      && (forall f :: f in e.inode.fds ==> f !in k.fdTable)
      && (w == PRIMARY ==> e.ino in s.kept)
  {
    assert DownMsg(s, w, s.down[w][0]);
    if s.down[w][0].Import? {
      ImportFds(s, w);
      assert Tidy(s.workers[w]);
    }
  }

  /** The assertions the source makes along the way hold: an exported inode names its exporter, a
      requested one names nobody, an imported one names its importer, is new to it, brings only
      descriptors that are new to it, is flagged dirty if it was in the dirty set, and is among those
      the primary kept. */
  lemma AssertionsHold(s: World, step: Step)
    requires Inv(s) && Enabled(s, step)
    ensures step.Export? ==> s.workers[step.w].inodes[step.ino].mng == step.w
    ensures step.PrimaryRecv? && s.up[step.from][0].Request? ==> s.up[step.from][0].exp.inode.mng == UNKNOWN
    ensures (step.WorkerRecv? || step.Relay?) && s.down[step.at][0].Import? ==>
      var e := s.down[step.at][0].exp; var k := s.workers[step.at];
      && e.inode.mng == step.at && e.ino !in k.inodes && (e.inDirty ==> e.inode.flag)
      && (forall f :: f in e.inode.fds ==> f !in k.fdTable)
      && (step.at == PRIMARY ==> e.ino in s.kept)
  {
    match step {
      case Export(w, ino, _) => assert Holds(s, w, ino);
      case PrimaryRecv(w) => assert UpMsg(s, w, s.up[w][0]);
      case WorkerRecv(w) => ImportAssertions(s, w);
      case Relay(w, _) => ImportAssertions(s, w);
      case _ =>
    }
  }

  // ---------------------------------------------------------------- what the owner map says

  predicate News(m: Msg, ino: Ino)
  {
    m.Imported? && m.ino == ino
  }

  ghost predicate With(s: World, ino: Ino, w: Wid)
  {
    ino in s.loc && (s.loc[ino] == Held(w) || s.loc[ino] == Requested(w))
  }

  /** The owner map answers rightly: "in transfer", the holder, or the exporter whose message travels. */
  ghost predicate Right(s: World, ino: Ino)
  {
    OwnerOf(s.owners, ino) == UNKNOWN || (OwnerOf(s.owners, ino) >= 0 && With(s, ino, OwnerOf(s.owners, ino)))
  }

  /** The primary hears of an import at a worker that the inode is not at: it has left the worker since,
      or is on its way to it again. */
  ghost predicate HearsStale(s: World, step: Step, ino: Ino)
    requires Enabled(s, step)
  {
    step.PrimaryRecv? && News(s.up[step.from][0], ino) && !With(s, ino, step.from)
  }

  lemma RightForward(s: World, w: Wid, ino: Ino)
    requires CanForward(s, w) && ino in s.loc && UpMsg(s, w, s.up[w][0])
    ensures var s' := Forwards(s, w); ino in s'.loc && (Right(s, ino) ==> Right(s', ino))
  {
  }

  lemma RightHear(s: World, w: Wid, ino: Ino)
    requires CanHear(s, w) && ino in s.loc && UpMsg(s, w, s.up[w][0])
    ensures var s' := Hears(s, w);
      && ino in s'.loc
      && (News(s.up[w][0], ino) ==> OwnerOf(s'.owners, ino) == w && (Right(s', ino) <==> With(s, ino, w)))
      && (!News(s.up[w][0], ino) && Right(s, ino) ==> Right(s', ino))
  {
  }

  /** Where a worker's step leaves the inode, and that it does not touch the owner map. */
  ghost predicate Moves(s: World, s': World, ino: Ino)
  {
    && ino in s.loc && s'.owners == s.owners && ino in s'.loc
    && (s'.loc[ino] == s.loc[ino] || s.loc[ino].Importing? ||
        (s.loc[ino].Held? && s'.loc[ino] == Requested(s.loc[ino].w)))
  }

  lemma ExportMoves(s: World, w: Wid, x: Ino, to: Wid, ino: Ino)
    requires HeldOk(s) && Enabled(s, Export(w, x, to)) && ino in s.loc
    ensures Moves(s, Exports(s, w, x, to), ino)
  {
    assert Holds(s, w, x);
  }

  lemma ReceiveMoves(s: World, w: Wid, ino: Ino)
    requires DownOk(s) && Enabled(s, WorkerRecv(w)) && ino in s.loc
    ensures Moves(s, Next(s, WorkerRecv(w)), ino)
  {
    assert DownMsg(s, w, s.down[w][0]);
  }

  lemma RelayMoves(s: World, w: Wid, to: Wid, ino: Ino)
    requires DownOk(s) && Enabled(s, Relay(w, to)) && ino in s.loc
    ensures Moves(s, Next(s, Relay(w, to)), ino)
  {
    assert DownMsg(s, w, s.down[w][0]);
  }

  lemma WorkerMoves(s: World, step: Step, ino: Ino)
    requires Inv(s) && Enabled(s, step) && !step.PrimaryRecv? && ino in s.loc
    ensures Moves(s, Next(s, step), ino)
  {
    match step {
      case WorkerRecv(w) => ReceiveMoves(s, w, ino);
      case Relay(w, to) => RelayMoves(s, w, to, ino);
      case Export(w, x, to) => ExportMoves(s, w, x, to, ino);
      case _ =>
    }
  }

  /** A right answer stays right in a step if and only if the step does not hear stale news; fresh
      news make any answer right. */
  lemma RightIff(s: World, step: Step, ino: Ino)
    requires Inv(s) && Enabled(s, step) && ino in s.loc
    ensures Right(s, ino) ==> (Right(Next(s, step), ino) <==> !HearsStale(s, step, ino))
    ensures step.PrimaryRecv? && News(s.up[step.from][0], ino) && With(s, ino, step.from) ==>
      Right(Next(s, step), ino) && OwnerOf(Next(s, step).owners, ino) == step.from
    ensures ino in Next(s, step).loc
  {
    if step.PrimaryRecv? {
      assert UpMsg(s, step.from, s.up[step.from][0]);
      if s.up[step.from][0].Request? {
        RightForward(s, step.from, ino);
      } else {
        RightHear(s, step.from, ino);
      }
    } else {
      WorkerMoves(s, step, ino);
      MovesRight(s, Next(s, step), ino);
    }
  }

  lemma MovesRight(s: World, s': World, ino: Ino)
    requires Moves(s, s', ino)
    ensures Right(s, ino) ==> Right(s', ino)
  {
  }

  /** The answer is right in every state of the run. */
  ghost predicate AlwaysRight(s: World, steps: seq<Step>, ino: Ino)
    decreases steps
  {
    Right(s, ino) && (steps != [] ==> Enabled(s, steps[0]) && AlwaysRight(Next(s, steps[0]), steps[1..], ino))
  }

  ghost predicate NeverStale(s: World, steps: seq<Step>, ino: Ino)
    decreases steps
  {
    steps != [] ==>
      Enabled(s, steps[0]) && !HearsStale(s, steps[0], ino) && NeverStale(Next(s, steps[0]), steps[1..], ino)
  }

  /** In every run the owner map is right all along if and only if the primary never hears of an import
      at a worker that the inode is not at. */
  lemma {:induction false} RightRunsIff(s: World, steps: seq<Step>, s': World, ino: Ino)
    requires Inv(s) && Runs(s, steps, s') && ino in s.loc && Right(s, ino)
    ensures AlwaysRight(s, steps, ino) <==> NeverStale(s, steps, ino)
    decreases steps
  {
    if steps != [] {
      StepKeeps(s, steps[0]);
      RightIff(s, steps[0], ino);
      if !HearsStale(s, steps[0], ino) {
        RightRunsIff(Next(s, steps[0]), steps[1..], s', ino);
      }
    }
  }

  lemma SwapsLast(q: seq<Msg>, a: Msg, b: Msg)
    ensures Swapped(q + [a] + [b]) == q + [b] + [a]
  {
  }

  /** The two halves of a relay: import and export, with the messages in the other order. */
  lemma RelayHalves(s: World, w: Wid, to: Wid)
    requires Enabled(s, Relay(w, to))
    ensures var ino := s.down[w][0].exp.ino;
      && CanImport(s, w) && w in Imports(s, w).workers && ino in Imports(s, w).workers[w].inodes
      && (var s2 := Exports(Imports(s, w), w, ino, to);
          Next(s, Relay(w, to)) == s2.(up := s2.up[w := Swapped(s2.up[w])]))
  {
  }

  lemma RelayQueues(s: World, w: Wid, ino: Ino, to: Wid) returns (e': Exported)
    requires CanImport(s, w) && ino == s.down[w][0].exp.ino && ino in Imports(s, w).workers[w].inodes
    ensures var s2 := Exports(Imports(s, w), w, ino, to); var e := s.down[w][0].exp;
      && e'.ino == ino && e'.exporter == w && e'.importer == to
      && s2.up == s.up[w := s.up[w] + [Imported(ino, e.exporter, w)] + [Request(e')]]
      && s2.down == s.down[w := s.down[w][1..]]
      && s2.owners == s.owners && s2.loc == s.loc[ino := Requested(w)] && s2.waiting == s.waiting + {ino}
      && s2.workers.Keys == s.workers.Keys
  {
    e' := ExportInode(Imports(s, w).workers[w], w, ino, to).1;
  }

  lemma RelayIs(s: World, w: Wid, to: Wid) returns (e': Exported)
    requires Enabled(s, Relay(w, to))
    ensures var s' := Next(s, Relay(w, to)); var e := s.down[w][0].exp;
      && e'.ino == e.ino && e'.exporter == w && e'.importer == to
      && s'.up == s.up[w := s.up[w] + [Request(e')] + [Imported(e.ino, e.exporter, w)]]
      && s'.down == s.down[w := s.down[w][1..]]
      && s'.owners == s.owners && s'.loc == s.loc[e.ino := Requested(w)] && s'.waiting == s.waiting + {e.ino}
      && s'.workers.Keys == s.workers.Keys
  {
    RelayHalves(s, w, to);
    var e := s.down[w][0].exp;
    e' := RelayQueues(s, w, e.ino, to);
    SwapsLast(s.up[w], Imported(e.ino, e.exporter, w), Request(e'));
  }

  // ---------------------------------------------------------------- the same by the messages handled

  /** The worker to which the primary last forwarded an inode, and whether the worker has handled that
      import. */
  datatype Track = Track(at: Wid, there: bool)

  predicate Forwarding(q: seq<Msg>, ino: Ino)
  {
    q != [] && q[0].Request? && About(q[0]) == ino
  }

  predicate Importable(q: seq<Msg>, ino: Ino)
  {
    q != [] && q[0].Import? && About(q[0]) == ino
  }

  /** Only the messages handled matter: the primary forwards the inode, or a worker imports it. */
  ghost function Followed(s: World, step: Step, ino: Ino, t: Track): (r: Track)
    requires Enabled(s, step)
  {
    if step.PrimaryRecv? && Forwarding(s.up[step.from], ino) then Track(s.up[step.from][0].exp.importer, false)
    else if (step.WorkerRecv? || step.Relay?) && Importable(s.down[step.at], ino) then Track(step.at, true)
    else t
  }

  ghost predicate Tracks(s: World, ino: Ino, t: Track)
  {
    ino in s.loc && t == Track(s.loc[ino].w, !s.loc[ino].Importing?)
  }

  lemma PrimaryTracks(s: World, w: Wid, ino: Ino, t: Track)
    requires UpOk(s) && Enabled(s, PrimaryRecv(w)) && Tracks(s, ino, t)
    ensures Tracks(Next(s, PrimaryRecv(w)), ino, Followed(s, PrimaryRecv(w), ino, t))
  {
    assert UpMsg(s, w, s.up[w][0]);
  }

  lemma ReceiveTracks(s: World, w: Wid, ino: Ino, t: Track)
    requires DownOk(s) && Enabled(s, WorkerRecv(w)) && Tracks(s, ino, t)
    ensures Tracks(Next(s, WorkerRecv(w)), ino, Followed(s, WorkerRecv(w), ino, t))
  {
    assert DownMsg(s, w, s.down[w][0]);
  }

  lemma RelayTracks(s: World, w: Wid, to: Wid, ino: Ino, t: Track)
    requires Enabled(s, Relay(w, to)) && Tracks(s, ino, t)
    ensures Tracks(Next(s, Relay(w, to)), ino, Followed(s, Relay(w, to), ino, t))
  {
    var e' := RelayIs(s, w, to);
  }

  lemma ExportTracks(s: World, w: Wid, x: Ino, to: Wid, ino: Ino, t: Track)
    requires HeldOk(s) && Enabled(s, Export(w, x, to)) && Tracks(s, ino, t)
    ensures Tracks(Exports(s, w, x, to), ino, t)
  {
    assert Holds(s, w, x);
  }

  lemma LocalTracks(s: World, step: Step, ino: Ino, t: Track)
    requires Enabled(s, step) && (step.Open? || step.Close? || step.Mark?) && Tracks(s, ino, t)
    ensures Tracks(Next(s, step), ino, t)
  {
  }

  lemma FollowTracks(s: World, step: Step, ino: Ino, t: Track)
    requires UpOk(s) && DownOk(s) && HeldOk(s) && Enabled(s, step) && Tracks(s, ino, t)
    ensures Tracks(Next(s, step), ino, Followed(s, step, ino, t))
  {
    match step {
      case PrimaryRecv(w) => PrimaryTracks(s, w, ino, t);
      case WorkerRecv(w) => ReceiveTracks(s, w, ino, t);
      case Relay(w, to) => RelayTracks(s, w, to, ino, t);
      case Export(w, x, to) => ExportTracks(s, w, x, to, ino, t);
      case _ => LocalTracks(s, step, ino, t);
    }
  }

  /** The primary hears of an import at a worker while it has last forwarded the inode to another, or
      that worker has not yet handled the last import. */
  ghost predicate Misheard(s: World, step: Step, ino: Ino, t: Track)
    requires Enabled(s, step)
  {
    step.PrimaryRecv? && News(s.up[step.from][0], ino) && t != Track(step.from, true)
  }

  ghost predicate NeverMisheard(s: World, steps: seq<Step>, ino: Ino, t: Track)
    decreases steps
  {
    steps != [] ==>
      && Enabled(s, steps[0]) && !Misheard(s, steps[0], ino, t)
      && NeverMisheard(Next(s, steps[0]), steps[1..], ino, Followed(s, steps[0], ino, t))
  }

  lemma SameHearing(s: World, step: Step, ino: Ino, t: Track)
    requires Enabled(s, step) && Tracks(s, ino, t)
    ensures Misheard(s, step, ino, t) <==> HearsStale(s, step, ino)
  {
  }

  lemma TrackStep(s: World, step: Step, ino: Ino, t: Track)
    requires Inv(s) && Enabled(s, step) && Tracks(s, ino, t)
    ensures Inv(Next(s, step)) && Tracks(Next(s, step), ino, Followed(s, step, ino, t))
    ensures Misheard(s, step, ino, t) <==> HearsStale(s, step, ino)
  {
    StepKeeps(s, step);
    SameHearing(s, step, ino, t);
    FollowTracks(s, step, ino, t);
  }

  lemma {:induction false} MisheardIsStale(s: World, steps: seq<Step>, s': World, ino: Ino, t: Track)
    requires Inv(s) && Runs(s, steps, s') && Tracks(s, ino, t)
    ensures NeverMisheard(s, steps, ino, t) <==> NeverStale(s, steps, ino)
    decreases steps
  {
    if steps != [] {
      TrackStep(s, steps[0], ino, t);
      MisheardIsStale(Next(s, steps[0]), steps[1..], s', ino, Followed(s, steps[0], ino, t));
    }
  }

  /** In every run from the start the owner map is right all along if and only if, whenever the primary
      hears of an import, the last forwarding of the inode went to that worker and has been imported. */
  lemma HeardRunsIff(ws: set<Wid>, inos: set<Ino>, steps: seq<Step>, s: World, ino: Ino)
    requires PRIMARY in ws && ino in inos && Runs(Start(ws, inos), steps, s)
    ensures AlwaysRight(Start(ws, inos), steps, ino) <==>
            NeverMisheard(Start(ws, inos), steps, ino, Track(PRIMARY, true))
  {
    StartInv(ws, inos);
    MisheardIsStale(Start(ws, inos), steps, s, ino, Track(PRIMARY, true));
    RightRunsIff(Start(ws, inos), steps, s, ino);
  }

  // ---------------------------------------------------------------- without relays

  /** News of the inode comes from where it still is, and before its next export. */
  ghost predicate NewsFresh(s: World, ino: Ino)
  {
    forall w, i :: w in s.up && 0 <= i < |s.up[w]| && News(s.up[w][i], ino) ==> ino in s.waiting && With(s, ino, w)
  }

  ghost predicate NewsFirst(q: seq<Msg>, ino: Ino)
  {
    forall i, j :: 0 <= i < j < |q| && About(q[i]) == About(q[j]) == ino ==> News(q[i], ino) && q[j].Request?
  }

  ghost predicate InOrder(s: World, ino: Ino)
  {
    forall w :: w in s.up ==> NewsFirst(s.up[w], ino)
  }

  /** While the primary has not heard of an import, the news is on its way from where the inode is. */
  ghost predicate Awaited(s: World, ino: Ino)
  {
    ino in s.waiting ==>
      ino in s.loc && !s.loc[ino].Importing? && s.loc[ino].w in s.up && HasImported(s.up[s.loc[ino].w], ino)
  }

  /** "In transfer" while the inode travels from the primary or its import is not yet known. */
  ghost predicate OwnerKnown(s: World, ino: Ino)
  {
    ino in s.loc ==>
      OwnerOf(s.owners, ino) == if ino in s.waiting || s.loc[ino].Importing? then UNKNOWN else s.loc[ino].w
  }

  ghost predicate Informed(s: World, ino: Ino)
  {
    NewsFresh(s, ino) && InOrder(s, ino) && Awaited(s, ino) && OwnerKnown(s, ino)
  }

  ghost predicate Relays(s: World, step: Step, ino: Ino)
  {
    step.Relay? && step.at in s.down && s.down[step.at] != [] && About(s.down[step.at][0]) == ino
  }

  /** What a queue says about the inode is still said, in the same order, and nothing more. */
  ghost predicate SaysSame(q: seq<Msg>, q': seq<Msg>, ino: Ino)
  {
    && (forall i :: 0 <= i < |q'| && News(q'[i], ino) ==> HasImported(q, ino))
    && (HasImported(q, ino) ==> HasImported(q', ino))
    && (NewsFirst(q, ino) ==> NewsFirst(q', ino))
  }

  lemma AppendOther(q: seq<Msg>, m: Msg, ino: Ino)
    requires About(m) != ino
    ensures SaysSame(q, q + [m], ino)
  {
    AppendHas(q, m);
    var r := q + [m];
    assert forall i :: 0 <= i < |q| ==> r[i] == q[i];
  }

  lemma PopOther(q: seq<Msg>, ino: Ino)
    requires q != [] && About(q[0]) != ino
    ensures SaysSame(q, q[1..], ino)
  {
    PopHas(q);
    var r := q[1..];
    assert forall i :: 0 <= i < |r| ==> r[i] == q[i + 1];
  }

  lemma SwapOther(q: seq<Msg>, a: Msg, b: Msg, ino: Ino)
    requires About(a) != ino && About(b) != ino
    ensures Swapped(q + [a] + [b]) == q + [b] + [a]
    ensures SaysSame(q, q + [b] + [a], ino)
  {
    var r := q + [b] + [a];
    AppendHas(q, b);
    AppendHas(q + [b], a);
    assert forall i :: 0 <= i < |q| ==> r[i] == q[i];
  }

  /** The state speaks of the inode as before. */
  ghost predicate SameAbout(s: World, s': World, ino: Ino)
  {
    && s'.up.Keys == s.up.Keys && (forall w :: w in s.up ==> SaysSame(s.up[w], s'.up[w], ino))
    && (ino in s.loc <==> ino in s'.loc) && (ino in s.loc ==> s'.loc[ino] == s.loc[ino])
    && (ino in s.waiting <==> ino in s'.waiting) && OwnerOf(s'.owners, ino) == OwnerOf(s.owners, ino)
  }

  lemma InformedOther(s: World, s': World, ino: Ino)
    requires Informed(s, ino) && SameAbout(s, s', ino)
    ensures Informed(s', ino)
  {
    forall w, i | w in s'.up && 0 <= i < |s'.up[w]| && News(s'.up[w][i], ino)
      ensures ino in s'.waiting && With(s', ino, w)
    {
      assert HasImported(s.up[w], ino);
      var k :| 0 <= k < |s.up[w]| && s.up[w][k].Imported? && About(s.up[w][k]) == ino;
      assert News(s.up[w][k], ino);
    }
  }

  lemma SaysSameRefl(q: seq<Msg>, ino: Ino)
    ensures SaysSame(q, q, ino)
  {
  }

  /** At most one queue has changed, and says the same of the inode. */
  lemma OneQueue(s: World, s': World, w: Wid, q: seq<Msg>, ino: Ino)
    requires Informed(s, ino) && w in s.up && s'.up == s.up[w := q] && SaysSame(s.up[w], q, ino)
    requires (ino in s.loc <==> ino in s'.loc) && (ino in s.loc ==> s'.loc[ino] == s.loc[ino])
    requires (ino in s.waiting <==> ino in s'.waiting) && OwnerOf(s'.owners, ino) == OwnerOf(s.owners, ino)
    ensures Informed(s', ino)
  {
    forall v | v in s.up ensures SaysSame(s.up[v], s'.up[v], ino) {
      SaysSameRefl(s.up[v], ino);
    }
    InformedOther(s, s', ino);
  }

  lemma ExportInforms(s: World, w: Wid, x: Ino, to: Wid, ino: Ino)
    requires HeldOk(s) && UpOk(s) && Informed(s, ino) && Enabled(s, Export(w, x, to))
    ensures Informed(Exports(s, w, x, to), ino)
  {
    var m := Request(ExportInode(s.workers[w], w, x, to).1);
    assert Holds(s, w, x);
    if x != ino {
      AppendOther(s.up[w], m, ino);
      OneQueue(s, Exports(s, w, x, to), w, s.up[w] + [m], ino);
    } else {
      ExportOwn(s, w, ino, to);
    }
  }

  lemma ExportOwn(s: World, w: Wid, ino: Ino, to: Wid)
    requires UpOk(s) && Informed(s, ino) && Enabled(s, Export(w, ino, to)) && ino in s.loc && s.loc[ino] == Held(w)
    ensures Informed(Exports(s, w, ino, to), ino)
  {
    var s', m := Exports(s, w, ino, to), Request(ExportInode(s.workers[w], w, ino, to).1);
    AppendHas(s.up[w], m);
    forall i | 0 <= i < |s.up[w]| && About(s.up[w][i]) == ino ensures News(s.up[w][i], ino) {
      assert UpMsg(s, w, s.up[w][i]);
    }
    assert NewsFirst(s'.up[w], ino);
  }

  lemma ReceiveInforms(s: World, w: Wid, ino: Ino)
    requires UpOk(s) && DownOk(s) && Informed(s, ino) && Enabled(s, WorkerRecv(w))
    ensures Informed(Next(s, WorkerRecv(w)), ino)
  {
    var s', m := Next(s, WorkerRecv(w)), s.down[w][0];
    assert DownMsg(s, w, m);
    if !m.Import? {
      SaysSameRefl(s.up[w], ino);
      OneQueue(s, s', w, s.up[w], ino);
    } else if About(m) == ino {
      ImportOwn(s, w);
    } else {
      ImportOther(s, w, ino);
    }
  }

  lemma ImportOther(s: World, w: Wid, ino: Ino)
    requires CanImport(s, w) && About(s.down[w][0]) != ino && Informed(s, ino)
    ensures Informed(Imports(s, w), ino)
  {
    var e := s.down[w][0].exp;
    var m := Imported(e.ino, e.exporter, w);
    AppendOther(s.up[w], m, ino);
    OneQueue(s, Imports(s, w), w, s.up[w] + [m], ino);
  }

  lemma ImportOwn(s: World, w: Wid)
    requires UpOk(s) && CanImport(s, w) && DownMsg(s, w, s.down[w][0])
    requires Informed(s, About(s.down[w][0]))
    ensures Informed(Imports(s, w), About(s.down[w][0]))
  {
    var s', e := Imports(s, w), s.down[w][0].exp;
    AppendHas(s.up[w], Imported(e.ino, e.exporter, w));
    forall v, i | v in s.up && 0 <= i < |s.up[v]| ensures About(s.up[v][i]) != e.ino {
      assert UpMsg(s, v, s.up[v][i]);
      assert !News(s.up[v][i], e.ino);
    }
    forall v | v in s'.up ensures NewsFirst(s'.up[v], e.ino) {
    }
  }

  /** A relay sends the export first and the news behind it. */
  lemma RelayInforms(s: World, w: Wid, to: Wid, ino: Ino)
    requires Informed(s, ino) && Enabled(s, Relay(w, to)) && About(s.down[w][0]) != ino
    ensures Informed(Next(s, Relay(w, to)), ino)
  {
    var e' := RelayIs(s, w, to);
    var e := s.down[w][0].exp;
    SwapOther(s.up[w], Imported(e.ino, e.exporter, w), Request(e'), ino);
    OneQueue(s, Next(s, Relay(w, to)), w, s.up[w] + [Request(e')] + [Imported(e.ino, e.exporter, w)], ino);
  }

  lemma HearInforms(s: World, w: Wid, ino: Ino)
    requires UpOk(s) && Informed(s, ino) && Enabled(s, PrimaryRecv(w))
    ensures Informed(Next(s, PrimaryRecv(w)), ino)
  {
    assert UpMsg(s, w, s.up[w][0]);
    if About(s.up[w][0]) != ino {
      HearOther(s, w, ino);
    } else if s.up[w][0].Request? {
      ForwardOwn(s, w);
    } else {
      HearOwn(s, w);
    }
  }

  lemma HearOther(s: World, w: Wid, ino: Ino)
    requires Informed(s, ino) && Enabled(s, PrimaryRecv(w)) && About(s.up[w][0]) != ino
    ensures Informed(Next(s, PrimaryRecv(w)), ino)
  {
    PopOther(s.up[w], ino);
    OneQueue(s, Next(s, PrimaryRecv(w)), w, s.up[w][1..], ino);
  }

  /** An export is forwarded: the news of the import before it has been heard. */
  lemma ForwardOwn(s: World, w: Wid)
    requires CanForward(s, w) && UpMsg(s, w, s.up[w][0])
    requires Informed(s, About(s.up[w][0]))
    ensures Informed(Forwards(s, w), About(s.up[w][0]))
  {
    var s', q, ino := Forwards(s, w), s.up[w], About(s.up[w][0]);
    assert NewsFirst(q, ino);
    assert !HasImported(q, ino);
    assert ino !in s.waiting;
    OrderAfterPop(s, s', w, ino);
  }

  lemma OrderAfterPop(s: World, s': World, w: Wid, ino: Ino)
    requires InOrder(s, ino) && w in s.up && s.up[w] != [] && s'.up == s.up[w := s.up[w][1..]]
    ensures InOrder(s', ino)
    ensures forall v, i :: v in s'.up && 0 <= i < |s'.up[v]| && News(s'.up[v][i], ino) ==>
      exists k :: 0 <= k < |s.up[v]| && News(s.up[v][k], ino) && (v == w ==> k > 0)
  {
    var q, r := s.up[w], s'.up[w];
    assert NewsFirst(q, ino);
    assert forall i :: 0 <= i < |r| ==> r[i] == q[i + 1];
    forall v, i | v in s'.up && 0 <= i < |s'.up[v]| && News(s'.up[v][i], ino)
      ensures exists k :: 0 <= k < |s.up[v]| && News(s.up[v][k], ino) && (v == w ==> k > 0)
    {
      assert News(s.up[v][if v == w then i + 1 else i], ino);
    }
    forall v | v in s'.up ensures NewsFirst(s'.up[v], ino) {
      assert NewsFirst(s.up[v], ino);
    }
  }

  /** News is heard: it is the only news of the inode, and the inode is still with its sender. */
  lemma HearOwn(s: World, w: Wid)
    requires CanHear(s, w) && UpMsg(s, w, s.up[w][0])
    requires Informed(s, About(s.up[w][0]))
    ensures Informed(Hears(s, w), About(s.up[w][0]))
  {
    var s', q, ino := Hears(s, w), s.up[w], About(s.up[w][0]);
    assert News(q[0], ino) && With(s, ino, w);
    OrderAfterPop(s, s', w, ino);
    assert NewsFirst(q, ino);
    assert forall v, k :: v in s.up && 0 <= k < |s.up[v]| && News(s.up[v][k], ino) ==> v == w && k == 0;
  }

  lemma StepInforms(s: World, step: Step, ino: Ino)
    requires Inv(s) && Enabled(s, step) && Informed(s, ino) && !Relays(s, step, ino)
    ensures Informed(Next(s, step), ino)
  {
    match step {
      case Export(w, x, to) => ExportInforms(s, w, x, to, ino);
      case PrimaryRecv(w) => HearInforms(s, w, ino);
      case WorkerRecv(w) => ReceiveInforms(s, w, ino);
      case Relay(w, to) => RelayInforms(s, w, to, ino);
      case _ => LocalInforms(s, step, ino);
    }
  }

  lemma LocalInforms(s: World, step: Step, ino: Ino)
    requires Informed(s, ino) && Enabled(s, step) && (step.Open? || step.Close? || step.Mark?)
    ensures Informed(Next(s, step), ino)
  {
    var s' := Next(s, step);
    assert s'.up == s.up && s'.loc == s.loc && s'.waiting == s.waiting && s'.owners == s.owners;
    forall v | v in s.up ensures SaysSame(s.up[v], s'.up[v], ino) {
      SaysSameRefl(s.up[v], ino);
    }
    InformedOther(s, s', ino);
  }

  lemma InformedHears(s: World, step: Step, ino: Ino)
    requires Informed(s, ino) && Enabled(s, step)
    ensures !HearsStale(s, step, ino)
  {
  }

  ghost predicate NeverRelayed(s: World, steps: seq<Step>, ino: Ino)
    decreases steps
  {
    steps != [] ==>
      Enabled(s, steps[0]) && !Relays(s, steps[0], ino) && NeverRelayed(Next(s, steps[0]), steps[1..], ino)
  }

  lemma {:induction false} UnrelayedRuns(s: World, steps: seq<Step>, s': World, ino: Ino)
    requires Inv(s) && Informed(s, ino) && Runs(s, steps, s') && NeverRelayed(s, steps, ino)
    ensures Informed(s', ino) && NeverStale(s, steps, ino)
    decreases steps
  {
    if steps != [] {
      StepInforms(s, steps[0], ino);
      InformedHears(s, steps[0], ino);
      StepKeeps(s, steps[0]);
      UnrelayedRuns(Next(s, steps[0]), steps[1..], s', ino);
    }
  }

  /** In every run from the start that does not relay the inode, whatever happens to the others: the
      owner map is right all along; it answers "in transfer" exactly while the inode travels from the
      primary or the news of its import travels to it, and otherwise its place. */
  lemma OwnerEveryRun(ws: set<Wid>, inos: set<Ino>, steps: seq<Step>, s: World, ino: Ino)
    requires PRIMARY in ws && ino in inos && Runs(Start(ws, inos), steps, s)
    requires NeverRelayed(Start(ws, inos), steps, ino)
    ensures AlwaysRight(Start(ws, inos), steps, ino)
    ensures ino in s.loc &&
      OwnerOf(s.owners, ino) == if ino in s.waiting || s.loc[ino].Importing? then UNKNOWN else s.loc[ino].w
    ensures ino in s.waiting ==> s.loc[ino].w in s.up && HasImported(s.up[s.loc[ino].w], ino)
  {
    var s0 := Start(ws, inos);
    StartInv(ws, inos);
    UnrelayedRuns(s0, steps, s, ino);
    RightRunsIff(s0, steps, s, ino);
    StaysKnown(s0, steps, s, ino);
  }

  lemma {:induction false} StaysKnown(s: World, steps: seq<Step>, s': World, ino: Ino)
    requires Inv(s) && Runs(s, steps, s') && ino in s.loc
    ensures ino in s'.loc
    decreases steps
  {
    if steps != [] {
      StepKeeps(s, steps[0]);
      RightIff(s, steps[0], ino);
      StaysKnown(Next(s, steps[0]), steps[1..], s', ino);
    }
  }

  // ---------------------------------------------------------------- a relay can mislead the primary

  /** Nothing in any queue concerns the inode any more, but that an export of it is done. */
  ghost predicate Quiet(s: World, ino: Ino)
  {
    && (forall w, i :: w in s.up && 0 <= i < |s.up[w]| ==> About(s.up[w][i]) != ino)
    && (forall w, i :: w in s.down && 0 <= i < |s.down[w]| && About(s.down[w][i]) == ino ==> s.down[w][i].Finished?)
  }

  lemma HearAlone(s: World, a: Wid, b: Wid)
    requires UpOk(s) && CanHear(s, a) && CanHear(s, b) && a != b
    ensures CanHear(Hears(s, a), b) && Hears(s, a).up[b] == s.up[b] && Hears(s, a).loc == s.loc
    ensures UpMsg(Hears(s, a), b, s.up[b][0])
  {
    assert UpMsg(s, b, s.up[b][0]);
  }

  /** The two news that follow a relay from w to v: the answer ends up right exactly if the primary
      hears w first. */
  lemma NewsOrderIff(s: World, w: Wid, v: Wid, ino: Ino, wFirst: bool)
    requires UpOk(s) && w != v && ino in s.loc && s.loc[ino] == Held(v)
    requires CanHear(s, w) && News(s.up[w][0], ino) && CanHear(s, v) && News(s.up[v][0], ino)
    ensures var a, b := if wFirst then w else v, if wFirst then v else w;
      && CanHear(Hears(s, a), b)
      && (Right(Hears(Hears(s, a), b), ino) <==> wFirst)
      && OwnerOf(Hears(Hears(s, a), b).owners, ino) == b
  {
    var a, b := if wFirst then w else v, if wFirst then v else w;
    HearAlone(s, a, b);
    RightHear(Hears(s, a), b, ino);
  }

  lemma RunsCons(s: World, step: Step, steps: seq<Step>, s': World)
    requires Enabled(s, step) && Runs(Next(s, step), steps, s')
    ensures Runs(s, [step] + steps, s')
  {
    assert ([step] + steps)[1..] == steps;
  }

  /** What the messages of one step do to the queues, the owner map and the places. */
  lemma ForwardIs(s: World, w: Wid)
    requires CanForward(s, w)
    ensures Enabled(s, PrimaryRecv(w)) && Next(s, PrimaryRecv(w)) == Forwards(s, w)
  {
  }

  lemma HearIs(s: World, w: Wid)
    requires CanHear(s, w)
    ensures Enabled(s, PrimaryRecv(w)) && Next(s, PrimaryRecv(w)) == Hears(s, w)
  {
  }

  lemma ImportIs(s: World, w: Wid)
    requires CanImport(s, w)
    ensures Enabled(s, WorkerRecv(w)) && Next(s, WorkerRecv(w)) == Imports(s, w)
  {
  }

  /** What hearing worker w's only message does to the queues and the owner map. */
  lemma HeardOnly(s: World, w: Wid, e: Msg)
    requires CanHear(s, w) && s.up[w] == [e] && e.Imported? && e.importer == w && e.exporter in s.down
    ensures var s' := Hears(s, w);
            && s'.up == s.up[w := []] && s'.loc == s.loc && OwnerOf(s'.owners, e.ino) == w
            && s'.down == s.down[e.exporter := s.down[e.exporter] + [Finished(e.ino)]]
  {
    assert [e][1..] == [];
  }

  lemma ImportedOnly(s: World, v: Wid, e: Exported)
    requires CanImport(s, v) && s.up[v] == [] && s.down[v] == [Import(e)]
    ensures var s' := Imports(s, v);
            && s'.up == s.up[v := [Imported(e.ino, e.exporter, v)]] && s'.down == s.down[v := []]
            && e.ino in s'.loc && s'.loc[e.ino] == Held(v)
  {
    assert [Import(e)][1..] == [];
    assert [] + [Imported(e.ino, e.exporter, v)] == [Imported(e.ino, e.exporter, v)];
  }

  /** The importer's news is heard, and then the older news of w. */
  lemma MisledEnd(s: World, w: Wid, v: Wid, ex: Wid, e: Exported) returns (s': World)
    requires w != v && v != ex && w != ex
    requires w in s.up && CanImport(s, v) && w in s.down && ex in s.down && e.exporter == w
    requires s.up[w] == [Imported(e.ino, ex, w)] && s.up[v] == [] && s.down[v] == [Import(e)]
    ensures Runs(s, [WorkerRecv(v)] + ([PrimaryRecv(v)] + ([PrimaryRecv(w)] + [])), s')
    ensures e.ino in s'.loc && s'.loc[e.ino] == Held(v) && OwnerOf(s'.owners, e.ino) == w
    ensures s'.up.Keys == s.up.Keys && s'.up[w] == [] && s'.up[v] == []
    ensures forall x :: x in s.up && x != w && x != v ==> s'.up[x] == s.up[x]
    ensures s'.down.Keys == s.down.Keys && s'.down[v] == []
    ensures s'.down[w] == s.down[w] + [Finished(e.ino)] && s'.down[ex] == s.down[ex] + [Finished(e.ino)]
  {
    ImportIs(s, v);
    ImportedOnly(s, v, e);
    var s3 := Imports(s, v);
    HearIs(s3, v);
    HeardOnly(s3, v, Imported(e.ino, w, v));
    var s4 := Hears(s3, v);
    HearIs(s4, w);
    HeardOnly(s4, w, Imported(e.ino, ex, w));
    s' := Hears(s4, w);
    RunsCons(s4, PrimaryRecv(w), [], s');
    RunsCons(s3, PrimaryRecv(v), [PrimaryRecv(w)] + [], s');
    RunsCons(s, WorkerRecv(v), [PrimaryRecv(v)] + ([PrimaryRecv(w)] + []), s');
  }

  ghost predicate Three(m: map<Wid, seq<Msg>>, q0: seq<Msg>, q1: seq<Msg>, q2: seq<Msg>)
  {
    m.Keys == {0, 1, 2} && m[0] == q0 && m[1] == q1 && m[2] == q2
  }

  /** A relay at worker 1 to worker 2 whose news is heard last. */
  lemma RelayMisleads(s: World, e: Exported) returns (steps: seq<Step>, s': World)
    requires 1 in s.workers && 2 in s.workers && Three(s.up, [], [], []) && Three(s.down, [], [Import(e)], [])
    requires e.exporter == 0
    ensures Runs(s, steps, s') && Three(s'.up, [], [], [])
    ensures steps ==
            [Relay(1, 2)] + ([PrimaryRecv(1)] + ([WorkerRecv(2)] + ([PrimaryRecv(2)] + ([PrimaryRecv(1)] + []))))
    ensures Three(s'.down, [Finished(e.ino)], [Finished(e.ino)], [])
    ensures e.ino in s'.loc && s'.loc[e.ino] == Held(2) && OwnerOf(s'.owners, e.ino) == 1
  {
    var e', s1 := RelayFirst(s, e);
    var s2 := RelaySecond(s1, e', Imported(e.ino, 0, 1));
    s' := MisledEnd(s2, 1, 2, 0, Assign(e'));
    assert [] + [Finished(e.ino)] == [Finished(e.ino)];
    steps := [WorkerRecv(2)] + ([PrimaryRecv(2)] + ([PrimaryRecv(1)] + []));
    RunsCons(s1, PrimaryRecv(1), steps, s');
    RunsCons(s, Relay(1, 2), [PrimaryRecv(1)] + steps, s');
    steps := [Relay(1, 2)] + ([PrimaryRecv(1)] + steps);
  }

  lemma RelayFirst(s: World, e: Exported) returns (e': Exported, s1: World)
    requires 1 in s.workers && 2 in s.workers && Three(s.up, [], [], []) && Three(s.down, [], [Import(e)], [])
    requires e.exporter == 0
    ensures Enabled(s, Relay(1, 2)) && s1 == Next(s, Relay(1, 2)) && 2 in s1.workers
    ensures Three(s1.up, [], [Request(e'), Imported(e.ino, 0, 1)], []) && Three(s1.down, [], [], [])
    ensures e'.ino == e.ino && e'.exporter == 1 && e'.importer == 2
  {
    e' := RelayIs(s, 1, 2);
    s1 := Next(s, Relay(1, 2));
    assert [] + [Request(e')] + [Imported(e.ino, 0, 1)] == [Request(e'), Imported(e.ino, 0, 1)];
  }

  /** The primary forwards the request that came first. */
  lemma RelaySecond(s1: World, e': Exported, news: Msg) returns (s2: World)
    requires 2 in s1.workers && e'.importer == 2
    requires Three(s1.up, [], [Request(e'), news], []) && Three(s1.down, [], [], [])
    ensures Enabled(s1, PrimaryRecv(1)) && s2 == Next(s1, PrimaryRecv(1)) && 2 in s2.workers
    ensures Three(s2.up, [], [news], []) && Three(s2.down, [], [], [Import(Assign(e'))])
  {
    ForwardIs(s1, 1);
    s2 := Forwards(s1, 1);
    assert [Request(e'), news][1..] == [news];
    assert [] + [Import(Assign(e'))] == [Import(Assign(e'))];
  }

  /** An export that the primary forwards: the inode waits in the queue of the worker asked for. */
  lemma Departs(s: World, w: Wid, ino: Ino, to: Wid) returns (e: Exported, s2: World)
    requires Enabled(s, Export(w, ino, to)) && s.up[w] == [] && to in s.down
    ensures Runs(s, [Export(w, ino, to)] + ([PrimaryRecv(w)] + []), s2) && e.ino == ino && e.exporter == w
    ensures s2.up == s.up[w := []] && s2.down == s.down[to := s.down[to] + [Import(e)]]
    ensures s2.workers.Keys == s.workers.Keys && s2.whole == s.whole
  {
    var s1 := Exports(s, w, ino, to);
    var e0 := ExportInode(s.workers[w], w, ino, to).1;
    assert s1.up[w] == [] + [Request(e0)] == [Request(e0)];
    ForwardIs(s1, w);
    s2, e := Forwards(s1, w), Assign(e0);
    assert [Request(e0)][1..] == [];
    RunsCons(s1, PrimaryRecv(w), [], s2);
    RunsCons(s, Export(w, ino, to), [PrimaryRecv(w)] + [], s2);
  }

  /** The worker asked for takes the inode in and the primary hears of it. */
  lemma LandsAt(s: World, to: Wid, e: Exported) returns (s2: World)
    requires to in s.workers && to in s.up && to in s.down && e.exporter in s.down && e.exporter != to
    requires s.up[to] == [] && s.down[to] == [Import(e)]
    ensures Runs(s, [WorkerRecv(to)] + ([PrimaryRecv(to)] + []), s2)
    ensures e.ino in s2.loc && s2.loc[e.ino] == Held(to) && OwnerOf(s2.owners, e.ino) == to
    ensures s2.up == s.up[to := []] && s2.whole == s.whole
    ensures s2.down == s.down[to := []][e.exporter := s.down[e.exporter] + [Finished(e.ino)]]
  {
    var s1 := Imports(s, to);
    ImportIs(s, to);
    ImportedOnly(s, to, e);
    HearIs(s1, to);
    HeardOnly(s1, to, Imported(e.ino, e.exporter, to));
    s2 := Hears(s1, to);
    RunsCons(s1, PrimaryRecv(to), [], s2);
    RunsCons(s, WorkerRecv(to), [PrimaryRecv(to)] + [], s2);
  }

  function Transfer(w: Wid, ino: Ino, to: Wid): (steps: seq<Step>)
  {
    [Export(w, ino, to)] + ([PrimaryRecv(w)] + []) + ([WorkerRecv(to)] + ([PrimaryRecv(to)] + []))
  }

  lemma TransferRuns(s: World, w: Wid, ino: Ino, to: Wid) returns (s': World)
    requires s.up.Keys == s.workers.Keys && s.down.Keys == s.workers.Keys
    requires Enabled(s, Export(w, ino, to)) && s.up[w] == [] && s.up[to] == [] && s.down[to] == []
    ensures Runs(s, Transfer(w, ino, to), s')
    ensures ino in s'.loc && s'.loc[ino] == Held(to) && OwnerOf(s'.owners, ino) == to
    ensures s'.whole == s.whole && s'.up == s.up && s'.down == s.down[w := s.down[w] + [Finished(ino)]]
  {
    var e, s2 := Departs(s, w, ino, to);
    assert [] + [Import(e)] == [Import(e)];
    s' := LandsAt(s2, to, e);
    assert s'.up == s.up && s'.down == s.down[w := s.down[w] + [Finished(ino)]];
    RunsJoin(s, [Export(w, ino, to)] + ([PrimaryRecv(w)] + []), s2, [WorkerRecv(to)] + ([PrimaryRecv(to)] + []), s');
  }

  lemma HeldWhole(s: World, ino: Ino)
    requires HeldOk(s) && ino in s.loc && s.loc[ino].Held?
    ensures var w := s.loc[ino].w;
      w in s.workers && ino in s.workers[w].inodes && ino in s.whole && WholeAt(s.workers[w], ino) == s.whole[ino]
  {
    assert Holds(s, s.loc[ino].w, ino);
  }

  /** An exported inode reaches the worker asked for: once the steps of its messages are done, that
      worker holds it with the marks and descriptors it left with, the owner map names the worker, and
      the old owner is told. */
  lemma TransferLands(s: World, w: Wid, ino: Ino, to: Wid) returns (s': World)
    requires Inv(s) && Enabled(s, Export(w, ino, to)) && s.up[w] == [] && s.up[to] == [] && s.down[to] == []
    ensures Runs(s, Transfer(w, ino, to), s')
    ensures ino in s'.loc && s'.loc[ino] == Held(to) && OwnerOf(s'.owners, ino) == to
    ensures to in s'.workers && ino in s'.workers[to].inodes
    ensures WholeAt(s'.workers[to], ino) == WholeAt(s.workers[w], ino)
    ensures s'.whole == s.whole && s'.up == s.up && s'.down == s.down[w := s.down[w] + [Finished(ino)]]
  {
    assert Holds(s, w, ino);
    s' := TransferRuns(s, w, ino, to);
    RunKeeps(s, Transfer(w, ino, to), s');
    HeldWhole(s, ino);
    HeldWhole(s', ino);
  }

  lemma StartQueues() returns (steps: seq<Step>, e: Exported, s2: World)
    ensures Runs(Start({0, 1, 2}, {7}), steps, s2) && steps == [Export(0, 7, 1)] + ([PrimaryRecv(0)] + [])
    ensures s2.workers.Keys == {0, 1, 2} && e.ino == 7 && e.exporter == 0
    ensures Three(s2.up, [], [], []) && Three(s2.down, [], [Import(e)], [])
  {
    var s0 := Start({0, 1, 2}, {7});
    assert Three(s0.up, [], [], []) && Three(s0.down, [], [], []);
    e, s2 := Departs(s0, 0, 7, 1);
    assert [] + [Import(e)] == [Import(e)];
    steps := [Export(0, 7, 1)] + ([PrimaryRecv(0)] + []);
  }

  lemma JoinCons(a: seq<Step>, b: seq<Step>)
    requires a != []
    ensures a + b == [a[0]] + (a[1..] + b)
  {
  }

  lemma {:induction false} RunsJoin(s: World, a: seq<Step>, s1: World, b: seq<Step>, s2: World)
    requires Runs(s, a, s1) && Runs(s1, b, s2)
    ensures Runs(s, a + b, s2)
    decreases a
  {
    if a == [] {
      assert a + b == b;
    } else {
      RunsJoin(Next(s, a[0]), a[1..], s1, b, s2);
      RunsCons(s, a[0], a[1..] + b, s2);
      JoinCons(a, b);
    }
  }

  /** A run from the start: inode 7 goes from the primary to worker 1, whose callback sends it on to
      worker 2.  In the end worker 2 holds it, no message about it is left, and the owner map names
      worker 1. */
  lemma MisledRun() returns (steps: seq<Step>, s: World)
    ensures Runs(Start({0, 1, 2}, {7}), steps, s)
    ensures steps == [Export(0, 7, 1)] + ([PrimaryRecv(0)] + []) +
      ([Relay(1, 2)] + ([PrimaryRecv(1)] + ([WorkerRecv(2)] + ([PrimaryRecv(2)] + ([PrimaryRecv(1)] + [])))))
    ensures Quiet(s, 7) && 7 in s.loc && s.loc[7] == Held(2) && OwnerOf(s.owners, 7) == 1
  {
    var head, e, s2 := StartQueues();
    var tail;
    tail, s := RelayMisleads(s2, e);
    RunsJoin(Start({0, 1, 2}, {7}), head, s2, tail, s);
    QuietThree(s, 7);
    steps := head + tail;
  }

  lemma QuietThree(s: World, ino: Ino)
    requires Three(s.up, [], [], []) && Three(s.down, [Finished(ino)], [Finished(ino)], [])
    ensures Quiet(s, ino)
  {
  }
}
