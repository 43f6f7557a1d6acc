/** Whole runs of a block buffer: what holds after any sequence of its operations, what a flush in
    flight can count on, and concrete runs in which a careless caller breaks the agreement. */
module BufferRuns {
  import opened NatLists
  import opened Options
  import opened BlockBuffers
  import opened BufferTransfer
  import opened BufferFlush

  datatype Op =
    | Get(bno: nat, idx: nat)
    | Rel(bno: nat)
    | Mark(s: Slot, d: bool, idx: nat)
    | Unlinked(i: nat, order: seq<Slot>)
    | Flushed(blocks: seq<nat>)
    | Pick(i: nat, order: seq<Slot>)
    | SplitOut(i: nat)
    | InstallIn(i: nat, moved: map<Slot, Item>, order: seq<Slot>)
    | Inflight(fg: int, bg: bool)

  /** What every caller guarantees: a marked slot is cached, traversal orders are traversals, and
      installed slots are new to the buffer, come from a split, and bring blocks it has not got. A split
      that throws ends the run; `ThrownConsistentIff` says what it leaves. */
  ghost predicate Enabled(b: Buf, op: Op)
  {
    match op
    case Mark(s, _, _) => s in b.lru && s in b.items
    case Unlinked(i, order) => i > 1 && Enumerates(order, SetOf(b.byIndex, i))
    case Pick(i, order) => Visits(b, i, order) && (forall s :: s in order ==> s in b.items)
    case SplitOut(i) => !Split(b, i).Threw?
    case InstallIn(i, moved, order) =>
      && i != 0 && Bundle(i, moved) && moved.Keys !! b.items.Keys && FreshBlocks(b, moved)
      && Enumerates(order, moved.Keys) && (forall s :: s in order ==> s in moved)
    case _ => true
  }

  ghost function Apply(b: Buf, op: Op): (r: Buf)
    requires Structure(b) && Enabled(b, op)
  {
    match op
    case Get(bno, idx) => GetBlock(b, bno, idx).buf
    case Rel(bno) => Release(b, bno).0
    case Mark(s, d, idx) => SetDirty(b, s, d, idx)
    case Unlinked(i, order) => Unlink(b, i, order)
    case Flushed(blocks) => DoFlushDone(b, blocks).0
    case Pick(i, order) => DoFlushByIndex(b, i, order).buf
    case SplitOut(i) => if Split(b, i).Done? then Split(b, i).buf else b
    case InstallIn(i, moved, order) => Install(b, i, moved, order)
    case Inflight(fg, bg) => b.(fgNum := fg, bgSent := bg)
  }

  /** The further conditions, each checkable before the call, under which an operation keeps all
      six structures in agreement. */
  ghost predicate Proper(b: Buf, op: Op)
    requires Structure(b)
  {
    match op
    case Get(bno, idx) => ProperGet(b, bno, idx)
    case Mark(s, d, idx) => s in b.items && (b.items[s].dirty == d || idx == b.items[s].index)
    case InstallIn(i, moved, _) => DirtySlots(moved) == {} || i !in b.dirtyBy
    case SplitOut(i) => i != 0
    case _ => true
  }

  predicate Transfers(op: Op)
  {
    op.SplitOut? || op.InstallIn?
  }

  lemma {:induction false} WashedPlaced(b: Buf, blocks: seq<nat>)
    requires Placed(b)
    ensures Placed(Washed(b, blocks).0) && Washed(b, blocks).0.items.Keys == b.items.Keys
    decreases blocks
  {
    if blocks != [] && blocks[0] in b.cache && b.items[b.cache[blocks[0]]].dirty {
      var s := b.cache[blocks[0]];
      assert s in Elems(b.lru);
      SetDirtyPlaced(b, s, false, b.items[s].index);
      ToBack(b.items.Keys, b.lru, b.free, s);
      assert Wash(b, s).items.Keys == b.items.Keys;
      WashedPlaced(Wash(b, s), blocks[1..]);
    }
  }

  lemma StepPlaced(b: Buf, op: Op)
    requires Placed(b) && Enabled(b, op)
    ensures Placed(Apply(b, op))
    ensures !Transfers(op) ==> Apply(b, op).items.Keys == b.items.Keys
  {
    match op {
      case Get(bno, idx) => GetBlockPlaced(b, bno, idx); GetBlockStructure(b, bno, idx);
      case Rel(bno) => ReleaseKeeps(b, bno);
      case Mark(s, d, idx) => SetDirtyPlaced(b, s, d, idx);
      case Unlinked(i, order) => UnlinkPlaced(b, i, order);
      case Flushed(blocks) => WashedPlaced(b, blocks);
      case Pick(i, order) =>
      case SplitOut(i) => if Split(b, i).Done? { SplitPlaced(b, i); }
      case InstallIn(i, moved, order) => InstallPlaced(b, i, moved, order);
      case Inflight(_, _) =>
    }
  }

  lemma StepConsistent(b: Buf, op: Op)
    requires Consistent(b) && Enabled(b, op) && Proper(b, op)
    ensures Consistent(Apply(b, op))
  {
    match op {
      case Get(bno, idx) => GetBlockConsistentIff(b, bno, idx);
      case Rel(bno) => ReleaseKeeps(b, bno);
      case Mark(s, d, idx) => SetDirtyConsistentIff(b, s, d, idx);
      case Unlinked(i, order) => UnlinkConsistent(b, i, order);
      case Flushed(blocks) => WashedKeeps(b, blocks);
      case Pick(i, order) =>
      case SplitOut(i) => if Split(b, i).Done? { SplitTakesInode(b, i); }
      case InstallIn(i, moved, order) => InstallConsistentIff(b, i, moved, order);
      case Inflight(_, _) =>
    }
  }

  // ---------------------------------------------------------------- runs

  /** b' is reached from b by the operations in order, each enabled when its turn comes. */
  ghost predicate Runs(b: Buf, ops: seq<Op>, b': Buf)
    decreases ops
  {
    if ops == [] then b' == b
    else Structure(b) && Enabled(b, ops[0]) && Runs(Apply(b, ops[0]), ops[1..], b')
  }

  ghost predicate ProperRun(b: Buf, ops: seq<Op>)
    decreases ops
  {
    ops == [] ||
    (Structure(b) && Enabled(b, ops[0]) && Proper(b, ops[0]) && ProperRun(Apply(b, ops[0]), ops[1..]))
  }

  function Iota(n: nat): (q: seq<Slot>)
    ensures |q| == n && forall i :: 0 <= i < n ==> q[i] == i
  {
    seq(n, i => i)
  }

  /** A new buffer: every slot is free. */
  function Init(n: nat): (b: Buf)
  {
    Buf(map s | s in Iota(n) :: Item(0, 0, false, false, Unset, []),
        [], map[], Iota(n), map[], map[], 0, false, 0, 10, 0)
  }

  lemma InitConsistent(n: nat)
    ensures Consistent(Init(n))
  {
    var b := Init(n);
    forall s | s in b.items.Keys ensures s in Elems(b.free) {
      assert b.free[s] == s;
    }
    assert Elems(b.free) == b.items.Keys;
    assert DirtySlots(b.items) == {};
  }

  /** In every run, whatever indexes callers pass: each slot is on exactly one list, the block map
      is exactly the index of the list, and no slot is gained or lost except by a transfer. */
  lemma {:induction false} PlacedRuns(b: Buf, ops: seq<Op>, b': Buf)
    requires Placed(b) && Runs(b, ops, b')
    ensures Placed(b')
    ensures (forall op :: op in ops ==> !Transfers(op)) ==> b'.items.Keys == b.items.Keys
    decreases ops
  {
    if ops != [] {
      StepPlaced(b, ops[0]);
      assert ops == [ops[0]] + ops[1..];
      PlacedRuns(Apply(b, ops[0]), ops[1..], b');
    }
  }

  ghost function SumSizes(m: map<nat, set<Slot>>, keys: set<nat>): (n: nat)
    requires keys <= m.Keys
  {
    if keys == {} then 0 else var k :| k in keys; |m[k]| + SumSizes(m, keys - {k})
  }

  ghost function Listed(items: map<Slot, Item>, m: map<nat, set<Slot>>, keys: set<nat>): (r: set<Slot>)
    requires keys <= m.Keys
  {
    set s | s in items && items[s].index in keys && s in m[items[s].index]
  }

  lemma {:induction false} SumOfDirtySets(items: map<Slot, Item>, m: map<nat, set<Slot>>, keys: set<nat>)
    requires keys <= m.Keys
    requires forall i :: i in m ==> forall s :: s in m[i] ==> s in items && items[s].index == i
    ensures SumSizes(m, keys) == |Listed(items, m, keys)|
  {
    if keys != {} {
      var k :| k in keys && SumSizes(m, keys) == |m[k]| + SumSizes(m, keys - {k});
      SumOfDirtySets(items, m, keys - {k});
      ListedStep(items, m, keys, k);
    }
  }

  lemma ListedStep(items: map<Slot, Item>, m: map<nat, set<Slot>>, keys: set<nat>, k: nat)
    requires keys <= m.Keys && k in keys
    requires forall i :: i in m ==> forall s :: s in m[i] ==> s in items && items[s].index == i
    ensures |Listed(items, m, keys)| == |Listed(items, m, keys - {k})| + |m[k]|
  {
    assert Listed(items, m, keys) == Listed(items, m, keys - {k}) + m[k];
    assert Listed(items, m, keys - {k}) !! m[k];
  }

  /** In every run of proper operations, transfers included, all six structures agree: the dirty
      counter is the number of dirty slots and the sum of the sizes of the dirty sets, so it is
      never negative and the source's throw on a negative count is not reached. */
  lemma {:induction false} ConsistentRuns(b: Buf, ops: seq<Op>, b': Buf)
    requires Consistent(b) && ProperRun(b, ops) && Runs(b, ops, b')
    ensures Consistent(b')
    ensures b'.dirtyNum == |DirtySlots(b'.items)| == SumSizes(b'.dirtyBy, b'.dirtyBy.Keys) >= 0
    decreases ops
  {
    if ops != [] {
      StepConsistent(b, ops[0]);
      ConsistentRuns(Apply(b, ops[0]), ops[1..], b');
    } else {
      SumOfDirtySets(b.items, b.dirtyBy, b.dirtyBy.Keys);
      assert DirtySlots(b.items) == Listed(b.items, b.dirtyBy, b.dirtyBy.Keys);
    }
  }

  // ---------------------------------------------------------------- a flush in flight

  /** The operation leaves the given dirty blocks alone: no other flush, split, unlinked release or
      cleaning touches them.  Everything else may happen to them. */
  ghost predicate Spares(b: Buf, op: Op, blocks: set<nat>)
  {
    match op
    case Mark(s, d, _) => !d ==> s in b.items && b.items[s].blockNo !in blocks
    case Unlinked(i, _) => forall k :: k in blocks && k in b.cache ==> b.cache[k] !in SetOf(b.byIndex, i)
    case SplitOut(i) => forall k :: k in blocks && k in b.cache ==> b.cache[k] !in SetOf(b.byIndex, i)
    case Flushed(done) => Elems(done) !! blocks
    case _ => true
  }

  ghost predicate SparingRun(b: Buf, ops: seq<Op>, blocks: set<nat>)
    decreases ops
  {
    ops == [] ||
    (Structure(b) && Enabled(b, ops[0]) && Spares(b, ops[0], blocks) && SparingRun(Apply(b, ops[0]), ops[1..], blocks))
  }

  /** A dirty block is never the one replaced. */
  lemma GetHolds(b: Buf, bno: nat, idx: nat, blocks: set<nat>)
    requires Consistent(b) && Holding(b, blocks)
    ensures Holding(GetBlock(b, bno, idx).buf, blocks)
  {
    TargetCases(b, bno, idx);
    var t := Target(b, bno);
    if t.Some? {
      var s := t.value;
      var r := Claim(b, s, bno, idx);
      forall k | k in blocks ensures k in r.cache && r.cache[k] in r.items && r.items[r.cache[k]].dirty {
        if bno !in b.cache {
          assert !b.items[s].dirty by {
            if b.free != [] {
              assert b.free[0] in Elems(b.free);
            }
          }
          assert k != bno;
        }
      }
    }
  }

  lemma {:induction false} WashedHolds(b: Buf, done: seq<nat>, blocks: set<nat>)
    requires Consistent(b) && Holding(b, blocks) && Elems(done) !! blocks
    ensures Holding(Washed(b, done).0, blocks)
    decreases done
  {
    if done != [] && done[0] in b.cache && b.items[b.cache[done[0]]].dirty {
      var s := b.cache[done[0]];
      assert done == [done[0]] + done[1..];
      assert done[0] in Elems(done);
      assert s in Elems(b.lru);
      WashKeeps(b, s);
      WashHolding(b, done[0], blocks);
      forall k | k in done[1..] ensures k !in blocks {
        assert k in Elems(done);
      }
      WashedHolds(Wash(b, s), done[1..], blocks);
    }
  }

  lemma InstallHolds(b: Buf, i: nat, moved: map<Slot, Item>, order: seq<Slot>, blocks: set<nat>)
    requires Structure(b) && Enabled(b, InstallIn(i, moved, order)) && Holding(b, blocks)
    ensures Holding(Install(b, i, moved, order), blocks)
  {
    assert forall s :: s in order <==> s in Elems(order);
    AddKeysMaps(b.cache, moved, order);
  }

  lemma UnlinkHolds(b: Buf, i: nat, order: seq<Slot>, blocks: set<nat>)
    requires Structure(b) && Holding(b, blocks)
    requires forall k :: k in blocks && k in b.cache ==> b.cache[k] !in SetOf(b.byIndex, i)
    ensures Holding(Unlink(b, i, order), blocks)
  {
  }

  lemma SplitHolds(b: Buf, i: nat, blocks: set<nat>)
    requires Structure(b) && Holding(b, blocks)
    requires forall k :: k in blocks && k in b.cache ==> b.cache[k] !in SetOf(b.byIndex, i)
    ensures Split(b, i).Done? ==> Holding(Split(b, i).buf, blocks)
  {
  }

  lemma StepHolds(b: Buf, op: Op, blocks: set<nat>)
    requires Consistent(b) && Enabled(b, op) && Holding(b, blocks) && Spares(b, op, blocks)
    ensures Holding(Apply(b, op), blocks)
  {
    match op {
      case Get(bno, idx) => GetHolds(b, bno, idx, blocks);
      case Rel(bno) =>
      case Mark(s, d, idx) =>
      case Unlinked(i, order) => UnlinkHolds(b, i, order, blocks);
      case Flushed(done) => WashedHolds(b, done, blocks);
      case Pick(i, order) =>
      case SplitOut(i) => SplitHolds(b, i, blocks);
      case InstallIn(i, moved, order) => InstallHolds(b, i, moved, order, blocks);
      case Inflight(_, _) =>
    }
  }

  lemma {:induction false} RunHolds(b: Buf, ops: seq<Op>, b': Buf, blocks: set<nat>)
    requires Consistent(b) && ProperRun(b, ops) && Runs(b, ops, b')
    requires Holding(b, blocks) && SparingRun(b, ops, blocks)
    ensures Holding(b', blocks)
    decreases ops
  {
    if ops != [] {
      StepConsistent(b, ops[0]);
      StepHolds(b, ops[0], blocks);
      RunHolds(Apply(b, ops[0]), ops[1..], b', blocks);
    }
  }

  lemma FlushEnds(b: Buf, blocks: seq<nat>, done: seq<nat>)
    requires Consistent(b) && Holding(b, Elems(blocks)) && NoDup(blocks)
    requires NoDup(done) && Elems(done) == Elems(blocks) && (b.bgSent || b.fgNum > 0)
    ensures DoFlushDone(b, done).1 == Ok
    ensures DoFlushDone(b, done).0.dirtyNum == b.dirtyNum - |blocks|
    ensures Consistent(DoFlushDone(b, done).0)
  {
    WashedOkIff(b, done);
    WashedKeeps(b, done);
    EnumerationSize(done);
    EnumerationSize(blocks);
  }

  lemma FlushStarts(b: Buf, i: nat, visit: seq<Slot>)
    requires Consistent(b) && Visits(b, i, visit)
    ensures forall s :: s in visit ==> s in b.items
    ensures var p := DoFlushByIndex(b, i, visit);
      && NoDup(p.blocks) && Consistent(p.buf) && Holding(p.buf, Elems(p.blocks)) && ReqInv(InitReq(p.blocks))
  {
    PickedBlocks(b, i, visit);
    InitReqInv(DoFlushByIndex(b, i, visit).blocks);
  }

  /** The life of a flush.  The blocks a flush of a consistent buffer picks become a request; any
      order of submissions, refusals and completions goes by, and so do any proper operations that
      spare the blocks.  When the request is done, every block was submitted once and has finished;
      handing them to doFlushDone in any order succeeds, lowers the dirty count by exactly their
      number, and keeps the agreement. */
  lemma FlushLife(b: Buf, i: nat, visit: seq<Slot>, evs: seq<Event>, ops: seq<Op>, b': Buf, done: seq<nat>)
    requires Consistent(b) && Visits(b, i, visit) && forall s :: s in visit ==> s in b.items
    requires var p := DoFlushByIndex(b, i, visit);
      && Plausible(InitReq(p.blocks), evs)
      && ProperRun(p.buf, ops) && SparingRun(p.buf, ops, Elems(p.blocks)) && Runs(p.buf, ops, b')
      && NoDup(done) && Elems(done) == PlayAll(InitReq(p.blocks), evs).all
    requires b'.bgSent || b'.fgNum > 0
    ensures var p := DoFlushByIndex(b, i, visit); var r := PlayAll(InitReq(p.blocks), evs);
      && ReqInv(r)
      && (r.Done() ==> r.Finished() == Elems(p.blocks) && Elems(r.log) == Elems(p.blocks))
      && DoFlushDone(b', done).1 == Ok
      && DoFlushDone(b', done).0.dirtyNum == b'.dirtyNum - |p.blocks|
      && Consistent(DoFlushDone(b', done).0)
  {
    var p := DoFlushByIndex(b, i, visit);
    FlushStarts(b, i, visit);
    FlushRequestRuns(InitReq(p.blocks), evs);
    RunHolds(p.buf, ops, b', Elems(p.blocks));
    ConsistentRuns(p.buf, ops, b');
    FlushEnds(b', p.blocks, done);
  }

  // ---------------------------------------------------------------- careless callers

  lemma RunStep(b: Buf, op: Op, ops: seq<Op>, b': Buf)
    requires Structure(b) && Enabled(b, op) && Runs(Apply(b, op), ops, b')
    ensures Runs(b, [op] + ops, b')
  {
    assert ([op] + ops)[1..] == ops;
  }

  /** A buffer with one slot, number 0. */
  function One(item: Item, cached: bool, byIndex: map<nat, set<Slot>>, dirtyBy: map<nat, set<Slot>>,
               dirtyNum: int): (b: Buf)
  {
    if cached then Buf(map[0 := item], [0], map[item.blockNo := 0], [], byIndex, dirtyBy, dirtyNum, false, 1, 10, 0)
    else Buf(map[0 := item], [], map[], [0], byIndex, dirtyBy, dirtyNum, false, 1, 10, 0)
  }

  lemma OneStructure(item: Item, cached: bool, byIndex: map<nat, set<Slot>>, dirtyBy: map<nat, set<Slot>>, n: int)
    ensures Structure(One(item, cached, byIndex, dirtyBy, n))
  {
    assert Elems([0]) == {0} && Elems([]) == {};
    assert map[0 := item].Keys == {0};
  }

  /** A miss under index 2 takes the free slot; it lists it under 2 unless the slot says 2 already. */
  lemma OneGet(item: Item, bno: nat, dirtyBy: map<nat, set<Slot>>, n: int)
    requires item.index == 0 || item.index == 2
    ensures var b := One(item, false, map[], dirtyBy, n);
      Structure(b) && Apply(b, Get(bno, 2)) ==
        One(Item(bno, 2, item.dirty, false, Locked, item.data), true,
            if item.index == 2 then map[] else map[2 := {0}], dirtyBy, n)
  {
    OneStructure(item, false, map[], dirtyBy, n);
    var r := Claim(One(item, false, map[], dirtyBy, n), 0, bno, 2);
    assert r.items == map[0 := Item(bno, 2, item.dirty, false, Locked, item.data)];
    if item.index != 2 {
      assert r.byIndex[2] == {0};
    }
    assert r.byIndex == if item.index == 2 then map[] else map[2 := {0}];
  }

  lemma OneUnlinked(item: Item, dirtyBy: map<nat, set<Slot>>)
    requires !item.dirty && SetOf(dirtyBy, 2) == {}
    ensures var b := One(item, true, map[2 := {0}], dirtyBy, 0);
      Structure(b) && Enabled(b, Unlinked(2, [0])) &&
      Apply(b, Unlinked(2, [0])) == One(item, false, map[], dirtyBy, 0)
  {
    OneStructure(item, true, map[2 := {0}], dirtyBy, 0);
    OneUnlink(item, dirtyBy);
    assert Elems([0]) == {0};
  }

  lemma OneUnlink(item: Item, dirtyBy: map<nat, set<Slot>>)
    requires !item.dirty && SetOf(dirtyBy, 2) == {}
    ensures Unlink(One(item, true, map[2 := {0}], dirtyBy, 0), 2, [0]) == One(item, false, map[], dirtyBy, 0)
  {
    var b := One(item, true, map[2 := {0}], dirtyBy, 0);
    assert SetOf(b.byIndex, 2) == {0};
    assert DirtySlots(b.items) * {0} == {};
    assert Cleared(b.items, {0}) == b.items;
    assert DropKeys(b.cache, {0}) == map[];
    assert Without([0], {0}) == [];
    assert b.byIndex - {2} == map[];
  }

  lemma OneMark(item: Item, byIndex: map<nat, set<Slot>>, n: int)
    requires !item.dirty
    ensures var b := One(item, true, byIndex, map[], n);
      Structure(b) && Enabled(b, Mark(0, true, 2)) &&
      Apply(b, Mark(0, true, 2)) == One(item.(dirty := true), true, byIndex, map[2 := {0}], n + 1)
  {
    OneStructure(item, true, byIndex, map[], n);
    var r := SetDirty(One(item, true, byIndex, map[], n), 0, true, 2);
    assert r.items == map[0 := item.(dirty := true)];
    assert r.dirtyBy[2] == {0};
    assert r.dirtyBy == map[2 := {0}];
  }

  const FRESH := Item(0, 0, false, false, Unset, [])

  /** A new buffer of one slot, with one flush in flight. */
  lemma OneFromStart(ops: seq<Op>, b: Buf)
    requires Runs(One(FRESH, false, map[], map[], 0), ops, b)
    ensures Runs(Init(1), [Inflight(1, false)] + ops, b)
  {
    InitConsistent(1);
    var b1 := Apply(Init(1), Inflight(1, false));
    assert Iota(1) == [0];
    assert b1.items == map[0 := FRESH];
    assert b1 == One(FRESH, false, map[], map[], 0);
    RunStep(Init(1), Inflight(1, false), ops, b);
  }

  /** Inode 2 is unlinked and its number is reused.  The freed slot still carries index 2, so the
      next getBlock under index 2 does not list it, and the assertion in the next unlinked release
      of inode 2 fails. */
  lemma StaleIndexRun() returns (b: Buf)
    ensures Runs(Init(1), [Inflight(1, false)] +
                 ([Get(5, 2)] + ([Unlinked(2, [0])] + ([Get(6, 2)] + ([Mark(0, true, 2)] + [])))), b)
    ensures !UnlinkAssertion(b, 2)
  {
    var v5 := Item(5, 2, false, false, Locked, []);
    var v6 := Item(6, 2, false, false, Locked, []);
    OneGet(FRESH, 5, map[], 0);
    OneUnlinked(v5, map[]);
    OneGet(v5, 6, map[], 0);
    OneMark(v6, map[], 0);
    b := One(v6.(dirty := true), true, map[], map[2 := {0}], 1);
    assert SetOf(b.dirtyBy, 2) == {0} && DirtySlots(b.items) * SetOf(b.byIndex, 2) == {};
    RunStep(One(v6, true, map[], map[], 0), Mark(0, true, 2), [], b);
    RunStep(One(v5, false, map[], map[], 0), Get(6, 2), [Mark(0, true, 2)] + [], b);
    RunStep(One(v5, true, map[2 := {0}], map[], 0), Unlinked(2, [0]), [Get(6, 2)] + ([Mark(0, true, 2)] + []), b);
    RunStep(One(FRESH, false, map[], map[], 0), Get(5, 2),
            [Unlinked(2, [0])] + ([Get(6, 2)] + ([Mark(0, true, 2)] + [])), b);
    OneFromStart([Get(5, 2)] + ([Unlinked(2, [0])] + ([Get(6, 2)] + ([Mark(0, true, 2)] + []))), b);
  }

  lemma OneFlushed(item: Item)
    requires item.dirty && item.index == 2
    ensures var b := One(item, true, map[2 := {0}], map[2 := {0}], 1);
      Structure(b) && DoFlushDone(b, [item.blockNo]) ==
        (One(item.(dirty := false), true, map[2 := {0}], map[2 := {}], 0), Ok)
  {
    OneStructure(item, true, map[2 := {0}], map[2 := {0}], 1);
    var b := One(item, true, map[2 := {0}], map[2 := {0}], 1);
    var w := Wash(b, 0);
    assert w.items == map[0 := item.(dirty := false)];
    assert w.dirtyBy[2] == {};
    assert w.dirtyBy == map[2 := {}];
    assert w.lru == [0];
    assert w == One(item.(dirty := false), true, map[2 := {0}], map[2 := {}], 0);
    var q := [item.blockNo];
    assert q[1..] == [] && b.cache[q[0]] == 0;
    assert Washed(b, q) == Washed(w, q[1..]) == (w, Ok);
  }

  /** A flushed inode leaves an empty entry in the dirty index, and an unlinked release does not
      remove it. */
  lemma LeftoverEntryRun()
    ensures Runs(Init(1), [Inflight(1, false)] +
                 ([Get(5, 2)] + ([Mark(0, true, 2)] + ([Flushed([5])] + ([Unlinked(2, [0])] + [])))),
                 One(Item(5, 2, false, false, Locked, []), false, map[], map[2 := {}], 0))
  {
    var v5 := Item(5, 2, false, false, Locked, []);
    var b := One(v5, false, map[], map[2 := {}], 0);
    OneGet(FRESH, 5, map[], 0);
    OneMark(v5, map[2 := {0}], 0);
    OneFlushed(v5.(dirty := true));
    OneUnlinked(v5, map[2 := {}]);
    RunStep(One(v5, true, map[2 := {0}], map[2 := {}], 0), Unlinked(2, [0]), [], b);
    RunStep(One(v5.(dirty := true), true, map[2 := {0}], map[2 := {0}], 1), Flushed([5]), [Unlinked(2, [0])] + [], b);
    RunStep(One(v5, true, map[2 := {0}], map[], 0), Mark(0, true, 2), [Flushed([5])] + ([Unlinked(2, [0])] + []), b);
    RunStep(One(FRESH, false, map[], map[], 0), Get(5, 2),
            [Mark(0, true, 2)] + ([Flushed([5])] + ([Unlinked(2, [0])] + [])), b);
    OneFromStart([Get(5, 2)] + ([Mark(0, true, 2)] + ([Flushed([5])] + ([Unlinked(2, [0])] + []))), b);
  }

  /** A dirty slot installed later under the same inode is then counted but not indexed: a flush of
      the inode finds nothing although a slot of it is dirty. */
  lemma LeftoverEntryHidesDirty(b: Buf, i: nat, moved: map<Slot, Item>, order: seq<Slot>)
    requires Consistent(b) && Enabled(b, InstallIn(i, moved, order)) && DirtySlots(moved) != {}
    requires i in b.dirtyBy && b.dirtyBy[i] == {} && b.fgNum < b.fgLimit
    ensures var b' := Apply(b, InstallIn(i, moved, order));
      && !Consistent(b') && b'.dirtyNum > b.dirtyNum
      && Visits(b', i, []) && DoFlushByIndex(b', i, []) == Picked(b', true, [])
  {
    InstallConsistentIff(b, i, moved, order);
    HiddenDirty(b, i, moved, order);
  }

  lemma HiddenDirty(b: Buf, i: nat, moved: map<Slot, Item>, order: seq<Slot>)
    requires forall s :: s in order ==> s in moved
    requires DirtySlots(moved) != {} && i != 0
    requires i in b.dirtyBy && b.dirtyBy[i] == {} && b.fgNum < b.fgLimit
    ensures var b' := Install(b, i, moved, order);
      b'.dirtyNum > b.dirtyNum && Visits(b', i, []) && DoFlushByIndex(b', i, []) == Picked(b', true, [])
  {
    assert Elems([]) == {};
  }
}
