/** The per-inode log of extent changes (cfs/include/FsProc__JournalEnabled.h, cfs/src/FsProc_JournalBasic.cc).

    Every block added to or removed from a file is reported by one call of `update_extent`. The log
    does not keep the calls: it keeps, per physical block, one value for the additions and one for
    the deletions, ordered by a 32-bit sequence number. */
module InodeLog {

  import opened NatLists

  const SEQ_MOD: nat := 0x1_0000_0000

  /** One call of `update_extent`; `block` is relative to the first data block. */
  datatype Call = Call(block: nat, offset: nat, num: nat, add: bool, modified: bool)

  datatype Val = Val(seqNo: nat, offset: nat, num: nat, modified: bool)

  datatype Log = Log(seqNo: nat, add: map<nat, Val>, del: map<nat, Val>)

  const EMPTY: Log := Log(0, map[], map[])

  function Side(l: Log, add: bool): (m: map<nat, Val>)
  {
    if add then l.add else l.del
  }

  // ---------------------------------------------------------------- compaction

  function Merged(m: map<nat, Val>, b: nat, ts: nat, c: Call): (r: map<nat, Val>)
  {
    m[b := Val(ts, c.offset, c.num, c.modified || (b in m && m[b].modified))]
  }

  /** `start` is the first data block, so `c.block + start` is the physical block. */
  function Logged(l: Log, start: nat, c: Call): (r: Log)
  {
    var ts := (l.seqNo + 1) % SEQ_MOD;
    if c.add then Log(ts, Merged(l.add, c.block + start, l.seqNo, c), l.del)
    else Log(ts, l.add, Merged(l.del, c.block + start, l.seqNo, c))
  }

  function Compact(start: nat, h: seq<Call>): (l: Log)
  {
    if h == [] then EMPTY else Logged(Compact(start, h[..|h| - 1]), start, h[|h| - 1])
  }

  predicate Hits(start: nat, c: Call, b: nat)
  {
    c.block + start == b
  }

  /** Position of the last call of one kind on a block, -1 if there is none. */
  function Last(start: nat, h: seq<Call>, b: nat, add: bool): (k: int)
    ensures -1 <= k < |h|
    ensures k >= 0 ==> Hits(start, h[k], b) && h[k].add == add
    ensures forall i :: k < i < |h| && Hits(start, h[i], b) ==> h[i].add != add
  {
    if h == [] then -1
    else
      var c := h[|h| - 1];
      if Hits(start, c, b) && c.add == add then |h| - 1 else Last(start, h[..|h| - 1], b, add)
  }

  predicate EverModified(start: nat, h: seq<Call>, b: nat, add: bool)
  {
    exists i :: 0 <= i < |h| && Hits(start, h[i], b) && h[i].add == add && h[i].modified
  }

  /** What the history says about one block and one kind of call. */
  predicate Summary(start: nat, h: seq<Call>, b: nat, add: bool, m: map<nat, Val>)
  {
    var k := Last(start, h, b, add);
    if k < 0 then b !in m
    else b in m && m[b] == Val(k, h[k].offset, h[k].num, EverModified(start, h, b, add))
  }

  lemma SummaryStep(start: nat, h: seq<Call>, c: Call, b: nat, add: bool, m: map<nat, Val>)
    requires Summary(start, h, b, add, m)
    ensures Hits(start, c, b) && c.add == add ==> Summary(start, h + [c], b, add, Merged(m, b, |h|, c))
    ensures !(Hits(start, c, b) && c.add == add) ==> Summary(start, h + [c], b, add, m)
  {
    var h' := h + [c];
    assert h'[..|h'| - 1] == h && h'[|h'| - 1] == c;
    assert forall i :: 0 <= i < |h| ==> h'[i] == h[i];
    assert EverModified(start, h', b, add) <==>
      EverModified(start, h, b, add) || (Hits(start, c, b) && c.add == add && c.modified) by {
      if EverModified(start, h, b, add) {
        var i :| 0 <= i < |h| && Hits(start, h[i], b) && h[i].add == add && h[i].modified;
        assert h'[i] == h[i];
      }
      if Hits(start, c, b) && c.add == add && c.modified {
        assert h'[|h|] == c;
      }
    }
    if Last(start, h, b, add) < 0 {
      assert !EverModified(start, h, b, add);
    }
  }

  /** For every history of at most 2^32 calls the two maps hold, per block and kind, the position,
      offset and length of the last call and whether any call of the kind touched the bitmap. */
  lemma {:induction false} CompactionSummarises(start: nat, h: seq<Call>, b: nat, add: bool)
    requires |h| <= SEQ_MOD
    ensures Summary(start, h, b, add, Side(Compact(start, h), add))
    ensures Compact(start, h).seqNo == |h| % SEQ_MOD
  {
    if h != [] {
      var front, c := h[..|h| - 1], h[|h| - 1];
      CompactionSummarises(start, front, b, add);
      SummaryStep(start, front, c, b, add, Side(Compact(start, front), add));
      assert h == front + [c];
      assert |front| % SEQ_MOD == |front|;
    }
  }

  predicate LastIsAdd(start: nat, h: seq<Call>, b: nat)
  {
    Last(start, h, b, true) > Last(start, h, b, false)
  }

  /** The test `applyChangesTo` makes on the two maps. */
  predicate DelIsNewer(l: Log, b: nat)
  {
    b in l.del && (b !in l.add || l.del[b].seqNo > l.add[b].seqNo)
  }

  /** Comparing sequence numbers tells the kind of the last call on a block. */
  lemma SequenceOrders(start: nat, h: seq<Call>, b: nat)
    requires |h| <= SEQ_MOD
    ensures DelIsNewer(Compact(start, h), b) <==> Last(start, h, b, false) > Last(start, h, b, true)
    ensures b in Compact(start, h).add && !DelIsNewer(Compact(start, h), b) <==> LastIsAdd(start, h, b)
  {
    CompactionSummarises(start, h, b, true);
    CompactionSummarises(start, h, b, false);
    var k := Last(start, h, b, true);
    assert k >= 0 ==> h[k].add;
  }

  // ---------------------------------------------------------------- effect on the bitmap

  /** `blocks_add_or_del` as `applyChangesTo` fills it from the two maps. */
  function Changes(l: Log): (r: map<nat, bool>)
  {
    map b | b in l.add.Keys + l.del.Keys &&
            ((b in l.add && l.add[b].modified) || (DelIsNewer(l, b) && l.del[b].modified))
      :: !(DelIsNewer(l, b) && l.del[b].modified)
  }

  /** The calls replayed one by one, each bitmap-changing call setting or clearing its block. */
  function Replay(start: nat, h: seq<Call>): (r: map<nat, bool>)
  {
    if h == [] then map[]
    else
      var r, c := Replay(start, h[..|h| - 1]), h[|h| - 1];
      if c.modified then r[c.block + start := c.add] else r
  }

  /** Position of the last bitmap-changing call on a block, -1 if there is none. */
  function LastChange(start: nat, h: seq<Call>, b: nat): (k: int)
    ensures -1 <= k < |h|
    ensures k >= 0 ==> Hits(start, h[k], b) && h[k].modified
    ensures forall i :: k < i < |h| && Hits(start, h[i], b) ==> !h[i].modified
  {
    if h == [] then -1
    else
      var c := h[|h| - 1];
      if Hits(start, c, b) && c.modified then |h| - 1 else LastChange(start, h[..|h| - 1], b)
  }

  lemma {:induction false} ReplayIsLastChange(start: nat, h: seq<Call>, b: nat)
    ensures var k := LastChange(start, h, b);
            (b in Replay(start, h) <==> k >= 0) && (k >= 0 ==> Replay(start, h)[b] == h[k].add)
  {
    if h != [] {
      ReplayIsLastChange(start, h[..|h| - 1], b);
    }
  }

  predicate Agrees(m: map<nat, bool>, m': map<nat, bool>, b: nat)
  {
    (b in m <==> b in m') && (b in m ==> m[b] == m'[b])
  }

  /** What a caller must respect: the last bitmap-changing call on the block is of the kind of the
      last call on it, unless that is a deletion and no deletion changed the bitmap. */
  predicate Faithful(start: nat, h: seq<Call>, b: nat)
  {
    var k := LastChange(start, h, b);
    k >= 0 ==>
      || h[k].add == LastIsAdd(start, h, b)
      || (!LastIsAdd(start, h, b) && !EverModified(start, h, b, false))
  }

  lemma ChangeKinds(start: nat, h: seq<Call>, b: nat)
    ensures var k := LastChange(start, h, b);
            && (k < 0 ==> !EverModified(start, h, b, true) && !EverModified(start, h, b, false))
            && (k >= 0 ==> EverModified(start, h, b, h[k].add) && k <= Last(start, h, b, h[k].add))
  {
  }

  /** The compacted log changes a block's bit as the full history does if and only if `Faithful`. */
  lemma ChangesReplayIff(start: nat, h: seq<Call>, b: nat)
    requires |h| <= SEQ_MOD
    ensures Agrees(Changes(Compact(start, h)), Replay(start, h), b) <==> Faithful(start, h, b)
  {
    ReplayIsLastChange(start, h, b);
    ChangeKinds(start, h, b);
    SequenceOrders(start, h, b);
    CompactionSummarises(start, h, b, true);
    CompactionSummarises(start, h, b, false);
  }

  /** An addition that changes the bitmap, then a deletion that does too, then an addition that does
      not (a block that came back by a path without allocation): the clearing is lost. */
  lemma ClearingLost(start: nat, b: nat)
    ensures var h := [Call(b, 0, 1, true, true), Call(b, 0, 1, false, true), Call(b, 0, 1, true, false)];
            && b + start in Replay(start, h) && !Replay(start, h)[b + start]
            && b + start in Changes(Compact(start, h)) && Changes(Compact(start, h))[b + start]
  {
    var h := [Call(b, 0, 1, true, true), Call(b, 0, 1, false, true), Call(b, 0, 1, true, false)];
    var k := LastChange(start, h, b + start);
    assert h[1].modified && Hits(start, h[1], b + start) && !h[2].modified;
    assert k == 1;
    ReplayIsLastChange(start, h, b + start);
    CompactionSummarises(start, h, b + start, true);
    SequenceOrders(start, h, b + start);
    assert Hits(start, h[2], b + start) && Hits(start, h[0], b + start);
  }

  /** The callers' discipline: a deletion always clears the bit, and an addition that leaves the
      bitmap alone only grows an extent that has not just been deleted. */
  predicate Disciplined(start: nat, h: seq<Call>)
  {
    forall i :: 0 <= i < |h| ==> ProperCall(start, h[..i], h[i])
  }

  predicate ProperCall(start: nat, before: seq<Call>, c: Call)
  {
    var b := c.block + start;
    c.modified || (c.add && Last(start, before, b, false) <= Last(start, before, b, true))
  }

  predicate KindsMatch(start: nat, h: seq<Call>, b: nat)
  {
    var k := LastChange(start, h, b);
    k >= 0 ==> h[k].add == LastIsAdd(start, h, b)
  }

  lemma DisciplineStep(start: nat, h: seq<Call>, c: Call, b: nat)
    requires KindsMatch(start, h, b) && ProperCall(start, h, c)
    ensures KindsMatch(start, h + [c], b)
  {
    var h' := h + [c];
    assert h'[..|h'| - 1] == h;
    var a, d, k := Last(start, h, b, true), Last(start, h, b, false), LastChange(start, h, b);
    assert k >= 0 ==> h'[k] == h[k];
    if Hits(start, c, b) && !c.modified {
      assert k >= 0 ==> k <= a || k <= d;
    }
  }

  lemma {:induction false} DisciplineIsFaithful(start: nat, h: seq<Call>, b: nat)
    requires Disciplined(start, h)
    ensures KindsMatch(start, h, b) && Faithful(start, h, b)
  {
    if h != [] {
      var front, c := h[..|h| - 1], h[|h| - 1];
      forall i | 0 <= i < |front| ensures ProperCall(start, front[..i], front[i]) {
        assert front[..i] == h[..i];
      }
      DisciplineIsFaithful(start, front, b);
      assert ProperCall(start, h[..|h| - 1], h[|h| - 1]);
      DisciplineStep(start, front, c, b);
      assert h == front + [c];
    }
  }

  // ---------------------------------------------------------------- the object

  class InodeLogEntry {
    const start: nat
    var extentSeqNo: nat
    var extAdd: map<nat, Val>
    var extDel: map<nat, Val>
    var syncID: nat

    constructor (start: nat, syncID: nat)
      ensures this.start == start && State() == EMPTY && this.syncID == syncID
    {
      this.start, this.syncID := start, syncID;
      extentSeqNo, extAdd, extDel := 0, map[], map[];
    }

    ghost function State(): (l: Log)
      reads this
    {
      Log(extentSeqNo, extAdd, extDel)
    }

    method UpdateExtent(c: Call)
      modifies this
      ensures State() == Logged(old(State()), start, c) && syncID == old(syncID)
    {
      var ts := extentSeqNo;
      var b := c.block + start;
      extentSeqNo := (extentSeqNo + 1) % SEQ_MOD;
      var m := if c.add then extAdd else extDel;
      if b !in m {
        m := m[b := Val(ts, c.offset, c.num, c.modified)];
      } else {
        m := m[b := Val(ts, c.offset, c.num, m[b].modified || c.modified)];
      }
      if c.add {
        extAdd := m;
      } else {
        extDel := m;
      }
    }

    method ApplyAdded(added: seq<nat>) returns (blocks: map<nat, bool>, blockToTs: map<nat, nat>)
      requires Enumerates(added, extAdd.Keys)
      ensures blockToTs.Keys == extAdd.Keys && forall b :: b in extAdd ==> blockToTs[b] == extAdd[b].seqNo
      ensures forall b :: b in blocks <==> b in extAdd && extAdd[b].modified
      ensures forall b :: b in blocks ==> blocks[b]
    {
      blocks, blockToTs := map[], map[];
      for i := 0 to |added|
        invariant blockToTs.Keys == Elems(added[..i]) <= extAdd.Keys
        invariant forall b :: b in blockToTs ==> blockToTs[b] == extAdd[b].seqNo
        invariant forall b :: b in blocks <==> b in blockToTs && extAdd[b].modified
        invariant forall b :: b in blocks ==> blocks[b]
      {
        var b := added[i];
        assert b in Elems(added);
        assert added[..i + 1] == added[..i] + [b];
        blockToTs := blockToTs[b := extAdd[b].seqNo];
        if extAdd[b].modified {
          blocks := blocks[b := true];
        }
      }
      assert added[..|added|] == added;
    }

    ghost predicate Clears(b: nat)
      reads this
    {
      DelIsNewer(State(), b) && extDel[b].modified
    }

    /** `added` and `deleted` are the traversal orders of the two hash maps. */
    method ApplyChanges(added: seq<nat>, deleted: seq<nat>) returns (blocks: map<nat, bool>)
      requires Enumerates(added, extAdd.Keys) && Enumerates(deleted, extDel.Keys)
      ensures blocks == Changes(State())
    {
      var blockToTs;
      blocks, blockToTs := ApplyAdded(added);
      for i := 0 to |deleted|
        invariant forall b ::
          b in blocks <==> (b in extAdd && extAdd[b].modified) || (b in Elems(deleted[..i]) && Clears(b))
        invariant forall b :: b in blocks ==> blocks[b] == !(b in Elems(deleted[..i]) && Clears(b))
      {
        var b := deleted[i];
        assert b in Elems(deleted);
        assert Elems(deleted[..i + 1]) == Elems(deleted[..i]) + {b};
        if b !in blockToTs || extDel[b].seqNo > blockToTs[b] {
          if extDel[b].modified {
            blocks := blocks[b := false];
          }
        }
      }
      assert deleted[..|deleted|] == deleted;
    }

    /** Hands out the blocks to set and to clear, and starts a new log. */
    method OnSuccessfulJournalWrite(added: seq<nat>, deleted: seq<nat>, order: seq<nat>)
      returns (sets: seq<nat>, clears: seq<nat>)
      requires Enumerates(added, extAdd.Keys) && Enumerates(deleted, extDel.Keys)
      requires Enumerates(order, Changes(State()).Keys)
      modifies this
      ensures State() == EMPTY && syncID == old(syncID) + 1
      ensures NoDup(sets + clears)
      ensures forall b :: b in sets <==> b in old(Changes(State())) && old(Changes(State()))[b]
      ensures forall b :: b in clears <==> b in old(Changes(State())) && !old(Changes(State()))[b]
    {
      var blocks := ApplyChanges(added, deleted);
      sets, clears := [], [];
      for i := 0 to |order|
        invariant unchanged(this)
        invariant forall b :: b in sets <==> b in order[..i] && b in blocks && blocks[b]
        invariant forall b :: b in clears <==> b in order[..i] && b in blocks && !blocks[b]
        invariant NoDup(sets) && NoDup(clears)
      {
        var b := order[i];
        assert b in Elems(order);
        assert order[..i + 1] == order[..i] + [b];
        if blocks[b] {
          sets := sets + [b];
        } else {
          clears := clears + [b];
        }
      }
      assert order[..|order|] == order;
      assert forall b :: b in order <==> b in Elems(order);
      NoDupAppend(sets, clears);
      extentSeqNo, extAdd, extDel := 0, map[], map[];
      syncID := syncID + 1;
    }
  }
}
