/** The block buffer and the flush request as the source writes them: objects whose methods update
    their fields step by step.  Every method is proved to follow the function of the same name on
    the value of the object. */
module BlockBufferImpl {
  import opened NatLists
  import opened Options
  import opened BlockBuffers
  import opened BufferTransfer
  import opened BufferFlush
  import Runs = BufferRuns

  lemma {:induction false} WithoutMore(q: seq<Slot>, ss: set<Slot>, s: Slot)
    requires NoDup(q) && s !in ss
    ensures Remove(Without(q, ss), s) == Without(q, ss + {s})
  {
    if q != [] {
      assert q == [q[0]] + q[1..];
      WithoutMore(q[1..], ss, s);
      var r := Without(q[1..], ss);
      if q[0] == s {
        assert s !in Elems(q[1..]);
        WithoutErases(q[1..], ss);
        WithoutErases(q[1..], ss + {s});
        assert s !in Elems(r);
        RemoveAbsent(r, s);
        assert Without(q, ss) == [s] + r;
        assert Without(q, ss + {s}) == Without(q[1..], ss + {s});
      } else if q[0] in ss {
        assert Without(q, ss) == r;
      } else {
        assert Without(q, ss) == [q[0]] + r;
        assert ([q[0]] + r)[1..] == r;
      }
    }
  }

  function Taken(b: Buf, s: Slot, bno: nat, idx: nat): (r: Buf)
    requires s in b.items
  {
    b.(items := b.items[s := b.items[s].(blockNo := bno, status := Locked, index := idx)],
       cache := b.cache[bno := s],
       byIndex := MoveIndex(b.byIndex, s, b.items[s].index, idx))
  }

  function InFront(b: Buf, s: Slot): (r: Buf)
  {
    b.(lru := [s] + Remove(b.lru, s))
  }

  function Reset(b: Buf, s: Slot): (r: Buf)
    requires s in b.items
  {
    b.(items := b.items[s := b.items[s].(inMem := false)])
  }

  lemma ClaimHitIs(b: Buf, bno: nat, idx: nat)
    requires Structure(b) && bno in b.cache
    ensures b.cache[bno] in b.items
    ensures Claim(b, b.cache[bno], bno, idx) == Taken(InFront(b, b.cache[bno]), b.cache[bno], bno, idx)
  {
    var s := b.cache[bno];
    assert s in Elems(b.lru) && s !in Elems(b.free);
    RemoveAbsent(b.free, s);
    assert b.cache[bno := s] == (b.cache - {bno})[bno := s];
  }

  lemma ClaimFreeIs(b: Buf, bno: nat, idx: nat)
    requires Structure(b) && bno !in b.cache && b.free != []
    ensures b.free[0] in b.items
    ensures Claim(b, b.free[0], bno, idx) ==
            Taken(Reset(b.(free := b.free[1..], lru := [b.free[0]] + b.lru), b.free[0]), b.free[0], bno, idx)
  {
    var s := b.free[0];
    assert s in Elems(b.free);
    RemoveAbsent(b.lru, s);
    var v := b.items[s];
    assert b.items[s := v.(inMem := false)][s := v.(inMem := false, blockNo := bno, status := Locked, index := idx)]
        == b.items[s := v.(inMem := false, blockNo := bno, status := Locked, index := idx)];
  }

  lemma ClaimVictimIs(b: Buf, s: Slot, bno: nat, idx: nat)
    requires Structure(b) && bno !in b.cache && b.free == [] && s in b.lru
    ensures s in b.items
    ensures Claim(b, s, bno, idx) ==
            Taken(Reset(InFront(b.(cache := b.cache - {b.items[s].blockNo}), s), s), s, bno, idx)
  {
    assert s in Elems(b.lru);
    var v := b.items[s];
    assert b.items[s := v.(inMem := false)][s := v.(inMem := false, blockNo := bno, status := Locked, index := idx)]
        == b.items[s := v.(inMem := false, blockNo := bno, status := Locked, index := idx)];
  }

  /** The loop of installBufferItemsOfIndex over the bundle, from a list and a block map. */
  method PushAll(lru0: seq<Slot>, cache0: map<nat, Slot>, moved: map<Slot, Item>, order: seq<Slot>)
    returns (lru: seq<Slot>, cache: map<nat, Slot>, dirtySet: set<Slot>)
    requires Enumerates(order, moved.Keys) && forall s :: s in order ==> s in moved
    ensures lru == Rev(order) + lru0 && cache == AddKeys(cache0, moved, order)
    ensures dirtySet == DirtySlots(moved)
  {
    lru, cache, dirtySet := lru0, cache0, {};
    assert order[..0] == [] && Rev([]) + lru == lru;
    assert DirtySlots(moved) * Elems(order[..0]) == {};
    for k := 0 to |order|
      invariant lru == Rev(order[..k]) + lru0 && cache == AddKeys(cache0, moved, order[..k])
      invariant dirtySet == DirtySlots(moved) * Elems(order[..k])
    {
      var s := order[k];
      NextOf(order, k);
      RevSnoc(order[..k], s);
      AddKeysSnoc(cache0, moved, order[..k], s);
      if moved[s].dirty {
        dirtySet := dirtySet + {s};
      }
      lru := [s] + lru;
      cache := cache[moved[s].blockNo := s];
    }
    assert order[..|order|] == order;
    assert DirtySlots(moved) * Elems(order) == DirtySlots(moved);
  }

  /** The tail of getBlock, reached with the slot already at the front of the list. */
  method TakeSlot(items0: map<Slot, Item>, cache0: map<nat, Slot>, byIndex0: map<nat, set<Slot>>,
                  s: Slot, bno: nat, idx: nat)
    returns (items: map<Slot, Item>, cache: map<nat, Slot>, byIndex: map<nat, set<Slot>>)
    requires s in items0
    ensures items == items0[s := items0[s].(blockNo := bno, status := Locked, index := idx)]
    ensures cache == cache0[bno := s] && byIndex == MoveIndex(byIndex0, s, items0[s].index, idx)
  {
    items, cache, byIndex := items0, cache0, byIndex0;
    var was := items[s].index;
    items := items[s := items[s].(blockNo := bno, status := Locked)];
    cache := cache[bno := s];
    if was != idx {
      if was != 0 {
        byIndex := byIndex[was := SetOf(byIndex, was) - {s}];
      }
      if idx != 0 {
        byIndex := byIndex[idx := SetOf(byIndex, idx) + {s}];
      }
    }
    items := items[s := items[s].(index := idx)];
  }

  /** The loop of splitBufferItemsByIndex: slots leave the list and the block map, up to a locked one. */
  method UncacheAll(items: map<Slot, Item>, lru0: seq<Slot>, cache0: map<nat, Slot>, order: seq<Slot>)
    returns (ok: bool, lru: seq<Slot>, cache: map<nat, Slot>)
    requires NoDup(lru0) && Mapped(items, Elems(lru0), cache0)
    requires NoDup(order) && Elems(order) <= Elems(lru0) && Elems(order) <= items.Keys
    ensures ok <==> NoneLocked(items, order)
    ensures var done := Elems(order[..FirstLocked(items, order)]);
            lru == Without(lru0, done) && cache == DropKeys(cache0, done)
    ensures ok ==> order[..FirstLocked(items, order)] == order
  {
    lru, cache := lru0, cache0;
    UncacheNone(lru0, cache0, order);
    for k := 0 to |order|
      invariant lru == Without(lru0, Elems(order[..k])) && cache == DropKeys(cache0, Elems(order[..k]))
      invariant FirstLocked(items, order) == k + FirstLocked(items, order[k..])
    {
      UncacheNext(items, lru0, cache0, order, k);
      FirstLockedFrom(items, order, k);
      if items[order[k]].status == Locked {
        NoneLockedIff(items, order);
        return false, lru, cache;
      }
      lru := Remove(lru, order[k]);
      cache := cache - {items[order[k]].blockNo};
    }
    NoneLockedIff(items, order);
    assert order[..|order|] == order;
    ok := true;
  }

  method JoinDirtyIndex(dirtyBy0: map<nat, set<Slot>>, dirtyNum0: int, i: nat, dirtySet: set<Slot>)
    returns (dirtyBy: map<nat, set<Slot>>, dirtyNum: int)
    ensures dirtyBy == JoinDirty(dirtyBy0, i, dirtySet) && dirtyNum == dirtyNum0 + |dirtySet|
  {
    dirtyBy, dirtyNum := dirtyBy0, dirtyNum0;
    if |dirtySet| > 0 {
      if i !in dirtyBy {
        dirtyBy := dirtyBy[i := dirtySet];
      }
      dirtyNum := dirtyNum + |dirtySet|;
    }
  }

  method DropDirtyIndex(dirtyBy0: map<nat, set<Slot>>, dirtyNum0: int, i: nat)
    returns (dirtyBy: map<nat, set<Slot>>, dirtyNum: int)
    ensures dirtyNum == dirtyNum0 - |SetOf(dirtyBy0, i)| && dirtyBy == dirtyBy0 - {i}
  {
    dirtyBy, dirtyNum := dirtyBy0, dirtyNum0;
    if i in dirtyBy {
      dirtyNum := dirtyNum - |dirtyBy[i]|;
      dirtyBy := dirtyBy - {i};
    }
  }

  /** A split that is not cut short also takes the slots themselves and the inode's entry. */
  lemma SplitIs(b: Buf, i: nat, order: seq<Slot>)
    requires i in b.byIndex && Enumerates(order, b.byIndex[i]) && !Split(b, i).Threw?
    ensures Split(b, i) == Done(
              Thrown(b, i, Elems(order)).(items := b.items - b.byIndex[i], byIndex := b.byIndex - {i}),
              Restrict(b.items, b.byIndex[i]))
  {
  }

  lemma InstallIs(b: Buf, r: Buf, i: nat, moved: map<Slot, Item>, order: seq<Slot>, dirty: set<Slot>)
    requires Enumerates(order, moved.Keys) && forall s :: s in order ==> s in moved
    requires r.lru == Rev(order) + b.lru && r.cache == AddKeys(b.cache, moved, order) && dirty == DirtySlots(moved)
    requires r.dirtyBy == JoinDirty(b.dirtyBy, i, dirty) && r.dirtyNum == b.dirtyNum + |dirty|
    requires r.items == b.items + moved && r.byIndex == b.byIndex[i := SetOf(b.byIndex, i) + moved.Keys]
    requires r.free == b.free && r.bgSent == b.bgSent && r.fgNum == b.fgNum && r.fgLimit == b.fgLimit
    requires r.oneTimeSubmit == b.oneTimeSubmit
    ensures r == Install(b, i, moved, order)
  {
  }

  class BlockBuffer {
    var items: map<Slot, Item>
    var lru: seq<Slot>
    var cache: map<nat, Slot>
    var free: seq<Slot>
    var byIndex: map<nat, set<Slot>>
    var dirtyBy: map<nat, set<Slot>>
    var dirtyNum: int
    var bgSent: bool
    var fgNum: int
    var fgLimit: int
    var oneTimeSubmit: nat

    ghost function State(): (b: Buf)
      reads this
    {
      Buf(items, lru, cache, free, byIndex, dirtyBy, dirtyNum, bgSent, fgNum, fgLimit, oneTimeSubmit)
    }

    constructor (blockNum: nat)
      ensures State() == Runs.Init(blockNum) && Consistent(State())
    {
      items, lru, cache, free := map[], [], map[], [];
      byIndex, dirtyBy, dirtyNum := map[], map[], 0;
      bgSent, fgNum, fgLimit, oneTimeSubmit := false, 0, 10, 0;
      new;
      for i := 0 to blockNum
        invariant free == Runs.Iota(i) && items == map s | s in Runs.Iota(i) :: Item(0, 0, false, false, Unset, [])
        invariant lru == [] && cache == map[] && byIndex == map[] && dirtyBy == map[] && dirtyNum == 0
        invariant !bgSent && fgNum == 0 && fgLimit == 10 && oneTimeSubmit == 0
      {
        assert Runs.Iota(i + 1) == Runs.Iota(i) + [i];
        items := items[i := Item(0, 0, false, false, Unset, [])];
        free := free + [i];
      }
      Runs.InitConsistent(blockNum);
    }

    /** The scan of getBlock for a slot to replace, from the back of the list. */
    method FindVictim() returns (last: int, hasDirty: bool)
      requires Structure(State()) && lru != []
      ensures last == Victim(State(), |lru|) && hasDirty == PassedLockedDirty(State(), last)
    {
      last, hasDirty := |lru| - 1, false;
      while last >= 0
        invariant -1 <= last < |lru|
        invariant Victim(State(), |lru|) == Victim(State(), last + 1)
        invariant hasDirty <==> PassedLockedDirty(State(), last)
      {
        assert lru[last] in Elems(lru);
        if items[lru[last]].status != Locked {
          if !items[lru[last]].dirty {
            return;
          }
        } else if !hasDirty && items[lru[last]].dirty {
          hasDirty := true;
        }
        last := last - 1;
      }
    }

    method ClaimHit(bno: nat, idx: nat)
      requires Structure(State()) && bno in cache
      modifies this
      ensures State() == Claim(old(State()), old(cache[bno]), bno, idx)
    {
      ClaimHitIs(State(), bno, idx);
      var s := cache[bno];
      lru := [s] + Remove(lru, s);
      items, cache, byIndex := TakeSlot(items, cache, byIndex, s, bno, idx);
    }

    method ClaimFree(bno: nat, idx: nat)
      requires Structure(State()) && bno !in cache && free != []
      modifies this
      ensures State() == Claim(old(State()), old(free[0]), bno, idx)
    {
      ClaimFreeIs(State(), bno, idx);
      var s := free[0];
      free := free[1..];
      lru := [s] + lru;
      items := items[s := items[s].(inMem := false)];
      items, cache, byIndex := TakeSlot(items, cache, byIndex, s, bno, idx);
    }

    method ClaimVictim(s: Slot, bno: nat, idx: nat)
      requires Structure(State()) && bno !in cache && free == [] && s in lru
      modifies this
      ensures State() == Claim(old(State()), s, bno, idx)
    {
      ClaimVictimIs(State(), s, bno, idx);
      cache := cache - {items[s].blockNo};
      lru := [s] + Remove(lru, s);
      items := items[s := items[s].(inMem := false)];
      items, cache, byIndex := TakeSlot(items, cache, byIndex, s, bno, idx);
    }

    method GetBlock(bno: nat, idx: nat) returns (slot: Option<Slot>, grabbed: int, hasDirty: bool, threw: bool)
      requires Structure(State())
      modifies this
      ensures GetResult(State(), slot, grabbed, hasDirty, threw) == BlockBuffers.GetBlock(old(State()), bno, idx)
    {
      slot, grabbed, hasDirty, threw := None, -1, false, false;
      if bno in cache {
        slot := Some(cache[bno]);
        if items[cache[bno]].status == Locked {
          grabbed := 0;
        } else {
          grabbed := 1;
          ClaimHit(bno, idx);
        }
      } else if free != [] {
        slot, grabbed := Some(free[0]), 1;
        ClaimFree(bno, idx);
      } else if lru != [] {
        var last;
        last, hasDirty := FindVictim();
        if last == -1 {
          threw := true;
        } else {
          slot, grabbed := Some(lru[last]), 1;
          ClaimVictim(lru[last], bno, idx);
        }
      }
    }

    method ReleaseBlock(bno: nat) returns (rc: int)
      requires Structure(State())
      modifies this`items
      ensures (State(), rc) == Release(old(State()), bno)
    {
      rc := -1;
      if bno in cache && items[cache[bno]].status == Locked {
        items := items[cache[bno] := items[cache[bno]].(status := Valid)];
        rc := 1;
      }
    }

    /** Returns the old flag, and whether the counter went negative. */
    method SetItemDirty(s: Slot, d: bool, idx: nat) returns (orig: bool, threw: bool)
      requires s in items
      modifies this`items, this`dirtyNum, this`dirtyBy
      ensures State() == SetDirty(old(State()), s, d, idx)
      ensures orig == old(items[s].dirty) && (threw <==> orig && !d && dirtyNum < 0)
      ensures old(Consistent(State())) ==> !threw
    {
      orig, threw := items[s].dirty, false;
      items := items[s := items[s].(dirty := d)];
      if orig != d {
        if orig {
          if Consistent(old(State())) {
            assert s in DirtySlots(old(items));
          }
          dirtyNum := dirtyNum - 1;
          threw := dirtyNum < 0;
          dirtyBy := dirtyBy[idx := SetOf(dirtyBy, idx) - {s}];
        } else {
          dirtyNum := dirtyNum + 1;
          dirtyBy := dirtyBy[idx := SetOf(dirtyBy, idx) + {s}];
        }
      }
    }

    /** One slot of an unlinked inode goes back to the free list. */
    method FreeSlot(s: Slot) returns (orig: bool)
      requires s in items
      modifies this
      ensures orig == old(items[s].dirty) && State() == SlotFreed(old(State()), s)
    {
      orig := items[s].dirty;
      items := items[s := items[s].(dirty := false)];
      if orig {
        dirtyNum := dirtyNum - 1;
      }
      lru := Remove(lru, s);
      cache := cache - {items[s].blockNo};
      free := free + [s];
    }

    method FreeAll(order: seq<Slot>) returns (numActual: nat)
      requires NoDup(lru) && Mapped(items, Elems(lru), cache)
      requires NoDup(order) && Elems(order) <= Elems(lru) && Elems(order) <= items.Keys
      modifies this
      ensures State() == PartUnlinked(old(State()), order)
      ensures numActual == |DirtySlots(old(items)) * Elems(order)|
    {
      ghost var b := State();
      numActual := 0;
      PartStart(b, order);
      for k := 0 to |order|
        invariant State() == PartUnlinked(b, order[..k]) && numActual == b.dirtyNum - dirtyNum
      {
        PartNext(b, order, k);
        var orig := FreeSlot(order[k]);
        if orig {
          numActual := numActual + 1;
        }
      }
      assert order[..|order|] == order;
    }

    /** `order` is the traversal order of the inode's hash set.  `holds` is the source's assertion. */
    method ReleaseUnlinkedInodeDirtyBlocks(i: nat, order: seq<Slot>) returns (holds: bool)
      requires Placed(State()) && i > 1 && Enumerates(order, SetOf(byIndex, i))
      modifies this
      ensures State() == Unlink(old(State()), i, order)
      ensures holds == old(UnlinkAssertion(State(), i))
    {
      ListedAreCached(State(), i);
      UnlinkIs(State(), i, order);
      var numDirty := |SetOf(dirtyBy, i)|;
      var numActual := FreeAll(order);
      byIndex := byIndex - {i};
      if numDirty > 0 {
        dirtyBy := dirtyBy - {i};
      }
      holds := numDirty == numActual;
    }

    /** The part of a split that a locked slot can cut short. */
    method UncacheInode(i: nat, order: seq<Slot>) returns (ok: bool)
      requires NoDup(lru) && Mapped(items, Elems(lru), cache)
      requires NoDup(order) && Elems(order) <= Elems(lru) && Elems(order) <= items.Keys
      modifies this`lru, this`cache, this`dirtyBy, this`dirtyNum
      ensures ok <==> NoneLocked(items, order)
      ensures State() == Thrown(old(State()), i, Elems(order[..FirstLocked(items, order)]))
      ensures ok ==> order[..FirstLocked(items, order)] == order
    {
      dirtyBy, dirtyNum := DropDirtyIndex(dirtyBy, dirtyNum, i);
      ok, lru, cache := UncacheAll(items, lru, cache, order);
    }

    /** Moves the slots of an inode out.  On a locked slot the source throws out of the loop with
        the list half edited. */
    method SplitBufferItemsByIndex(i: nat, order: seq<Slot>) returns (r: SplitResult)
      requires NoDup(lru) && Mapped(items, Elems(lru), cache)
      requires Enumerates(order, SetOf(byIndex, i)) && Elems(order) <= Elems(lru) && Elems(order) <= items.Keys
      modifies this
      ensures r == Split(old(State()), i)
      ensures r.NotFound? ==> State() == old(State())
      ensures r.Done? ==> State() == r.buf
      ensures r.Threw? ==> State() == Thrown(old(State()), i, Elems(order[..FirstLocked(old(items), order)]))
    {
      if i !in byIndex {
        return NotFound;
      }
      ghost var b := State();
      SplitCases(b, i, order);
      var ss := byIndex[i];
      var ok := UncacheInode(i, order);
      if !ok {
        return Threw;
      }
      SplitIs(b, i, order);
      var moved := Restrict(items, ss);
      items := items - ss;
      byIndex := byIndex - {i};
      return Done(
        Buf(items, lru, cache, free, byIndex, dirtyBy, dirtyNum, bgSent, fgNum, fgLimit, oneTimeSubmit),
        moved);
    }

    /** Installs a bundle; `order` is the traversal order of the set. */
    method InstallBufferItemsOfIndex(i: nat, moved: map<Slot, Item>, order: seq<Slot>)
      requires Enumerates(order, moved.Keys) && forall s :: s in order ==> s in moved
      modifies this
      ensures State() == Install(old(State()), i, moved, order)
    {
      ghost var b := State();
      var dirtySet;
      lru, cache, dirtySet := PushAll(lru, cache, moved, order);
      dirtyBy, dirtyNum := JoinDirtyIndex(dirtyBy, dirtyNum, i, dirtySet);
      items, byIndex := items + moved, byIndex[i := SetOf(byIndex, i) + moved.Keys];
      InstallIs(b, State(), i, moved, order, dirtySet);
    }

    method DoFlushByIndex(index: nat, order: seq<Slot>) returns (canFlush: bool, blocks: seq<nat>)
      requires forall s :: s in order ==> s in items
      modifies this`bgSent
      ensures Picked(State(), canFlush, blocks) == BufferFlush.DoFlushByIndex(old(State()), index, order)
    {
      canFlush, blocks := true, [];
      if fgNum >= fgLimit {
        canFlush := false;
      } else {
        var k := 0;
        while k < |order|
          invariant 0 <= k <= |order| && blocks == BlockNos(items, order[..k])
          invariant index == 0 ==> k == 0 || k < oneTimeSubmit
        {
          blocks := blocks + [items[order[k]].blockNo];
          k := k + 1;
          assert order[..k] == order[..k - 1] + [order[k - 1]];
          if index == 0 && k >= oneTimeSubmit {
            break;
          }
        }
        assert order[..|order|] == order;
        if index == 0 && blocks != [] {
          bgSent := true;
        }
      }
    }

    method DoFlushDone(blocks: seq<nat>) returns (rc: FlushRc)
      requires Structure(State())
      modifies this
      ensures (State(), rc) == BufferFlush.DoFlushDone(old(State()), blocks)
    {
      if !bgSent && fgNum <= 0 {
        return NotSent;
      }
      for k := 0 to |blocks|
        invariant Washed(old(State()), blocks) == Washed(State(), blocks[k..])
      {
        var bno := blocks[k];
        assert blocks[k..][1..] == blocks[k + 1..];
        if bno !in cache || cache[bno] !in items {
          return Missing;
        }
        var s := cache[bno];
        if !items[s].dirty {
          return NotDirty;
        }
        WashSlot(s);
      }
      return Ok;
    }

    method WashSlot(s: Slot)
      requires s in items && items[s].dirty
      modifies this
      ensures State() == Wash(old(State()), s)
    {
      items := items[s := items[s].(dirty := false)];
      dirtyNum := dirtyNum - 1;
      dirtyBy := dirtyBy[items[s].index := SetOf(dirtyBy, items[s].index) - {s}];
      lru := Remove(lru, s) + [s];
    }
  }

  /** A flush request in flight. */
  class BufferFlushReq {
    var all: set<nat>
    var toSubmit: seq<nat>
    var submitted: set<nat>
    ghost var log: seq<nat>

    ghost function Value(): (r: Req)
      reads this
    {
      Req(all, toSubmit, submitted, log)
    }

    /** initFlushReqs: -1 on a repeated block. */
    constructor (blocks: seq<nat>)
      requires NoDup(blocks)
      ensures Value() == InitReq(blocks) && ReqInv(Value())
    {
      all, toSubmit, submitted, log := Elems(blocks), blocks, {}, [];
      new;
      InitReqInv(blocks);
    }

    /** `accepts` is how many submissions the device takes before it refuses one. */
    method SubmitFlushReqs(accepts: nat) returns (numSubmit: nat)
      requires ReqInv(Value())
      modifies this
      ensures Value() == Submit(old(Value()), accepts) && ReqInv(Value())
      ensures numSubmit == |old(toSubmit)| - |toSubmit| == Goes(old(Value()), accepts)
    {
      SubmitKeeps(Value(), accepts);
      SubmitCount(Value(), accepts);
      numSubmit := 0;
      while toSubmit != []
        invariant numSubmit <= accepts && numSubmit == |old(toSubmit)| - |toSubmit|
        invariant Submit(old(Value()), accepts) == Submit(Value(), accepts - numSubmit)
        decreases toSubmit
      {
        if |submitted| > MAX_SUBMIT_BATCH || numSubmit == accepts {
          break;
        }
        var bno := toSubmit[0];
        numSubmit := numSubmit + 1;
        toSubmit := toSubmit[1..];
        submitted := submitted + {bno};
        log := log + [bno];
      }
    }

    method BlockReqFinished(bno: nat)
      requires ReqInv(Value()) && bno in submitted
      modifies this
      ensures Value() == Finish(old(Value()), bno) && ReqInv(Value())
      ensures Value().Finished() == old(Value()).Finished() + {bno}
    {
      ghost var r := Value();
      submitted := submitted - {bno};
      if toSubmit != [] {
        var next := toSubmit[0];
        toSubmit := toSubmit[1..];
        submitted := submitted + {next};
        log := log + [next];
      }
      assert Value() == Finish(r, bno);
      FinishKeeps(r, bno);
    }
  }

  lemma {:induction false} RevSnoc(q: seq<Slot>, s: Slot)
    ensures Rev(q + [s]) == [s] + Rev(q)
  {
    if q == [] {
      assert q + [s] == [s] && [s][1..] == [];
    } else {
      assert (q + [s])[1..] == q[1..] + [s];
      RevSnoc(q[1..], s);
    }
  }

  lemma {:induction false} AddKeysSnoc(cache: map<nat, Slot>, moved: map<Slot, Item>, q: seq<Slot>, s: Slot)
    requires s in moved && forall x :: x in q ==> x in moved
    ensures AddKeys(cache, moved, q + [s]) == AddKeys(cache, moved, q)[moved[s].blockNo := s]
    decreases q
  {
    if q == [] {
      assert q + [s] == [s] && [s][1..] == [];
    } else {
      assert (q + [s])[1..] == q[1..] + [s];
      AddKeysSnoc(cache[moved[q[0]].blockNo := q[0]], moved, q[1..], s);
    }
  }

  predicate NoneLocked(items: map<Slot, Item>, order: seq<Slot>)
  {
    forall j :: 0 <= j < |order| ==> order[j] in items && items[order[j]].status != Locked
  }

  /** How many slots a traversal passes before it meets a locked one. */
  function FirstLocked(items: map<Slot, Item>, order: seq<Slot>): (k: nat)
    ensures k <= |order|
  {
    if order == [] || (order[0] in items && items[order[0]].status == Locked) then 0
    else 1 + FirstLocked(items, order[1..])
  }

  lemma FirstLockedFrom(items: map<Slot, Item>, order: seq<Slot>, k: nat)
    requires k < |order| && order[k] in items
    ensures FirstLocked(items, order[k..]) ==
            if items[order[k]].status == Locked then 0 else 1 + FirstLocked(items, order[k + 1..])
  {
    assert order[k..][1..] == order[k + 1..];
  }

  lemma {:induction false} NoneLockedIff(items: map<Slot, Item>, order: seq<Slot>)
    requires Elems(order) <= items.Keys
    ensures NoneLocked(items, order) <==> FirstLocked(items, order) == |order|
    decreases order
  {
    if order != [] {
      assert order[0] in Elems(order);
      assert forall j :: 0 <= j < |order| - 1 ==> order[1..][j] == order[j + 1];
      assert Elems(order[1..]) <= Elems(order);
      NoneLockedIff(items, order[1..]);
    }
  }

  lemma UncacheNone(lru: seq<Slot>, cache: map<nat, Slot>, order: seq<Slot>)
    ensures Without(lru, Elems(order[..0])) == lru && DropKeys(cache, Elems(order[..0])) == cache && order[0..] == order
  {
    WithoutNothing(lru);
    assert Elems(order[..0]) == {};
  }

  lemma SplitCases(b: Buf, i: nat, order: seq<Slot>)
    requires i in b.byIndex && Enumerates(order, b.byIndex[i]) && Elems(order) <= b.items.Keys
    ensures Split(b, i).Threw? <==> !NoneLocked(b.items, order)
  {
    forall j | 0 <= j < |order| ensures order[j] in b.items && order[j] in b.byIndex[i] {
      assert order[j] in Elems(order);
    }
    forall s | s in b.byIndex[i] ensures s in order {
      assert s in Elems(order);
    }
  }

  lemma UncacheNext(items: map<Slot, Item>, lru: seq<Slot>, cache: map<nat, Slot>, order: seq<Slot>, k: nat)
    requires NoDup(lru) && Mapped(items, Elems(lru), cache)
    requires NoDup(order) && Elems(order) <= Elems(lru) && Elems(order) <= items.Keys && k < |order|
    ensures order[k] in items && order[..k + 1] == order[..k] + [order[k]]
    ensures Remove(Without(lru, Elems(order[..k])), order[k]) == Without(lru, Elems(order[..k + 1]))
    ensures DropKeys(cache, Elems(order[..k])) - {items[order[k]].blockNo} == DropKeys(cache, Elems(order[..k + 1]))
  {
    assert order[k] in Elems(order);
    NextOf(order, k);
    WithoutMore(lru, Elems(order[..k]), order[k]);
    DropMore(items, Elems(lru), cache, Elems(order[..k]), order[k]);
  }

  lemma ListedAreCached(b: Buf, i: nat)
    requires Placed(b)
    ensures SetOf(b.byIndex, i) <= Elems(b.lru) && SetOf(b.byIndex, i) <= b.items.Keys
  {
  }

  function SlotFreed(b: Buf, s: Slot): (r: Buf)
    requires s in b.items
  {
    b.(items := b.items[s := b.items[s].(dirty := false)],
       dirtyNum := b.dirtyNum - (if b.items[s].dirty then 1 else 0),
       lru := Remove(b.lru, s), cache := b.cache - {b.items[s].blockNo}, free := b.free + [s])
  }

  /** The state after the slots of `done` have been freed. */
  function PartUnlinked(b: Buf, done: seq<Slot>): (r: Buf)
  {
    b.(items := Cleared(b.items, Elems(done)),
       lru := Without(b.lru, Elems(done)),
       cache := DropKeys(b.cache, Elems(done)),
       free := b.free + done,
       dirtyNum := b.dirtyNum - |DirtySlots(b.items) * Elems(done)|)
  }

  lemma UnlinkIs(b: Buf, i: nat, order: seq<Slot>)
    requires Enumerates(order, SetOf(b.byIndex, i))
    ensures Unlink(b, i, order) ==
            PartUnlinked(b, order).(byIndex := b.byIndex - {i}, dirtyBy := ForgetDirty(b.dirtyBy, i))
    ensures UnlinkAssertion(b, i) <==> |SetOf(b.dirtyBy, i)| == |DirtySlots(b.items) * Elems(order)|
    ensures SetOf(b.dirtyBy, i) != {} <==> |SetOf(b.dirtyBy, i)| > 0
  {
  }

  lemma PartStart(b: Buf, order: seq<Slot>)
    ensures PartUnlinked(b, order[..0]) == b
  {
    WithoutNothing(b.lru);
    assert order[..0] == [] && Elems([]) == {};
    assert DropKeys(b.cache, {}) == b.cache && Cleared(b.items, {}) == b.items;
    assert DirtySlots(b.items) * {} == {};
  }

  lemma PartNext(b: Buf, order: seq<Slot>, k: nat)
    requires NoDup(b.lru) && Mapped(b.items, Elems(b.lru), b.cache)
    requires NoDup(order) && Elems(order) <= Elems(b.lru) && Elems(order) <= b.items.Keys && k < |order|
    ensures order[k] in b.items && order[k] in PartUnlinked(b, order[..k]).items
    ensures PartUnlinked(b, order[..k]).items[order[k]] == b.items[order[k]]
    ensures PartUnlinked(b, order[..k + 1]) == SlotFreed(PartUnlinked(b, order[..k]), order[k])
  {
    assert order[k] in Elems(order);
    NextOf(order, k);
    PartMore(b, order[..k], order[k]);
  }

  lemma PartMore(b: Buf, done: seq<Slot>, s: Slot)
    requires NoDup(b.lru) && Mapped(b.items, Elems(b.lru), b.cache)
    requires s in b.items && s in Elems(b.lru) && s !in Elems(done) && Elems(done + [s]) == Elems(done) + {s}
    ensures s in Cleared(b.items, Elems(done)) && Cleared(b.items, Elems(done))[s] == b.items[s]
    ensures PartUnlinked(b, done + [s]) == SlotFreed(PartUnlinked(b, done), s)
  {
    WithoutMore(b.lru, Elems(done), s);
    DropMore(b.items, Elems(b.lru), b.cache, Elems(done), s);
    CountMore(b.items, Elems(done), s);
    assert b.free + (done + [s]) == b.free + done + [s];
  }

  lemma CountMore(items: map<Slot, Item>, done: set<Slot>, s: Slot)
    requires s in items && s !in done
    ensures |DirtySlots(items) * (done + {s})| == |DirtySlots(items) * done| + (if items[s].dirty then 1 else 0)
  {
    if items[s].dirty {
      assert DirtySlots(items) * (done + {s}) == DirtySlots(items) * done + {s};
    } else {
      assert DirtySlots(items) * (done + {s}) == DirtySlots(items) * done;
    }
  }

  lemma NextOf(order: seq<Slot>, k: nat)
    requires NoDup(order) && k < |order|
    ensures order[..k + 1] == order[..k] + [order[k]]
    ensures Elems(order[..k + 1]) == Elems(order[..k]) + {order[k]} && order[k] !in Elems(order[..k])
  {
    assert order[..k + 1] == order[..k] + [order[k]];
  }

  /** One more slot taken off: its block number leaves the map, its dirty flag is cleared. */
  lemma DropMore(items: map<Slot, Item>, cached: set<Slot>, cache: map<nat, Slot>, ss: set<Slot>, s: Slot)
    requires Mapped(items, cached, cache) && s in cached && s in items && s !in ss
    ensures DropKeys(cache, ss) - {items[s].blockNo} == DropKeys(cache, ss + {s})
    ensures s in Cleared(items, ss) && Cleared(items, ss)[s] == items[s]
    ensures Cleared(items, ss)[s := items[s].(dirty := false)] == Cleared(items, ss + {s})
  {
  }
}
