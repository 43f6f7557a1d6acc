/** The slot cache of a worker (`BlockBuffer`): an LRU list, a block map, a free list, a
    per-inode index, a per-inode dirty index and a dirty counter over shared slot objects.

    `Buf` is the value of a buffer; each operation of the source is a function on `Buf`.
    The class in BlockBufferImpl.dfy runs the operations in place and is proved to follow
    these functions.  A `std::list` iterator is represented by the slot it points at, which is
    sound because a slot occurs at most once on the list (`Structure`).  Hash containers are
    traversed in an order the program does not choose: that order is a parameter. */
module BlockBuffers {
  import opened NatLists
  import opened Options

  datatype Status = Unset | Valid | Locked

  /** The fields of a slot that travel with it. */
  datatype Item = Item(blockNo: nat, index: nat, dirty: bool, inMem: bool, status: Status, data: seq<bv8>)

  /** The address of a slot.  The fields of the slot are owned by the buffer that holds it. */
  type Slot = nat

  datatype Buf = Buf(
    items: map<Slot, Item>,
    lru: seq<Slot>,                 // most recently used first
    cache: map<nat, Slot>,          // block number -> place on the list
    free: seq<Slot>,
    byIndex: map<nat, set<Slot>>,   // blockIndexMap_
    dirtyBy: map<nat, set<Slot>>,   // dirtyIndexMap_
    dirtyNum: int,
    bgSent: bool,
    fgNum: int,
    fgLimit: int,
    oneTimeSubmit: nat)

  // ---------------------------------------------------------------- sequences as lists

  function Remove(q: seq<Slot>, s: Slot): (r: seq<Slot>)
  {
    if q == [] then [] else if q[0] == s then q[1..] else [q[0]] + Remove(q[1..], s)
  }

  lemma {:induction false} RemoveIsErase(q: seq<Slot>, s: Slot)
    requires NoDup(q)
    ensures NoDup(Remove(q, s)) && s !in Remove(q, s)
    ensures Elems(Remove(q, s)) == Elems(q) - {s}
    ensures |Remove(q, s)| == if s in q then |q| - 1 else |q|
  {
    if q != [] {
      assert q == [q[0]] + q[1..];
      RemoveIsErase(q[1..], s);
      assert q[0] !in q[1..];
      if q[0] != s {
        var r := Remove(q[1..], s);
        assert q[0] !in Elems(r);
        assert Elems([q[0]] + r) == {q[0]} + Elems(r);
      }
      assert Elems(q) == {q[0]} + Elems(q[1..]);
    }
  }

  /** The others keep their order. */
  lemma {:induction false} RemoveAt(q: seq<Slot>, k: nat)
    requires NoDup(q) && k < |q|
    ensures Remove(q, q[k]) == q[..k] + q[k + 1..]
  {
    if k > 0 {
      var tail := q[1..];
      assert tail[k - 1] == q[k] && q[0] != q[k];
      RemoveAt(tail, k - 1);
      var l, r := tail[..k - 1], tail[k..];
      assert q[..k] == [q[0]] + l && q[k + 1..] == r;
      assert [q[0]] + (l + r) == ([q[0]] + l) + r;
    }
  }

  lemma {:induction false} RemoveAbsent(q: seq<Slot>, s: Slot)
    requires s !in q
    ensures Remove(q, s) == q
  {
    if q != [] {
      RemoveAbsent(q[1..], s);
    }
  }

  lemma FrontIsErase(q: seq<Slot>, s: Slot)
    requires NoDup(q)
    ensures NoDup([s] + Remove(q, s))
    ensures Elems([s] + Remove(q, s)) == Elems(q) + {s}
  {
    RemoveIsErase(q, s);
    assert Elems([s] + Remove(q, s)) == {s} + Elems(Remove(q, s));
  }

  // ---------------------------------------------------------------- what must agree

  /** Every slot is on exactly one of the two lists. */
  ghost predicate Lists(slots: set<Slot>, lru: seq<Slot>, free: seq<Slot>)
  {
    && NoDup(lru)
    && NoDup(free)
    && Elems(lru) !! Elems(free)
    && Elems(lru) + Elems(free) == slots
  }

  /** The block map is exactly the index of the cached slots by current block number. */
  ghost predicate Mapped(items: map<Slot, Item>, cached: set<Slot>, cache: map<nat, Slot>)
  {
    && (forall s :: s in cached ==> s in items && items[s].blockNo in cache && cache[items[s].blockNo] == s)
    && (forall k :: k in cache ==> cache[k] in cached && cache[k] in items && items[cache[k]].blockNo == k)
  }

  ghost predicate Structure(b: Buf)
  {
    Lists(b.items.Keys, b.lru, b.free) && Mapped(b.items, Elems(b.lru), b.cache)
  }

  /** Whatever the inode index lists is cached under that inode. */
  ghost predicate IndexSound(items: map<Slot, Item>, cached: set<Slot>, byIndex: map<nat, set<Slot>>)
  {
    forall i :: i in byIndex ==>
      i != 0 && (forall s :: s in byIndex[i] ==> s in cached && s in items && items[s].index == i)
  }

  /** Whatever is cached under an inode is listed by the inode index. */
  ghost predicate IndexComplete(items: map<Slot, Item>, cached: set<Slot>, byIndex: map<nat, set<Slot>>)
  {
    forall s :: s in cached && s in items && items[s].index != 0 ==>
      items[s].index in byIndex && s in byIndex[items[s].index]
  }

  function DirtySlots(items: map<Slot, Item>): (r: set<Slot>)
  {
    set s | s in items && items[s].dirty
  }

  /** Dirty slots are cached, and each is in exactly the dirty set of its own index. */
  ghost predicate DirtyIndexed(items: map<Slot, Item>, cached: set<Slot>, dirtyBy: map<nat, set<Slot>>)
  {
    && (forall s :: s in items && items[s].dirty ==>
          s in cached && items[s].index in dirtyBy && s in dirtyBy[items[s].index])
    && (forall i :: i in dirtyBy ==>
          forall s :: s in dirtyBy[i] ==> s in items && items[s].dirty && items[s].index == i)
  }

  ghost predicate Placed(b: Buf)
  {
    Structure(b) && IndexSound(b.items, Elems(b.lru), b.byIndex)
  }

  ghost predicate DirtyExact(b: Buf)
  {
    DirtyIndexed(b.items, Elems(b.lru), b.dirtyBy) && b.dirtyNum == |DirtySlots(b.items)|
  }

  ghost predicate Consistent(b: Buf)
  {
    Placed(b) && IndexComplete(b.items, Elems(b.lru), b.byIndex) && DirtyExact(b)
  }

  // ---------------------------------------------------------------- getBlock

  datatype GetResult = GetResult(buf: Buf, slot: Option<Slot>, grabbed: int, hasDirty: bool, threw: bool)

  predicate Replaceable(b: Buf, s: Slot)
  {
    s in b.items && b.items[s].status != Locked && !b.items[s].dirty
  }

  /** The scan from the back of the list: the position of the slot to replace, or -1. */
  function Victim(b: Buf, n: nat): (k: int)
    requires n <= |b.lru|
    ensures -1 <= k < n
    ensures k >= 0 ==> Replaceable(b, b.lru[k])
    ensures forall j :: k < j < n ==> !Replaceable(b, b.lru[j])
  {
    if n == 0 then -1 else if Replaceable(b, b.lru[n - 1]) then n - 1 else Victim(b, n - 1)
  }

  /** A locked dirty slot was passed over during the scan of positions after k. */
  predicate PassedLockedDirty(b: Buf, k: int)
    requires -1 <= k < |b.lru|
  {
    exists j :: k < j < |b.lru| && b.lru[j] in b.items &&
      b.items[b.lru[j]].status == Locked && b.items[b.lru[j]].dirty
  }

  function MoveIndex(m: map<nat, set<Slot>>, s: Slot, was: nat, now: nat): (r: map<nat, set<Slot>>)
  {
    if was == now then m
    else
      var m1 := if was == 0 then m else m[was := (if was in m then m[was] else {}) - {s}];
      if now == 0 then m1 else m1[now := (if now in m1 then m1[now] else {}) + {s}]
  }

  /** Claiming a slot: it goes to the front of the list, is locked, and takes the block number
      and the index asked for.  `inMem` survives a hit only. */
  function Claim(b: Buf, s: Slot, bno: nat, idx: nat): (r: Buf)
    requires s in b.items
  {
    var v := b.items[s];
    b.(items := b.items[s := Item(bno, idx, v.dirty, v.inMem && bno in b.cache, Locked, v.data)],
       lru := [s] + Remove(b.lru, s),
       cache := (if s in b.lru then b.cache - {v.blockNo} else b.cache)[bno := s],
       free := Remove(b.free, s),
       byIndex := MoveIndex(b.byIndex, s, v.index, idx))
  }

  function GetBlock(b: Buf, bno: nat, idx: nat): (r: GetResult)
    requires Structure(b)
  {
    if bno in b.cache then
      var s := b.cache[bno];
      if b.items[s].status == Locked then GetResult(b, Some(s), 0, false, false)
      else GetResult(Claim(b, s, bno, idx), Some(s), 1, false, false)
    else if b.free != [] then
      GetResult(Claim(b, b.free[0], bno, idx), Some(b.free[0]), 1, false, false)
    else if b.lru == [] then
      GetResult(b, None, -1, false, false)
    else
      var k := Victim(b, |b.lru|);
      if k == -1 then GetResult(b, None, -1, PassedLockedDirty(b, -1), true)
      else GetResult(Claim(b, b.lru[k], bno, idx), Some(b.lru[k]), 1, PassedLockedDirty(b, k), false)
  }

  /** The slot that getBlock will claim, if any. */
  function Target(b: Buf, bno: nat): (r: Option<Slot>)
    requires Structure(b)
  {
    if bno in b.cache then (if b.items[b.cache[bno]].status == Locked then None else Some(b.cache[bno]))
    else if b.free != [] then Some(b.free[0])
    else if b.lru == [] then None
    else var k := Victim(b, |b.lru|); if k == -1 then None else Some(b.lru[k])
  }

  lemma ToFront(slots: set<Slot>, lru: seq<Slot>, free: seq<Slot>, s: Slot)
    requires Lists(slots, lru, free) && s in slots
    ensures Lists(slots, [s] + Remove(lru, s), Remove(free, s))
    ensures Elems([s] + Remove(lru, s)) == Elems(lru) + {s}
  {
    FrontIsErase(lru, s);
    RemoveIsErase(free, s);
  }

  /** Giving a slot a new value keeps the map exact when its old key is dropped and its new one
      is its own. */
  lemma Remapped(items: map<Slot, Item>, cached: set<Slot>, cache: map<nat, Slot>, s: Slot, v: Item)
    requires Mapped(items, cached, cache)
    requires v.blockNo in cache ==> cache[v.blockNo] == s
    ensures s in cached ==> Mapped(items[s := v], cached + {s}, (cache - {items[s].blockNo})[v.blockNo := s])
    ensures s !in cached ==> Mapped(items[s := v], cached + {s}, cache[v.blockNo := s])
  {
  }

  lemma ClaimStructure(b: Buf, s: Slot, bno: nat, idx: nat)
    requires Structure(b) && s in b.items
    requires bno in b.cache ==> b.cache[bno] == s
    ensures Structure(Claim(b, s, bno, idx))
    ensures Claim(b, s, bno, idx).items.Keys == b.items.Keys
    ensures Elems(Claim(b, s, bno, idx).lru) == Elems(b.lru) + {s}
  {
    ToFront(b.items.Keys, b.lru, b.free, s);
    Remapped(b.items, Elems(b.lru), b.cache, s, Claim(b, s, bno, idx).items[s]);
    assert Claim(b, s, bno, idx).items.Keys == b.items.Keys + {s} == b.items.Keys;
  }

  /** What the target of a getBlock is: on a miss, a free slot first, then the least recently
      placed slot on the list that is neither locked nor dirty. */
  lemma TargetCases(b: Buf, bno: nat, idx: nat)
    requires Structure(b)
    ensures var r := GetBlock(b, bno, idx);
      match Target(b, bno)
      case None => r.buf == b && r.grabbed != 1
      case Some(s) =>
        && s in b.items && r.slot == Some(s) && r.grabbed == 1 && r.buf == Claim(b, s, bno, idx)
        && (bno in b.cache ==> b.cache[bno] == s && b.items[s].status != Locked)
        && (bno !in b.cache && b.free == [] ==> s in b.lru && Replaceable(b, s))
  {
    assert b.free != [] ==> b.free[0] in Elems(b.free);
    assert bno in b.cache ==> b.cache[bno] in Elems(b.lru);
    if bno !in b.cache && b.free == [] && b.lru != [] {
      var k := Victim(b, |b.lru|);
      assert k >= 0 ==> b.lru[k] in Elems(b.lru);
    }
  }

  lemma GetBlockStructure(b: Buf, bno: nat, idx: nat)
    requires Structure(b)
    ensures Structure(GetBlock(b, bno, idx).buf)
    ensures GetBlock(b, bno, idx).buf.items.Keys == b.items.Keys
  {
    TargetCases(b, bno, idx);
    var t := Target(b, bno);
    if t.Some? {
      ClaimStructure(b, t.value, bno, idx);
    }
  }

  lemma IndexMoved(items: map<Slot, Item>, cached: set<Slot>, byIndex: map<nat, set<Slot>>, s: Slot, v: Item)
    requires IndexSound(items, cached, byIndex) && s in items
    ensures IndexSound(items[s := v], cached + {s}, MoveIndex(byIndex, s, items[s].index, v.index))
  {
  }

  /** The index stays complete unless the slot enters the list already carrying its new index. */
  lemma IndexMovedComplete(items: map<Slot, Item>, cached: set<Slot>, byIndex: map<nat, set<Slot>>, s: Slot, v: Item)
    requires IndexSound(items, cached, byIndex) && IndexComplete(items, cached, byIndex) && s in items
    ensures IndexComplete(items[s := v], cached + {s}, MoveIndex(byIndex, s, items[s].index, v.index))
      <==> (s !in cached && v.index != 0 ==> items[s].index != v.index)
  {
    var m := MoveIndex(byIndex, s, items[s].index, v.index);
    if s !in cached && v.index != 0 && items[s].index == v.index {
      assert m == byIndex && items[s := v][s].index == v.index && s in cached + {s};
    }
  }

  /** Changing the fields of a slot other than its dirty flag keeps the dirty index exact unless
      a dirty slot changes its index. */
  lemma DirtyMoved(items: map<Slot, Item>, cached: set<Slot>, dirtyBy: map<nat, set<Slot>>, s: Slot, v: Item)
    requires DirtyIndexed(items, cached, dirtyBy) && s in items && v.dirty == items[s].dirty
    ensures DirtyIndexed(items[s := v], cached + {s}, dirtyBy) <==> (items[s].dirty ==> items[s].index == v.index)
    ensures DirtySlots(items[s := v]) == DirtySlots(items)
  {
    if items[s].dirty && items[s].index != v.index {
      assert s in dirtyBy[items[s].index] && items[s := v][s].index != items[s].index;
    }
  }

  lemma ClaimIndexSound(b: Buf, s: Slot, bno: nat, idx: nat)
    requires Placed(b) && s in b.items
    requires bno in b.cache ==> b.cache[bno] == s
    ensures Placed(Claim(b, s, bno, idx))
  {
    ClaimStructure(b, s, bno, idx);
    IndexMoved(b.items, Elems(b.lru), b.byIndex, s, Claim(b, s, bno, idx).items[s]);
  }

  lemma GetBlockPlaced(b: Buf, bno: nat, idx: nat)
    requires Placed(b)
    ensures Placed(GetBlock(b, bno, idx).buf)
  {
    TargetCases(b, bno, idx);
    var t := Target(b, bno);
    if t.Some? {
      ClaimIndexSound(b, t.value, bno, idx);
    }
  }

  /** What a caller must respect: a dirty slot is asked for under its own index, and a slot from
      the free list does not still carry the index it is about to be given. */
  ghost predicate ProperGet(b: Buf, bno: nat, idx: nat)
    requires Structure(b)
  {
    match Target(b, bno)
    case None => true
    case Some(s) =>
      s in b.items
      && (b.items[s].dirty ==> b.items[s].index == idx)
      && (s !in Elems(b.lru) && idx != 0 ==> b.items[s].index != idx)
  }

  lemma ClaimConsistentIff(b: Buf, s: Slot, bno: nat, idx: nat)
    requires Consistent(b) && s in b.items
    requires bno in b.cache ==> b.cache[bno] == s
    ensures Consistent(Claim(b, s, bno, idx)) <==>
      (b.items[s].dirty ==> b.items[s].index == idx) &&
      (s !in Elems(b.lru) && idx != 0 ==> b.items[s].index != idx)
  {
    ClaimStructure(b, s, bno, idx);
    ClaimIndexSound(b, s, bno, idx);
    var v := Claim(b, s, bno, idx).items[s];
    IndexMovedComplete(b.items, Elems(b.lru), b.byIndex, s, v);
    DirtyMoved(b.items, Elems(b.lru), b.dirtyBy, s, v);
  }

  /** getBlock keeps all six structures in agreement exactly when the call is proper. */
  lemma GetBlockConsistentIff(b: Buf, bno: nat, idx: nat)
    requires Consistent(b)
    ensures Consistent(GetBlock(b, bno, idx).buf) <==> ProperGet(b, bno, idx)
  {
    TargetCases(b, bno, idx);
    var t := Target(b, bno);
    if t.Some? {
      ClaimConsistentIff(b, t.value, bno, idx);
    }
  }

  /** Replacement: on a miss with no free slot the victim is the last slot of the list that is
      neither locked nor dirty, and the call throws exactly when the non-empty list has none. */
  lemma Eviction(b: Buf, bno: nat, idx: nat)
    requires Structure(b) && bno !in b.cache && b.free == []
    ensures var r := GetBlock(b, bno, idx);
      && (r.threw <==> b.lru != [] && forall s :: s in b.lru ==> !Replaceable(b, s))
      && (r.slot.Some? ==>
            exists k :: 0 <= k < |b.lru| && b.lru[k] == r.slot.value && Replaceable(b, b.lru[k])
              && forall j :: k < j < |b.lru| ==> !Replaceable(b, b.lru[j]))
  {
    var k := Victim(b, |b.lru|);
    if k >= 0 {
      assert b.lru[k] in b.lru;
    }
  }

  ghost predicate LockedUnder(b: Buf, bno: nat)
  {
    bno in b.cache && b.cache[bno] in b.items && b.items[b.cache[bno]].status == Locked
  }

  /** Nothing can be given out for a block that is not cached. */
  ghost predicate Exhausted(b: Buf)
  {
    b.free == [] && forall s :: s in b.lru ==> !Replaceable(b, s)
  }

  /** What getBlock answers. The lock is refused exactly for a cached locked block, which is returned all the
      same; nothing is returned exactly if the block is not cached and no slot can be had, which throws unless
      the list is empty. In both cases the buffer is as before. */
  lemma GetBlockAnswer(b: Buf, bno: nat, idx: nat)
    requires Structure(b)
    ensures var r := GetBlock(b, bno, idx);
      && (r.grabbed == 0 <==> LockedUnder(b, bno))
      && (r.grabbed == -1 <==> r.slot.None?)
      && (r.slot.None? <==> bno !in b.cache && Exhausted(b))
      && (r.grabbed == 1 <==> r.slot.Some? && !LockedUnder(b, bno))
      && (r.grabbed != 1 ==> r.buf == b)
      && (r.slot.Some? ==> r.slot.value in r.buf.items && r.buf.items[r.slot.value].blockNo == bno
                           && r.buf.items[r.slot.value].status == Locked)
      && (bno in b.cache ==> r.slot == Some(b.cache[bno]))
      && (r.threw <==> r.slot.None? && b.lru != [])
  {
    TargetCases(b, bno, idx);
    assert forall s :: s in b.lru <==> s in Elems(b.lru);
    if bno !in b.cache && b.free == [] && b.lru != [] {
      var k := Victim(b, |b.lru|);
      assert k >= 0 ==> b.lru[k] in b.lru;
    }
  }

  /** On a miss the first free slot is taken, and otherwise the free list stays. */
  lemma FreeAnswer(b: Buf, bno: nat, idx: nat)
    requires Structure(b)
    ensures var r := GetBlock(b, bno, idx);
      if bno !in b.cache && b.free != [] then r.slot == Some(b.free[0]) && r.buf.free == b.free[1..]
      else r.buf.free == b.free
  {
    TargetCases(b, bno, idx);
    var r := GetBlock(b, bno, idx);
    if (bno in b.cache || b.free == []) && r.grabbed == 1 {
      assert r.slot.value in Elems(b.lru) && r.slot.value !in b.free;
      RemoveAbsent(b.free, r.slot.value);
    }
  }

  predicate LockedDirty(b: Buf, j: nat)
  {
    j < |b.lru| && b.lru[j] in b.items && b.items[b.lru[j]].status == Locked && b.items[b.lru[j]].dirty
  }

  /** The slot, if any, stands before position j of the list. */
  ghost predicate StandsBefore(b: Buf, slot: Option<Slot>, j: nat)
  {
    forall k :: j <= k < |b.lru| ==> slot != Some(b.lru[k])
  }

  /** `hasDirty` says that a locked dirty slot stands behind the one taken from the list, or anywhere on it
      if none is taken. */
  lemma ScanAnswer(b: Buf, bno: nat, idx: nat)
    requires Structure(b)
    ensures var r := GetBlock(b, bno, idx);
      r.hasDirty <==>
        bno !in b.cache && b.free == [] && exists j :: LockedDirty(b, j) && StandsBefore(b, r.slot, j)
  {
    if bno !in b.cache && b.free == [] && b.lru != [] {
      ScanStops(b, Victim(b, |b.lru|));
    }
  }

  lemma ScanStops(b: Buf, k: int)
    requires NoDup(b.lru) && -1 <= k < |b.lru|
    ensures var slot := if k == -1 then None else Some(b.lru[k]);
      PassedLockedDirty(b, k) <==> exists j :: LockedDirty(b, j) && StandsBefore(b, slot, j)
  {
    var slot := if k == -1 then None else Some(b.lru[k]);
    forall j: nat | j < |b.lru| ensures StandsBefore(b, slot, j) <==> j > k {
      if j <= k {
        assert slot == Some(b.lru[k]);
      }
    }
    if PassedLockedDirty(b, k) {
      var j :| k < j < |b.lru| && b.lru[j] in b.items && b.items[b.lru[j]].status == Locked && b.items[b.lru[j]].dirty;
      assert LockedDirty(b, j) && StandsBefore(b, slot, j);
    }
  }

  /** A block returned with the lock grabbed is at the front, locked, indexed as asked and found
      by its number, and counts as in memory only if it was cached under the number; every other slot keeps
      its fields, and the others keep their order; the dirty index, its counter and the flush flags stay. */
  lemma GrabbedBlock(b: Buf, bno: nat, idx: nat)
    requires Structure(b)
    ensures var r := GetBlock(b, bno, idx);
      r.grabbed == 1 ==>
        && r.slot.Some? && r.slot.value in b.items
        && r.buf.lru != [] && r.buf.lru[0] == r.slot.value
        && r.buf.lru[1..] == Remove(b.lru, r.slot.value)
        && bno in r.buf.cache && r.buf.cache[bno] == r.slot.value
        && r.buf.items[r.slot.value].status == Locked && r.buf.items[r.slot.value].blockNo == bno
        && r.buf.items[r.slot.value].index == idx
        && r.buf.items[r.slot.value].data == b.items[r.slot.value].data
        && r.buf.items[r.slot.value].dirty == b.items[r.slot.value].dirty
        && r.buf.items[r.slot.value].inMem == (b.items[r.slot.value].inMem && bno in b.cache)
        && (r.buf.items - {r.slot.value} == b.items - {r.slot.value})
        && r.buf.dirtyBy == b.dirtyBy && r.buf.dirtyNum == b.dirtyNum
        && r.buf.bgSent == b.bgSent && r.buf.fgNum == b.fgNum
        && r.buf.fgLimit == b.fgLimit && r.buf.oneTimeSubmit == b.oneTimeSubmit
  {
    TargetCases(b, bno, idx);
  }

  // ---------------------------------------------------------------- release and dirty marks

  function Release(b: Buf, bno: nat): (r: (Buf, int))
    requires Structure(b)
  {
    if bno in b.cache && b.items[b.cache[bno]].status == Locked then
      (b.(items := b.items[b.cache[bno] := b.items[b.cache[bno]].(status := Valid)]), 1)
    else (b, -1)
  }

  /** Release answers 1 exactly for a cached locked block, which is unlocked then; nothing else changes. */
  lemma ReleaseAnswer(b: Buf, bno: nat)
    requires Structure(b)
    ensures var (r, rc) := Release(b, bno);
      && (rc == 1 <==> LockedUnder(b, bno)) && (rc == 1 || rc == -1)
      && (rc == -1 ==> r == b)
      && (rc == 1 ==> !LockedUnder(r, bno) && r.items[b.cache[bno]].status == Valid)
      && r == b.(items := r.items) && r.items.Keys == b.items.Keys
      && (forall s :: s in b.items && !(LockedUnder(b, bno) && s == b.cache[bno]) ==> r.items[s] == b.items[s])
      && (forall s :: s in b.items ==> r.items[s] == b.items[s].(status := r.items[s].status))
  {
  }

  /** A block that was got is refused until it is released, and can be got again then. */
  lemma LockCycle(b: Buf, bno: nat, idx: nat, idx': nat)
    requires Structure(b) && GetBlock(b, bno, idx).grabbed == 1
    ensures var a := GetBlock(b, bno, idx);
      && Structure(a.buf) && GetBlock(a.buf, bno, idx') == GetResult(a.buf, a.slot, 0, false, false)
      && Release(a.buf, bno).1 == 1 && Structure(Release(a.buf, bno).0)
      && GetBlock(Release(a.buf, bno).0, bno, idx').grabbed == 1
      && GetBlock(Release(a.buf, bno).0, bno, idx').slot == a.slot
  {
    var a := GetBlock(b, bno, idx);
    GetBlockStructure(b, bno, idx);
    GrabbedBlock(b, bno, idx);
    ReleaseAnswer(a.buf, bno);
    var r := Release(a.buf, bno).0;
    assert SameNames(a.buf.items, r.items);
    Reflagged(a.buf.items, r.items, Elems(a.buf.lru), a.buf.cache, a.buf.byIndex);
    GetBlockAnswer(r, bno, idx');
  }

  /** Two readings of the slots that differ only in flags and data. */
  ghost predicate SameNames(items: map<Slot, Item>, items': map<Slot, Item>)
  {
    && items'.Keys == items.Keys
    && forall s :: s in items ==> items'[s].blockNo == items[s].blockNo && items'[s].index == items[s].index
  }

  lemma Reflagged(items: map<Slot, Item>, items': map<Slot, Item>, cached: set<Slot>,
                  cache: map<nat, Slot>, byIndex: map<nat, set<Slot>>)
    requires SameNames(items, items')
    ensures Mapped(items, cached, cache) ==> Mapped(items', cached, cache)
    ensures IndexSound(items, cached, byIndex) ==> IndexSound(items', cached, byIndex)
    ensures IndexComplete(items, cached, byIndex) ==> IndexComplete(items', cached, byIndex)
  {
  }

  lemma ReleaseKeeps(b: Buf, bno: nat)
    requires Placed(b)
    ensures Placed(Release(b, bno).0)
    ensures Consistent(b) ==> Consistent(Release(b, bno).0)
  {
    var r := Release(b, bno).0;
    Reflagged(b.items, r.items, Elems(b.lru), b.cache, b.byIndex);
    assert DirtySlots(r.items) == DirtySlots(b.items);
  }

  function SetOf(m: map<nat, set<Slot>>, i: nat): (r: set<Slot>)
  {
    if i in m then m[i] else {}
  }

  function SetDirty(b: Buf, s: Slot, d: bool, idx: nat): (r: Buf)
    requires s in b.items
  {
    b.(items := b.items[s := b.items[s].(dirty := d)],
       dirtyNum := b.dirtyNum + (if b.items[s].dirty == d then 0 else if d then 1 else -1),
       dirtyBy := if b.items[s].dirty == d then b.dirtyBy
                  else if d then b.dirtyBy[idx := SetOf(b.dirtyBy, idx) + {s}]
                  else b.dirtyBy[idx := SetOf(b.dirtyBy, idx) - {s}])
  }

  /** The slot is marked as asked, with its other fields as before, and so is everything else but the dirty
      set of the index given, which gains or loses the slot when the mark changes, and the counter. */
  lemma SetDirtyMarks(b: Buf, s: Slot, d: bool, idx: nat)
    requires s in b.items
    ensures var r := SetDirty(b, s, d, idx);
      && r.items.Keys == b.items.Keys && r.items[s] == b.items[s].(dirty := d)
      && (forall x :: x in b.items && x != s ==> r.items[x] == b.items[x])
      && (b.items[s].dirty == d ==> r == b)
      && r.dirtyNum == b.dirtyNum + (if d then 1 else 0) - (if b.items[s].dirty then 1 else 0)
      && (b.items[s].dirty != d ==> (s in SetOf(r.dirtyBy, idx) <==> d))
      && (forall i, x :: i != idx || x != s ==> (x in SetOf(r.dirtyBy, i) <==> x in SetOf(b.dirtyBy, i)))
      && r == b.(items := r.items, dirtyNum := r.dirtyNum, dirtyBy := r.dirtyBy)
  {
    var r := SetDirty(b, s, d, idx);
    if b.items[s].dirty == d {
      assert r.items == b.items;
    }
  }

  lemma SetDirtyPlaced(b: Buf, s: Slot, d: bool, idx: nat)
    requires Placed(b) && s in b.items
    ensures Placed(SetDirty(b, s, d, idx))
    ensures IndexComplete(b.items, Elems(b.lru), b.byIndex) ==>
      IndexComplete(SetDirty(b, s, d, idx).items, Elems(b.lru), b.byIndex)
  {
    Reflagged(b.items, SetDirty(b, s, d, idx).items, Elems(b.lru), b.cache, b.byIndex);
  }

  lemma Dirtied(items: map<Slot, Item>, cached: set<Slot>, dirtyBy: map<nat, set<Slot>>, s: Slot, idx: nat)
    requires DirtyIndexed(items, cached, dirtyBy) && s in cached && s in items && !items[s].dirty
    ensures DirtyIndexed(items[s := items[s].(dirty := true)], cached, dirtyBy[idx := SetOf(dirtyBy, idx) + {s}])
      <==> idx == items[s].index
    ensures DirtySlots(items[s := items[s].(dirty := true)]) == DirtySlots(items) + {s}
  {
    assert s in dirtyBy[idx := SetOf(dirtyBy, idx) + {s}][idx];
  }

  lemma Cleaned(items: map<Slot, Item>, cached: set<Slot>, dirtyBy: map<nat, set<Slot>>, s: Slot, idx: nat)
    requires DirtyIndexed(items, cached, dirtyBy) && s in items && items[s].dirty
    ensures DirtyIndexed(items[s := items[s].(dirty := false)], cached, dirtyBy[idx := SetOf(dirtyBy, idx) - {s}])
      <==> idx == items[s].index
    ensures DirtySlots(items[s := items[s].(dirty := false)]) == DirtySlots(items) - {s}
  {
    if idx != items[s].index {
      assert s in dirtyBy[idx := SetOf(dirtyBy, idx) - {s}][items[s].index];
    }
  }

  lemma SetDirtyExactIff(b: Buf, s: Slot, d: bool, idx: nat)
    requires DirtyExact(b) && s in b.lru && s in b.items
    ensures DirtyExact(SetDirty(b, s, d, idx)) <==> (b.items[s].dirty == d || idx == b.items[s].index)
  {
    assert s in Elems(b.lru);
    var r := SetDirty(b, s, d, idx);
    if b.items[s].dirty == d {
      assert r.items == b.items;
      assert r == b;
    } else if d {
      Dirtied(b.items, Elems(b.lru), b.dirtyBy, s, idx);
      assert |DirtySlots(r.items)| == |DirtySlots(b.items)| + 1;
    } else {
      Cleaned(b.items, Elems(b.lru), b.dirtyBy, s, idx);
      assert |DirtySlots(r.items)| == |DirtySlots(b.items)| - 1;
    }
  }

  /** setItemDirty keeps the agreement exactly when it changes nothing or is given the slot's own
      index. */
  lemma SetDirtyConsistentIff(b: Buf, s: Slot, d: bool, idx: nat)
    requires Consistent(b) && s in b.lru && s in b.items
    ensures Consistent(SetDirty(b, s, d, idx)) <==> (b.items[s].dirty == d || idx == b.items[s].index)
  {
    SetDirtyPlaced(b, s, d, idx);
    SetDirtyExactIff(b, s, d, idx);
  }
}
