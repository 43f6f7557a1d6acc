/** Flushing: which dirty blocks a flush picks (`doFlushByIndex`), what the completion of a flush
    does to the buffer (`doFlushDone`), and the life of a flush request (`BufferFlushReq`). */
module BufferFlush {
  import opened NatLists
  import opened Options
  import opened BlockBuffers
  import opened BufferTransfer

  // ---------------------------------------------------------------- choosing the blocks

  function BlockNos(items: map<Slot, Item>, q: seq<Slot>): (r: seq<nat>)
    requires forall s :: s in q ==> s in items
    ensures |r| == |q| && forall j :: 0 <= j < |q| ==> r[j] == items[q[j]].blockNo
  {
    seq(|q|, j requires 0 <= j < |q| => items[q[j]].blockNo)
  }

  datatype Picked = Picked(buf: Buf, canFlush: bool, blocks: seq<nat>)

  /** How many of n dirty slots a background flush takes: the limit is tested after each. */
  function TakeCount(n: nat, limit: nat): (k: nat)
    ensures k <= n && (n > 0 ==> k >= 1)
  {
    if limit <= 1 then (if n == 0 then 0 else 1) else if n <= limit then n else limit
  }

  /** doFlushByIndex.  `order` is the traversal order of the dirty set of the index, or of all dirty
      sets when the index is 0. */
  function DoFlushByIndex(b: Buf, index: nat, order: seq<Slot>): (r: Picked)
    requires forall s :: s in order ==> s in b.items
  {
    if b.fgNum >= b.fgLimit then Picked(b, false, [])
    else if index == 0 then
      var k := TakeCount(|order|, b.oneTimeSubmit);
      Picked(b.(bgSent := b.bgSent || order != []), true, BlockNos(b.items, order[..k]))
    else Picked(b, true, BlockNos(b.items, order))
  }

  ghost predicate Visits(b: Buf, index: nat, order: seq<Slot>)
  {
    Enumerates(order, if index == 0 then DirtySlots(b.items) else SetOf(b.dirtyBy, index))
  }

  /** Every block is cached, and dirty. */
  ghost predicate Holding(b: Buf, blocks: set<nat>)
  {
    forall k :: k in blocks ==> k in b.cache && b.cache[k] in b.items && b.items[b.cache[k]].dirty
  }

  /** A flush picks distinct block numbers of cached dirty blocks; for an inode, all of them. */
  lemma PickedBlocks(b: Buf, index: nat, order: seq<Slot>)
    requires Consistent(b) && Visits(b, index, order)
    ensures forall s :: s in order ==> s in b.items
    ensures var p := DoFlushByIndex(b, index, order);
      && NoDup(p.blocks) && Holding(b, Elems(p.blocks))
      && (p.canFlush && index != 0 ==>
            Elems(p.blocks) ==
            set s | s in b.items && b.items[s].dirty && b.items[s].index == index :: b.items[s].blockNo)
  {
    forall s | s in order ensures s in b.items && b.items[s].dirty && s in Elems(b.lru)
    {
      assert s in Elems(order);
    }
    var p := DoFlushByIndex(b, index, order);
    forall i, j | 0 <= i < j < |p.blocks| ensures p.blocks[i] != p.blocks[j] {
      assert order[i] in Elems(b.lru) && order[j] in Elems(b.lru);
    }
    forall k | k in Elems(p.blocks)
      ensures k in b.cache && b.cache[k] in b.items && b.items[b.cache[k]].dirty
    {
      var j :| 0 <= j < |p.blocks| && p.blocks[j] == k;
      assert order[j] in order;
    }
    if p.canFlush && index != 0 {
      forall s | s in b.items && b.items[s].dirty && b.items[s].index == index
        ensures b.items[s].blockNo in p.blocks
      {
        assert s in Elems(order);
        var j :| 0 <= j < |order| && order[j] == s;
        assert p.blocks[j] == b.items[s].blockNo;
      }
      forall k | k in p.blocks
        ensures exists s :: s in b.items && b.items[s].dirty && b.items[s].index == index && b.items[s].blockNo == k
      {
        var j :| 0 <= j < |p.blocks| && p.blocks[j] == k;
        assert order[j] in Elems(order);
        assert b.items[order[j]].index == index;
      }
    }
  }

  function Least(a: int, b: int): (r: int)
    ensures r <= a && r <= b && (r == a || r == b)
  {
    if a <= b then a else b
  }

  /** A flush is refused exactly when the limit of flushes in flight is reached. A flush of an inode takes all
      its dirty blocks; a background flush takes as many as the limit says, but at least one if there is
      one, and leaves the mark that it was sent exactly if it takes any. Blocks come in the order visited. */
  lemma PickAnswer(b: Buf, index: nat, order: seq<Slot>)
    requires Consistent(b) && Visits(b, index, order)
    ensures forall s :: s in order ==> s in b.items
    ensures var p := DoFlushByIndex(b, index, order);
      && (p.canFlush <==> b.fgNum < b.fgLimit)
      && (!p.canFlush ==> p.blocks == [] && p.buf == b)
      && (p.canFlush && index != 0 ==> |p.blocks| == |SetOf(b.dirtyBy, index)| && p.buf == b)
      && (p.canFlush && index == 0 ==>
            && |p.blocks| == Least(b.dirtyNum, if b.oneTimeSubmit <= 1 then 1 else b.oneTimeSubmit)
            && p.buf == b.(bgSent := b.bgSent || p.blocks != []))
      && |p.blocks| <= |order| && (forall j :: 0 <= j < |p.blocks| ==> p.blocks[j] == b.items[order[j]].blockNo)
  {
    forall s | s in order ensures s in b.items {
      assert s in Elems(order);
    }
    EnumerationSize(order);
  }

  // ---------------------------------------------------------------- a flush is done

  /** One completed block: clean, out of its dirty set, and moved to the back of the list. */
  function Wash(b: Buf, s: Slot): (r: Buf)
    requires s in b.items
  {
    SetDirty(b, s, false, b.items[s].index).(lru := Remove(b.lru, s) + [s])
  }

  datatype FlushRc = Ok | NotSent | NotDirty | Missing

  function Washed(b: Buf, blocks: seq<nat>): (r: (Buf, FlushRc))
    decreases blocks
  {
    if blocks == [] then (b, Ok)
    else if blocks[0] !in b.cache || b.cache[blocks[0]] !in b.items then (b, Missing)
    else if !b.items[b.cache[blocks[0]]].dirty then (b, NotDirty)
    else Washed(Wash(b, b.cache[blocks[0]]), blocks[1..])
  }

  function DoFlushDone(b: Buf, blocks: seq<nat>): (r: (Buf, FlushRc))
  {
    if !b.bgSent && b.fgNum <= 0 then (b, NotSent) else Washed(b, blocks)
  }

  lemma ToBack(slots: set<Slot>, lru: seq<Slot>, free: seq<Slot>, s: Slot)
    requires Lists(slots, lru, free) && s in lru
    ensures Lists(slots, Remove(lru, s) + [s], free)
    ensures Elems(Remove(lru, s) + [s]) == Elems(lru)
  {
    RemoveIsErase(lru, s);
    assert Elems(Remove(lru, s) + [s]) == Elems(Remove(lru, s)) + {s};
    assert s in Elems(lru);
  }

  lemma WashKeeps(b: Buf, s: Slot)
    requires Consistent(b) && s in b.lru && s in b.items && b.items[s].dirty
    ensures Consistent(Wash(b, s)) && Wash(b, s).dirtyNum == b.dirtyNum - 1
    ensures Elems(Wash(b, s).lru) == Elems(b.lru)
  {
    SetDirtyConsistentIff(b, s, false, b.items[s].index);
    ToBack(b.items.Keys, b.lru, b.free, s);
  }

  /** doFlushDone keeps the agreement whatever it is given. */
  lemma {:induction false} WashedKeeps(b: Buf, blocks: seq<nat>)
    requires Consistent(b)
    ensures Consistent(Washed(b, blocks).0)
    ensures Washed(b, blocks).0.cache == b.cache
    ensures Washed(b, blocks).0.items.Keys == b.items.Keys
    decreases blocks
  {
    if blocks != [] && blocks[0] in b.cache && b.items[b.cache[blocks[0]]].dirty {
      var s := b.cache[blocks[0]];
      assert s in Elems(b.lru);
      WashKeeps(b, s);
      assert Wash(b, s).items.Keys == b.items.Keys;
      WashedKeeps(Wash(b, s), blocks[1..]);
    }
  }

  /** It reports success exactly when the blocks are distinct and all cached and dirty; it then
      lowers the dirty count by exactly their number. */
  lemma {:induction false} WashedOkIff(b: Buf, blocks: seq<nat>)
    requires Consistent(b)
    ensures Washed(b, blocks).1 == Ok <==> NoDup(blocks) && Holding(b, Elems(blocks))
    ensures Washed(b, blocks).1 == Ok ==> Washed(b, blocks).0.dirtyNum == b.dirtyNum - |blocks|
    decreases blocks
  {
    if blocks != [] {
      var k := blocks[0];
      if k in b.cache && b.items[b.cache[k]].dirty {
        assert b.cache[k] in Elems(b.lru);
        WashKeeps(b, b.cache[k]);
        WashedOkIff(Wash(b, b.cache[k]), blocks[1..]);
        HoldingCons(b, k, blocks[1..]);
        assert blocks == [k] + blocks[1..];
      } else {
        assert k in Elems(blocks);
      }
    }
  }

  /** The slots of cached blocks. */
  function SlotsOf(cache: map<nat, Slot>, blocks: seq<nat>): (q: seq<Slot>)
    requires forall k :: k in blocks ==> k in cache
    ensures |q| == |blocks| && forall j :: 0 <= j < |blocks| ==> q[j] == cache[blocks[j]]
  {
    seq(|blocks|, j requires 0 <= j < |blocks| => cache[blocks[j]])
  }

  lemma {:induction false} WithoutRemove(q: seq<Slot>, s: Slot, ss: set<Slot>)
    requires NoDup(q)
    ensures Without(Remove(q, s), ss) == Without(q, ss + {s})
  {
    if q != [] {
      assert q == [q[0]] + q[1..];
      NoDupCons(q[0], q[1..]);
      if q[0] == s {
        WithoutAbsent(q[1..], s, ss);
      } else {
        WithoutRemove(q[1..], s, ss);
        assert ([q[0]] + Remove(q[1..], s))[1..] == Remove(q[1..], s);
      }
    }
  }

  lemma {:induction false} WithoutAbsent(q: seq<Slot>, s: Slot, ss: set<Slot>)
    requires s !in Elems(q)
    ensures Without(q, ss) == Without(q, ss + {s})
  {
    if q != [] {
      assert q[0] in Elems(q) && Elems(q[1..]) <= Elems(q);
      WithoutAbsent(q[1..], s, ss);
    }
  }

  /** What washing leaves: the slots clean, at the back of the list in the order given, the rest of the list
      in its order, and everything else as it was. */
  ghost predicate WashedTo(b: Buf, slots: seq<Slot>, r: Buf)
  {
    && r.lru == Without(b.lru, Elems(slots)) + slots
    && r.items.Keys == b.items.Keys
    && (forall s :: s in b.items ==> r.items[s] == if s in slots then b.items[s].(dirty := false) else b.items[s])
    && r.cache == b.cache && r.free == b.free && r.byIndex == b.byIndex
    && r.bgSent == b.bgSent && r.fgNum == b.fgNum && r.fgLimit == b.fgLimit && r.oneTimeSubmit == b.oneTimeSubmit
  }

  lemma WashOneTo(b: Buf, s: Slot, rest: seq<Slot>, r: Buf)
    requires NoDup(b.lru) && s in b.items && s !in rest && WashedTo(Wash(b, s), rest, r)
    ensures WashedTo(b, [s] + rest, r)
  {
    WithoutConcat(Remove(b.lru, s), [s], Elems(rest));
    WithoutOne(s, Elems(rest));
    WithoutRemove(b.lru, s, Elems(rest));
    assert Elems([s] + rest) == Elems(rest) + {s};
    Associate(Without(b.lru, Elems([s] + rest)), [s], rest);
    assert forall x :: x in [s] + rest <==> x == s || x in rest;
  }

  lemma WashedNext(b: Buf, blocks: seq<nat>)
    requires Consistent(b) && Washed(b, blocks).1 == Ok && blocks != []
    ensures forall k :: k in blocks ==> k in b.cache
    ensures var s := b.cache[blocks[0]];
      && s in b.items && Consistent(Wash(b, s)) && Wash(b, s).cache == b.cache
      && s !in SlotsOf(b.cache, blocks[1..])
      && Washed(b, blocks) == Washed(Wash(b, s), blocks[1..])
  {
    WashedOkIff(b, blocks);
    assert forall k :: k in blocks ==> k in Elems(blocks);
    var s := b.cache[blocks[0]];
    assert s in Elems(b.lru);
    WashKeeps(b, s);
    SlotApart(b, blocks);
  }

  lemma {:induction false} WashedEffect(b: Buf, blocks: seq<nat>)
    requires Consistent(b) && Washed(b, blocks).1 == Ok
    ensures forall k :: k in blocks ==> k in b.cache
    ensures WashedTo(b, SlotsOf(b.cache, blocks), Washed(b, blocks).0)
    decreases blocks
  {
    if blocks == [] {
      WashedToSelf(b);
    } else {
      WashedNext(b, blocks);
      var s := b.cache[blocks[0]];
      WashedEffect(Wash(b, s), blocks[1..]);
      SlotsCons(b.cache, blocks);
      WashOneTo(b, s, SlotsOf(b.cache, blocks[1..]), Washed(b, blocks).0);
    }
  }

  lemma SlotsCons(cache: map<nat, Slot>, blocks: seq<nat>)
    requires blocks != [] && forall k :: k in blocks ==> k in cache
    ensures forall k :: k in blocks[1..] ==> k in cache
    ensures SlotsOf(cache, blocks) == [cache[blocks[0]]] + SlotsOf(cache, blocks[1..])
  {
  }

  lemma WashedToSelf(b: Buf)
    ensures WashedTo(b, [], b)
  {
    WithoutNothing(b.lru);
    assert Elems([]) == {};
  }

  /** Different cached blocks are in different slots. */
  lemma SlotApart(b: Buf, blocks: seq<nat>)
    requires Structure(b) && blocks != [] && NoDup(blocks) && forall k :: k in blocks ==> k in b.cache
    ensures forall k :: k in blocks[1..] ==> k in b.cache
    ensures b.cache[blocks[0]] !in SlotsOf(b.cache, blocks[1..])
  {
    var q := SlotsOf(b.cache, blocks[1..]);
    forall j | 0 <= j < |q| ensures q[j] != b.cache[blocks[0]] {
      assert blocks[1..][j] == blocks[j + 1] != blocks[0];
    }
  }

  /** When it fails it has washed the blocks before the first that is not cached or not dirty then. */
  lemma {:induction false} WashedStops(b: Buf, blocks: seq<nat>) returns (k: nat)
    requires Structure(b) && Washed(b, blocks).1 != Ok
    ensures k < |blocks| && Washed(b, blocks[..k]).1 == Ok && Washed(b, blocks).0 == Washed(b, blocks[..k]).0
    ensures var a := Washed(b, blocks[..k]).0;
      && (Washed(b, blocks).1 == Missing <==> blocks[k] !in a.cache || a.cache[blocks[k]] !in a.items)
      && (Washed(b, blocks).1 == NotDirty ==> !a.items[a.cache[blocks[k]]].dirty)
      && Washed(b, blocks).1 != NotSent
    decreases blocks
  {
    if blocks[0] !in b.cache || b.cache[blocks[0]] !in b.items || !b.items[b.cache[blocks[0]]].dirty {
      k := 0;
      assert blocks[..0] == [];
    } else {
      var s := b.cache[blocks[0]];
      assert s in Elems(b.lru);
      WashStructure(b, s);
      var j := WashedStops(Wash(b, s), blocks[1..]);
      k := j + 1;
      assert blocks[..k][0] == blocks[0] && blocks[..k][1..] == blocks[1..][..j];
    }
  }

  lemma WashStructure(b: Buf, s: Slot)
    requires Structure(b) && s in b.lru && s in b.items
    ensures Structure(Wash(b, s))
  {
    ToBack(b.items.Keys, b.lru, b.free, s);
    var r := Wash(b, s);
    assert r.items.Keys == b.items.Keys;
    Reflagged(b.items, r.items, Elems(b.lru), b.cache, b.byIndex);
  }

  /** It refuses exactly when no flush was sent, and changes nothing then. */
  lemma DoneAnswer(b: Buf, blocks: seq<nat>)
    ensures DoFlushDone(b, blocks).1 == NotSent <==> !b.bgSent && b.fgNum <= 0
    ensures DoFlushDone(b, blocks).1 == NotSent ==> DoFlushDone(b, blocks).0 == b
    ensures DoFlushDone(b, blocks).1 != NotSent ==> DoFlushDone(b, blocks) == Washed(b, blocks)
  {
    NeverNotSent(b, blocks);
  }

  lemma {:induction false} NeverNotSent(b: Buf, blocks: seq<nat>)
    ensures Washed(b, blocks).1 != NotSent
    decreases blocks
  {
    if blocks != [] && blocks[0] in b.cache && b.cache[blocks[0]] in b.items {
      NeverNotSent(Wash(b, b.cache[blocks[0]]), blocks[1..]);
    }
  }

  lemma LastTaken(r: Buf, bno: nat, idx: nat)
    requires Structure(r) && r.free == [] && bno !in r.cache && r.lru != [] && Replaceable(r, r.lru[|r.lru| - 1])
    ensures GetBlock(r, bno, idx).slot == Some(r.lru[|r.lru| - 1])
  {
  }

  lemma LastWashed(b: Buf, slots: seq<Slot>, r: Buf)
    requires WashedTo(b, slots, r) && slots != [] && slots[|slots| - 1] in b.items
    requires b.items[slots[|slots| - 1]].status != Locked
    ensures r.lru != [] && r.lru[|r.lru| - 1] == slots[|slots| - 1] && Replaceable(r, slots[|slots| - 1])
  {
    var s := slots[|slots| - 1];
    assert s in slots;
    assert r.items[s] == b.items[s].(dirty := false);
  }

  /** The block flushed last is replaced first: with no free slot, the next miss takes its slot. */
  lemma FlushedFirst(b: Buf, blocks: seq<nat>, bno: nat, idx: nat)
    requires Consistent(b) && Washed(b, blocks).1 == Ok && blocks != [] && b.free == [] && bno !in b.cache
    requires !LockedUnder(b, blocks[|blocks| - 1])
    ensures Structure(Washed(b, blocks).0) && blocks[|blocks| - 1] in b.cache
    ensures GetBlock(Washed(b, blocks).0, bno, idx).slot == Some(b.cache[blocks[|blocks| - 1]])
  {
    WashedKeeps(b, blocks);
    WashedEffect(b, blocks);
    assert blocks[|blocks| - 1] in blocks;
    LastWashed(b, SlotsOf(b.cache, blocks), Washed(b, blocks).0);
    LastTaken(Washed(b, blocks).0, bno, idx);
  }

  lemma HoldingCons(b: Buf, k: nat, rest: seq<nat>)
    requires Structure(b) && k in b.cache && b.items[b.cache[k]].dirty
    ensures NoDup([k] + rest) && Holding(b, Elems([k] + rest)) <==>
            NoDup(rest) && Holding(Wash(b, b.cache[k]), Elems(rest))
  {
    assert Elems([k] + rest) == {k} + Elems(rest);
    WashHolding(b, k, Elems(rest));
    NoDupCons(k, rest);
  }

  lemma WashHolding(b: Buf, k: nat, ks: set<nat>)
    requires Structure(b) && k in b.cache && b.items[b.cache[k]].dirty
    ensures Holding(Wash(b, b.cache[k]), ks) <==> k !in ks && Holding(b, ks)
  {
    var w := Wash(b, b.cache[k]);
    assert w.cache == b.cache;
    assert !w.items[b.cache[k]].dirty;
    if k in ks {
      assert !Holding(w, ks);
    } else if Holding(b, ks) {
      forall j | j in ks ensures j in w.cache && w.cache[j] in w.items && w.items[w.cache[j]].dirty {
        assert b.cache[j] != b.cache[k];
      }
    } else {
      var j :| j in ks && !(j in b.cache && b.cache[j] in b.items && b.items[b.cache[j]].dirty);
      assert !(j in w.cache && w.cache[j] in w.items && w.items[w.cache[j]].dirty);
    }
  }

  // ---------------------------------------------------------------- the flush request

  const MAX_SUBMIT_BATCH: nat := 32

  /** A BufferFlushReq: `all` are the keys of its block request map, `log` the successful
      submissions in order. */
  datatype Req = Req(all: set<nat>, toSubmit: seq<nat>, submitted: set<nat>, log: seq<nat>)
  {
    function Finished(): (r: set<nat>)
    {
      all - Elems(toSubmit) - submitted
    }

    predicate Done()
    {
      toSubmit == [] && submitted == {}
    }
  }

  function InitReq(blocks: seq<nat>): (r: Req)
  {
    Req(Elems(blocks), blocks, {}, [])
  }

  function SubmitOne(r: Req): (r': Req)
    requires r.toSubmit != []
  {
    Req(r.all, r.toSubmit[1..], r.submitted + {r.toSubmit[0]}, r.log + [r.toSubmit[0]])
  }

  /** submitFlushReqs when the device takes `accepts` blocks and then refuses. */
  function Submit(r: Req, accepts: nat): (r': Req)
    decreases r.toSubmit
  {
    if r.toSubmit == [] || |r.submitted| > MAX_SUBMIT_BATCH || accepts == 0 then r
    else Submit(SubmitOne(r), accepts - 1)
  }

  /** blockReqFinished: a completion lets the next block go out. */
  function Finish(r: Req, k: nat): (r': Req)
  {
    var r1 := r.(submitted := r.submitted - {k});
    if r1.toSubmit == [] then r1 else SubmitOne(r1)
  }

  datatype Event = Try(accepts: nat) | Completed(k: nat)

  function Play(r: Req, ev: Event): (r': Req)
  {
    match ev
    case Try(n) => Submit(r, n)
    case Completed(k) => Finish(r, k)
  }

  /** Completions are reported for submitted blocks only. */
  predicate Plausible(r: Req, evs: seq<Event>)
    decreases evs
  {
    evs == [] ||
    ((evs[0].Completed? ==> evs[0].k in r.submitted) && Plausible(Play(r, evs[0]), evs[1..]))
  }

  function PlayAll(r: Req, evs: seq<Event>): (r': Req)
    decreases evs
  {
    if evs == [] then r else PlayAll(Play(r, evs[0]), evs[1..])
  }

  /** To-submit, submitted and finished partition the request's blocks, and at most one more than
      the batch size is outstanding. */
  ghost predicate PartInv(r: Req)
  {
    && NoDup(r.toSubmit) && Elems(r.toSubmit) <= r.all && r.submitted <= r.all
    && Elems(r.toSubmit) !! r.submitted
    && |r.submitted| <= MAX_SUBMIT_BATCH + 1
  }

  /** Every block that left the to-submit list was submitted, once. */
  ghost predicate LogInv(r: Req)
  {
    NoDup(r.log) && Elems(r.log) == r.all - Elems(r.toSubmit)
  }

  ghost predicate ReqInv(r: Req)
  {
    PartInv(r) && LogInv(r)
  }

  lemma SubmitOneParts(r: Req)
    requires PartInv(r) && r.toSubmit != [] && |r.submitted| <= MAX_SUBMIT_BATCH
    ensures PartInv(SubmitOne(r)) && SubmitOne(r).all == r.all && SubmitOne(r).Finished() == r.Finished()
  {
    var k := r.toSubmit[0];
    var rest := r.toSubmit[1..];
    assert r.toSubmit == [k] + rest;
    NoDupCons(k, rest);
    assert Elems(r.toSubmit) == {k} + Elems(rest);
  }

  lemma SubmitOneLogged(r: Req)
    requires NoDup(r.toSubmit) && Elems(r.toSubmit) <= r.all && LogInv(r) && r.toSubmit != []
    ensures LogInv(SubmitOne(r))
  {
    var k := r.toSubmit[0];
    var rest := r.toSubmit[1..];
    assert r.toSubmit == [k] + rest;
    NoDupCons(k, rest);
    assert Elems(r.toSubmit) == {k} + Elems(rest);
    assert Elems([k]) == {k};
    NoDupAppend(r.log, [k]);
  }

  lemma SubmitOneKeeps(r: Req)
    requires ReqInv(r) && r.toSubmit != [] && |r.submitted| <= MAX_SUBMIT_BATCH
    ensures ReqInv(SubmitOne(r)) && SubmitOne(r).all == r.all && SubmitOne(r).Finished() == r.Finished()
  {
    SubmitOneParts(r);
    SubmitOneLogged(r);
  }

  lemma {:induction false} SubmitKeeps(r: Req, accepts: nat)
    requires ReqInv(r)
    ensures var r' := Submit(r, accepts); ReqInv(r') && r'.all == r.all && r'.Finished() == r.Finished()
    decreases r.toSubmit
  {
    if r.toSubmit != [] && |r.submitted| <= MAX_SUBMIT_BATCH && accepts > 0 {
      SubmitOneKeeps(r);
      SubmitKeeps(SubmitOne(r), accepts - 1);
    }
  }

  lemma FinishKeeps(r: Req, k: nat)
    requires ReqInv(r) && k in r.submitted
    ensures var r' := Finish(r, k); ReqInv(r') && r'.all == r.all && r'.Finished() == r.Finished() + {k}
  {
    var r1 := r.(submitted := r.submitted - {k});
    assert r1.Finished() == r.Finished() + {k};
    if r1.toSubmit != [] {
      SubmitOneKeeps(r1);
    }
  }

  /** How many blocks go out: as many as there are, as the device takes, and as the batch has room for. */
  function Goes(r: Req, accepts: nat): (k: nat)
  {
    Least(|r.toSubmit|, Least(accepts, if |r.submitted| > MAX_SUBMIT_BATCH then 0
                                       else MAX_SUBMIT_BATCH + 1 - |r.submitted|))
  }

  /** The request after its next k blocks went out. */
  function Sent(r: Req, k: nat): (r': Req)
    requires k <= |r.toSubmit|
  {
    Req(r.all, r.toSubmit[k..], r.submitted + Elems(r.toSubmit[..k]), r.log + r.toSubmit[..k])
  }

  lemma SentNone(r: Req)
    ensures Sent(r, 0) == r
  {
    assert r.toSubmit[..0] == [] && r.toSubmit[0..] == r.toSubmit;
    assert Elems([]) == {};
  }

  lemma SentMore(r: Req, k: nat)
    requires 0 < k <= |r.toSubmit|
    ensures Sent(SubmitOne(r), k - 1) == Sent(r, k)
  {
    var q := r.toSubmit;
    var first, others := q[0], q[1..][..k - 1];
    assert q[..k] == [first] + others && q[1..][k - 1..] == q[k..];
    ElemsCons(first, others);
    Associate(r.log, [first], others);
    assert r.submitted + ({first} + Elems(others)) == (r.submitted + {first}) + Elems(others);
  }

  lemma GoesNext(r: Req, accepts: nat)
    requires r.toSubmit != [] && |r.submitted| <= MAX_SUBMIT_BATCH && accepts > 0 && r.toSubmit[0] !in r.submitted
    ensures Goes(SubmitOne(r), accepts - 1) == Goes(r, accepts) - 1
  {
    assert |SubmitOne(r).submitted| == |r.submitted| + 1;
  }

  lemma GoesNone(r: Req, accepts: nat)
    requires r.toSubmit == [] || |r.submitted| > MAX_SUBMIT_BATCH || accepts == 0
    ensures Goes(r, accepts) == 0
  {
  }

  lemma FirstIsNew(r: Req)
    requires PartInv(r) && r.toSubmit != []
    ensures r.toSubmit[0] !in r.submitted
  {
    assert r.toSubmit[0] in Elems(r.toSubmit);
  }

  lemma SubmitStep(r: Req, accepts: nat)
    requires r.toSubmit != [] && |r.submitted| <= MAX_SUBMIT_BATCH && accepts > 0 && r.toSubmit[0] !in r.submitted
    requires Submit(SubmitOne(r), accepts - 1) == Sent(SubmitOne(r), Goes(SubmitOne(r), accepts - 1))
    ensures Submit(r, accepts) == Sent(r, Goes(r, accepts))
  {
    GoesNext(r, accepts);
    SentMore(r, Goes(r, accepts));
  }

  lemma SubmitEnd(r: Req, accepts: nat)
    requires r.toSubmit == [] || |r.submitted| > MAX_SUBMIT_BATCH || accepts == 0
    ensures Submit(r, accepts) == Sent(r, Goes(r, accepts))
  {
    GoesNone(r, accepts);
    SentNone(r);
  }

  /** Submission sends out exactly the next blocks, in order. */
  lemma {:induction false} SubmitIs(r: Req, accepts: nat)
    requires PartInv(r)
    ensures Submit(r, accepts) == Sent(r, Goes(r, accepts))
    decreases r.toSubmit
  {
    if r.toSubmit != [] && |r.submitted| <= MAX_SUBMIT_BATCH && accepts > 0 {
      FirstIsNew(r);
      SubmitOneParts(r);
      SubmitIs(SubmitOne(r), accepts - 1);
      SubmitStep(r, accepts);
    } else {
      SubmitEnd(r, accepts);
    }
  }

  lemma SubmitCount(r: Req, accepts: nat)
    requires PartInv(r)
    ensures |r.toSubmit| - |Submit(r, accepts).toSubmit| == Goes(r, accepts)
  {
    SubmitIs(r, accepts);
  }

  /** A completion takes the block out, and the next one, if there is one, goes out in its place. */
  lemma FinishIs(r: Req, k: nat)
    ensures var r', n := Finish(r, k), if r.toSubmit == [] then 0 else 1;
      && r'.all == r.all && r'.toSubmit == r.toSubmit[n..]
      && r'.log == r.log + r.toSubmit[..n] && r'.submitted == r.submitted - {k} + Elems(r.toSubmit[..n])
  {
    if r.toSubmit == [] {
      assert r.toSubmit[..0] == [] && Elems([]) == {};
    } else {
      assert r.toSubmit[..1] == [r.toSubmit[0]];
      assert Elems([r.toSubmit[0]]) == {r.toSubmit[0]};
    }
  }

  function Left(r: Req): (n: nat)
  {
    |r.toSubmit| + |r.submitted|
  }

  function Completions(evs: seq<Event>): (n: nat)
  {
    if evs == [] then 0 else (if evs[0].Completed? then 1 else 0) + Completions(evs[1..])
  }

  lemma SubmitLeft(r: Req, accepts: nat)
    requires PartInv(r)
    ensures Left(Submit(r, accepts)) == Left(r)
  {
    var k := Goes(r, accepts);
    SubmitIs(r, accepts);
    SubsetSize(r.toSubmit, k);
    assert Elems(r.toSubmit[..k]) !! r.submitted;
  }

  lemma SubsetSize(q: seq<nat>, k: nat)
    requires NoDup(q) && k <= |q|
    ensures |Elems(q[..k])| == k && Elems(q[..k]) <= Elems(q)
  {
    EnumerationSize(q[..k]);
  }

  lemma FinishLeft(r: Req, k: nat)
    requires PartInv(r) && k in r.submitted
    ensures Left(Finish(r, k)) == Left(r) - 1
  {
    if r.toSubmit != [] {
      assert r.toSubmit[0] in Elems(r.toSubmit);
    }
  }

  /** A request is done exactly when as many blocks have completed as it had left, whatever the device
      took when. */
  lemma {:induction false} DoneIff(r: Req, evs: seq<Event>)
    requires ReqInv(r) && Plausible(r, evs)
    ensures Left(PlayAll(r, evs)) == Left(r) - Completions(evs)
    ensures PlayAll(r, evs).Done() <==> Completions(evs) == Left(r)
    decreases evs
  {
    if evs != [] {
      match evs[0] {
        case Try(n) => SubmitKeeps(r, n); SubmitLeft(r, n);
        case Completed(k) => FinishKeeps(r, k); FinishLeft(r, k);
      }
      DoneIff(Play(r, evs[0]), evs[1..]);
    }
  }

  /** And it gets there: a request that is not done has a block out after a try that the device takes, and
      with every completion one fewer is left. */
  lemma {:induction false} ReachesDone(r: Req) returns (evs: seq<Event>)
    requires ReqInv(r)
    ensures Plausible(r, evs) && PlayAll(r, evs).Done()
    decreases Left(r)
  {
    if r.Done() {
      evs := [];
    } else {
      var k := SomeOut(r);
      var r1 := Submit(r, 1);
      SubmitKeeps(r, 1);
      SubmitLeft(r, 1);
      FinishKeeps(r1, k);
      FinishLeft(r1, k);
      var rest := ReachesDone(Finish(r1, k));
      PlayCons(r1, Completed(k), rest);
      PlayCons(r, Try(1), [Completed(k)] + rest);
      evs := [Try(1)] + ([Completed(k)] + rest);
    }
  }

  lemma SomeOut(r: Req) returns (k: nat)
    requires PartInv(r) && !r.Done()
    ensures k in Submit(r, 1).submitted
  {
    SubmitIs(r, 1);
    if r.submitted != {} {
      k :| k in r.submitted;
    } else {
      assert Goes(r, 1) == 1 && r.toSubmit[0] in r.toSubmit[..1];
      k := r.toSubmit[0];
    }
  }

  lemma PlayCons(r: Req, ev: Event, evs: seq<Event>)
    ensures PlayAll(r, [ev] + evs) == PlayAll(Play(r, ev), evs)
    ensures (ev.Completed? ==> ev.k in r.submitted) && Plausible(Play(r, ev), evs) ==> Plausible(r, [ev] + evs)
  {
    assert ([ev] + evs)[1..] == evs;
  }

  /** Any order of failed submissions and completions keeps the partition and the bound, and a
      request that is done has submitted each of its blocks exactly once and seen all finish. */
  lemma {:induction false} FlushRequestRuns(r: Req, evs: seq<Event>)
    requires ReqInv(r) && Plausible(r, evs)
    ensures var r' := PlayAll(r, evs);
      && ReqInv(r') && r'.all == r.all && r.Finished() <= r'.Finished()
      && (r'.Done() ==> r'.Finished() == r.all && Elems(r'.log) == r.all)
    decreases evs
  {
    if evs != [] {
      match evs[0] {
        case Try(n) => SubmitKeeps(r, n);
        case Completed(k) => FinishKeeps(r, k);
      }
      FlushRequestRuns(Play(r, evs[0]), evs[1..]);
    }
  }

  lemma InitReqInv(blocks: seq<nat>)
    requires NoDup(blocks)
    ensures ReqInv(InitReq(blocks))
  {
  }
}
