/** Routing of bitmap changes to the workers that own the bitmaps after a journal write
    (`updateBitmapsOnJournalWriteComplete` and `updateBlockBitmaps` in cfs/src/FsProc_FileMng.cc), for
    any assignment of blocks to bits and of bitmap blocks to workers. */
module BitmapRouting {

  /** Where a block's bit is (bitmap block and position), which worker owns it, and which numbers are blocks. */
  datatype Scheme = Scheme(own: nat -> nat, at: nat -> nat, pos: nat -> nat, valid: nat -> bool, workers: nat)

  /** Different blocks have different bits. */
  ghost predicate Separates(c: Scheme)
  {
    forall p, q :: c.valid(p) && c.valid(q) && c.at(p) == c.at(q) && c.pos(p) == c.pos(q) ==> p == q
  }

  // ---------------------------------------------------------------- routing

  datatype Ops = Ops(sets: seq<nat>, clears: seq<nat>)

  /** The blocks of one owner, in order. */
  function Mine(c: Scheme, bs: seq<nat>, wid: nat): (r: seq<nat>)
    ensures forall b :: b in r <==> b in bs && c.own(b) == wid
  {
    if bs == [] then []
    else
      var r, b := Mine(c, bs[..|bs| - 1], wid), bs[|bs| - 1];
      if c.own(b) == wid then r + [b] else r
  }

  function Part(c: Scheme, ops: Ops, wid: nat): (r: Ops)
  {
    Ops(Mine(c, ops.sets, wid), Mine(c, ops.clears, wid))
  }

  /** Nothing is lost or duplicated: a block occurs in its owner's part as often as in the list. */
  lemma {:induction false} RoutingConserves(c: Scheme, bs: seq<nat>, b: nat, wid: nat)
    ensures multiset(Mine(c, bs, wid))[b] == if c.own(b) == wid then multiset(bs)[b] else 0
  {
    if bs != [] {
      var front, last := bs[..|bs| - 1], bs[|bs| - 1];
      RoutingConserves(c, front, b, wid);
      assert bs == front + [last];
    }
  }

  /** The blocks are judged one by one, so they keep their order. */
  lemma {:induction false} MineConcat(c: Scheme, a: seq<nat>, b: seq<nat>, wid: nat)
    ensures Mine(c, a + b, wid) == Mine(c, a, wid) + Mine(c, b, wid)
  {
    if b == [] {
      assert a + b == a;
    } else {
      MineConcat(c, a, b[..|b| - 1], wid);
      assert (a + b)[..|a + b| - 1] == a + b[..|b| - 1];
    }
  }

  lemma MineSnoc(c: Scheme, bs: seq<nat>, i: nat, wid: nat)
    requires i < |bs|
    ensures Mine(c, bs[..i + 1], wid) ==
            if c.own(bs[i]) == wid then Mine(c, bs[..i], wid) + [bs[i]] else Mine(c, bs[..i], wid)
  {
    assert bs[..i + 1][..i] == bs[..i];
  }

  function OpsFor(m: map<nat, Ops>, wid: nat): (r: Ops)
  {
    if wid in m then m[wid] else Ops([], [])
  }

  function Extended(o: Ops, bs: seq<nat>, set_: bool): (r: Ops)
  {
    if set_ then o.(sets := o.sets + bs) else o.(clears := o.clears + bs)
  }

  predicate RoutedAt(c: Scheme, m0: map<nat, Ops>, m: map<nat, Ops>, bs: seq<nat>, set_: bool, w: nat)
  {
    && (w in m <==> w in m0 || Mine(c, bs, w) != [])
    && OpsFor(m, w) == Extended(OpsFor(m0, w), Mine(c, bs, w), set_)
  }

  lemma RouteStep(c: Scheme, m0: map<nat, Ops>, m: map<nat, Ops>, bs: seq<nat>, i: nat, set_: bool, w: nat)
    requires i < |bs| && RoutedAt(c, m0, m, bs[..i], set_, w)
    ensures var wid := c.own(bs[i]);
            RoutedAt(c, m0, m[wid := Extended(OpsFor(m, wid), [bs[i]], set_)], bs[..i + 1], set_, w)
  {
    MineSnoc(c, bs, i, w);
    assert OpsFor(m0, w).sets + (Mine(c, bs[..i], w) + [bs[i]]) ==
           OpsFor(m0, w).sets + Mine(c, bs[..i], w) + [bs[i]];
    assert OpsFor(m0, w).clears + (Mine(c, bs[..i], w) + [bs[i]]) ==
           OpsFor(m0, w).clears + Mine(c, bs[..i], w) + [bs[i]];
  }

  /** One list, sorted by owner into what is there already. */
  method RouteList(c: Scheme, m0: map<nat, Ops>, bs: seq<nat>, set_: bool) returns (m: map<nat, Ops>)
    ensures forall w :: RoutedAt(c, m0, m, bs, set_, w)
  {
    m := m0;
    for i := 0 to |bs|
      invariant forall w :: RoutedAt(c, m0, m, bs[..i], set_, w)
    {
      var wid := c.own(bs[i]);
      ghost var m', seen := m, bs[..i + 1];
      m := m[wid := Extended(OpsFor(m, wid), [bs[i]], set_)];
      forall w ensures RoutedAt(c, m0, m, seen, set_, w) {
        RouteStep(c, m0, m', bs, i, set_, w);
      }
    }
    assert bs[..|bs|] == bs;
  }

  ghost predicate Named(c: Scheme, ops: Ops, w: nat)
  {
    exists b :: b in ops.sets + ops.clears && c.own(b) == w
  }

  /** Each owner gets its part of the two lists and no one else gets anything. */
  method Route(c: Scheme, ops: Ops) returns (m: map<nat, Ops>)
    ensures forall w :: OpsFor(m, w) == Part(c, ops, w)
    ensures forall w :: w in m <==> Named(c, ops, w)
  {
    var m1 := RouteList(c, map[], ops.sets, true);
    m := RouteList(c, m1, ops.clears, false);
    forall w ensures OpsFor(m, w) == Part(c, ops, w) && (w in m <==> Named(c, ops, w)) {
      assert RoutedAt(c, map[], m1, ops.sets, true, w) && RoutedAt(c, m1, m, ops.clears, false, w);
      assert [] + Mine(c, ops.sets, w) == Mine(c, ops.sets, w);
      PartNamed(c, ops, w);
    }
  }

  lemma PartNamed(c: Scheme, ops: Ops, w: nat)
    ensures Named(c, ops, w) <==> Mine(c, ops.sets, w) != [] || Mine(c, ops.clears, w) != []
  {
    var r, r' := Mine(c, ops.sets, w), Mine(c, ops.clears, w);
    if r != [] {
      assert r[0] in r && r[0] in ops.sets + ops.clears;
    }
    if r' != [] {
      assert r'[0] in r' && r'[0] in ops.sets + ops.clears;
    }
  }

  // ---------------------------------------------------------------- stable bitmaps

  /** Bitmap blocks, each with the positions of its set bits. */
  type Bits = map<nat, set<nat>>

  predicate Bit(c: Scheme, m: Bits, pba: nat)
  {
    c.at(pba) in m && c.pos(pba) in m[c.at(pba)]
  }

  function Put(c: Scheme, m: Bits, pba: nat, bit: bool): (r: Bits)
    requires c.at(pba) in m
  {
    var b := c.at(pba);
    m[b := if bit then m[b] + {c.pos(pba)} else m[b] - {c.pos(pba)}]
  }

  predicate Covers(c: Scheme, m: Bits, bs: seq<nat>)
  {
    forall b :: b in bs ==> c.valid(b) && c.at(b) in m
  }

  function PutAll(c: Scheme, m: Bits, bs: seq<nat>, bit: bool): (r: Bits)
    requires Covers(c, m, bs)
    ensures r.Keys == m.Keys
  {
    if bs == [] then m else Put(c, PutAll(c, m, bs[..|bs| - 1], bit), bs[|bs| - 1], bit)
  }

  lemma {:induction false} PutAllBit(c: Scheme, m: Bits, bs: seq<nat>, bit: bool, q: nat)
    requires Separates(c) && Covers(c, m, bs) && c.valid(q) && c.at(q) in m
    ensures Bit(c, PutAll(c, m, bs, bit), q) == if q in bs then bit else Bit(c, m, q)
  {
    if bs != [] {
      var front, last := bs[..|bs| - 1], bs[|bs| - 1];
      PutAllBit(c, m, front, bit, q);
      assert bs == front + [last];
    }
  }

  /** What one worker does with its part. */
  function Applied(c: Scheme, m: Bits, ops: Ops): (r: Bits)
    requires Covers(c, m, ops.sets) && Covers(c, m, ops.clears)
    ensures r.Keys == m.Keys
  {
    PutAll(c, PutAll(c, m, ops.sets, true), ops.clears, false)
  }

  /** All sets and then all clears, on one flat bitmap. */
  function Flat(bit: bool, ops: Ops, q: nat): (r: bool)
  {
    if q in ops.clears then false else if q in ops.sets then true else bit
  }

  function FlatAll(bit: bool, es: seq<Ops>, q: nat): (r: bool)
  {
    if es == [] then bit else Flat(FlatAll(bit, es[..|es| - 1], q), es[|es| - 1], q)
  }

  /** The bitmap blocks that hold the bits of some blocks. */
  function Homes(c: Scheme, bs: seq<nat>): (r: set<nat>)
    ensures forall b :: b in bs ==> c.at(b) in r
  {
    if bs == [] then {} else Homes(c, bs[..|bs| - 1]) + {c.at(bs[|bs| - 1])}
  }

  /** They are exactly the bitmap blocks that hold the bits of the blocks given. */
  lemma {:induction false} HomesIff(c: Scheme, bs: seq<nat>, x: nat)
    ensures x in Homes(c, bs) <==> exists i :: 0 <= i < |bs| && c.at(bs[i]) == x
  {
    if bs != [] {
      HomesIff(c, bs[..|bs| - 1], x);
      if x in Homes(c, bs[..|bs| - 1]) {
        var i :| 0 <= i < |bs| - 1 && c.at(bs[..|bs| - 1][i]) == x;
        assert c.at(bs[i]) == x;
      }
      if x == c.at(bs[|bs| - 1]) {
        assert 0 <= |bs| - 1 < |bs|;
      }
      if i :| 0 <= i < |bs| && c.at(bs[i]) == x {
        assert i < |bs| - 1 ==> bs[..|bs| - 1][i] == bs[i];
      }
    }
  }

  lemma PutAllSnoc(c: Scheme, m: Bits, bs: seq<nat>, i: nat, bit: bool)
    requires i < |bs| && Covers(c, m, bs)
    ensures Covers(c, m, bs[..i]) && Covers(c, m, bs[..i + 1])
    ensures PutAll(c, m, bs[..i + 1], bit) == Put(c, PutAll(c, m, bs[..i], bit), bs[i], bit)
    ensures Homes(c, bs[..i + 1]) == Homes(c, bs[..i]) + {c.at(bs[i])}
  {
    assert bs[..i + 1][..i] == bs[..i];
  }

  /** `updateBlockBitmaps` at one worker; `dirty` holds the in-memory bitmaps, where bits are only cleared. */
  class WorkerBitmaps {
    var stable: Bits
    var dirty: Bits
    var cleared: set<nat>

    method UpdateBlockBitmaps(c: Scheme, ops: Ops)
      requires Covers(c, stable, ops.sets) && Covers(c, stable, ops.clears) && Covers(c, dirty, ops.clears)
      modifies this
      ensures stable == Applied(c, old(stable), ops)
      ensures dirty == PutAll(c, old(dirty), ops.clears, false)
      ensures cleared == old(cleared) + Homes(c, ops.clears)
    {
      SetBits(c, ops.sets);
      ClearBits(c, ops.clears);
    }

    method SetBits(c: Scheme, bs: seq<nat>)
      requires Covers(c, stable, bs)
      modifies this`stable
      ensures stable == PutAll(c, old(stable), bs, true)
    {
      for i := 0 to |bs|
        invariant Covers(c, old(stable), bs[..i]) && stable == PutAll(c, old(stable), bs[..i], true)
      {
        PutAllSnoc(c, old(stable), bs, i, true);
        stable := Put(c, stable, bs[i], true);
      }
      assert bs[..|bs|] == bs;
    }

    method ClearBits(c: Scheme, bs: seq<nat>)
      requires Covers(c, stable, bs) && Covers(c, dirty, bs)
      modifies this
      ensures stable == PutAll(c, old(stable), bs, false)
      ensures dirty == PutAll(c, old(dirty), bs, false)
      ensures cleared == old(cleared) + Homes(c, bs)
    {
      for i := 0 to |bs|
        invariant Covers(c, old(stable), bs[..i]) && stable == PutAll(c, old(stable), bs[..i], false)
        invariant Covers(c, old(dirty), bs[..i]) && dirty == PutAll(c, old(dirty), bs[..i], false)
        invariant cleared == old(cleared) + Homes(c, bs[..i])
      {
        PutAllSnoc(c, old(stable), bs, i, false);
        PutAllSnoc(c, old(dirty), bs, i, false);
        cleared := cleared + {c.at(bs[i])};
        stable := Put(c, stable, bs[i], false);
        dirty := Put(c, dirty, bs[i], false);
      }
      assert bs[..|bs|] == bs;
    }
  }

  // ---------------------------------------------------------------- workers applying their parts

  /** The workers' stable bitmaps, and how many of the entries that reach it each has processed. */
  datatype Sys = Sys(stable: seq<Bits>, done: seq<nat>)

  /** Every worker has the bitmap blocks of its share. */
  ghost predicate Shared(c: Scheme, s: Sys)
  {
    && |s.stable| == |s.done| == c.workers
    && (forall w, q :: 0 <= w < c.workers && c.valid(q) && c.own(q) == w ==> c.at(q) in s.stable[w])
  }

  /** Every block named lies in some worker's share. */
  ghost predicate InShares(c: Scheme, ops: Ops)
  {
    forall b :: b in ops.sets || b in ops.clears ==> c.valid(b) && c.own(b) < c.workers
  }

  /** `es[w]` are the entries in the order in which they reach worker `w`: entries of different journal
      writers need not reach two owners in the same order. */
  ghost predicate Enabled(c: Scheme, es: seq<seq<Ops>>, s: Sys, w: nat)
  {
    && Shared(c, s) && |es| == c.workers && w < c.workers && s.done[w] < |es[w]|
    && InShares(c, es[w][s.done[w]])
  }

  /** Worker `w` processes its part of the next entry. */
  ghost function Step(c: Scheme, es: seq<seq<Ops>>, s: Sys, w: nat): (r: Sys)
    requires Enabled(c, es, s, w)
  {
    var part := Part(c, es[w][s.done[w]], w);
    assert Covers(c, s.stable[w], part.sets) && Covers(c, s.stable[w], part.clears);
    Sys(s.stable[w := Applied(c, s.stable[w], part)], s.done[w := s.done[w] + 1])
  }

  ghost predicate Runs(c: Scheme, es: seq<seq<Ops>>, s: Sys, ws: seq<nat>, s': Sys)
    decreases ws
  {
    if ws == [] then s' == s
    else Enabled(c, es, s, ws[0]) && Runs(c, es, Step(c, es, s, ws[0]), ws[1..], s')
  }

  /** A block's bit, looked up at its owner. */
  ghost predicate JointBit(c: Scheme, s: Sys, q: nat)
    requires Shared(c, s)
  {
    c.own(q) < c.workers && Bit(c, s.stable[c.own(q)], q)
  }

  /** Each bit of the joint bitmap is that of the flat bitmap after the entries its owner has seen. */
  ghost predicate Mirrors(c: Scheme, es: seq<seq<Ops>>, init: iset<nat>, s: Sys)
  {
    && Shared(c, s) && |es| == c.workers
    && (forall w :: 0 <= w < c.workers ==> s.done[w] <= |es[w]|)
    && (forall q :: c.valid(q) && c.own(q) < c.workers ==>
          JointBit(c, s, q) == FlatAll(q in init, es[c.own(q)][..s.done[c.own(q)]], q))
  }

  lemma AppliedBit(c: Scheme, m: Bits, ops: Ops, w: nat, q: nat)
    requires Separates(c)
    requires var part := Part(c, ops, w); Covers(c, m, part.sets) && Covers(c, m, part.clears)
    requires c.valid(q) && c.own(q) == w && c.at(q) in m
    ensures Bit(c, Applied(c, m, Part(c, ops, w)), q) == Flat(Bit(c, m, q), ops, q)
  {
    var part := Part(c, ops, w);
    var m1 := PutAll(c, m, part.sets, true);
    PutAllBit(c, m, part.sets, true, q);
    PutAllBit(c, m1, part.clears, false, q);
  }

  lemma StepMirrors(c: Scheme, es: seq<seq<Ops>>, init: iset<nat>, s: Sys, w: nat)
    requires Separates(c) && Mirrors(c, es, init, s) && Enabled(c, es, s, w)
    ensures Mirrors(c, es, init, Step(c, es, s, w))
  {
    var s' := Step(c, es, s, w);
    assert s'.stable[w].Keys == s.stable[w].Keys;
    forall q | c.valid(q) && c.own(q) < c.workers
      ensures JointBit(c, s', q) == FlatAll(q in init, es[c.own(q)][..s'.done[c.own(q)]], q)
    {
      assert JointBit(c, s, q) == FlatAll(q in init, es[c.own(q)][..s.done[c.own(q)]], q);
      if c.own(q) == w {
        var k := s.done[w];
        assert es[w][..k + 1][..k] == es[w][..k];
        AppliedBit(c, s.stable[w], es[w][k], w, q);
      }
    }
  }

  lemma {:induction false} RunMirrors(c: Scheme, es: seq<seq<Ops>>, init: iset<nat>, s: Sys, ws: seq<nat>, s': Sys)
    requires Separates(c) && Mirrors(c, es, init, s) && Runs(c, es, s, ws, s')
    ensures Mirrors(c, es, init, s')
    decreases ws
  {
    if ws != [] {
      StepMirrors(c, es, init, s, ws[0]);
      RunMirrors(c, es, init, Step(c, es, s, ws[0]), ws[1..], s');
    }
  }

  /** In every interleaving each bit is that of a flat bitmap after the entries its owner has processed,
      in the order in which they reached the owner. */
  lemma RoutedRunsAreFlat(c: Scheme, es: seq<seq<Ops>>, s: Sys, ws: seq<nat>, s': Sys, q: nat)
    requires Separates(c) && |es| == c.workers
    requires Shared(c, s) && (forall w :: 0 <= w < c.workers ==> s.done[w] == 0) && Runs(c, es, s, ws, s')
    requires c.valid(q) && c.own(q) < c.workers
    ensures Shared(c, s') && s'.done[c.own(q)] <= |es[c.own(q)]|
    ensures JointBit(c, s', q) == FlatAll(JointBit(c, s, q), es[c.own(q)][..s'.done[c.own(q)]], q)
  {
    var init := iset q | JointBit(c, s, q);
    RunMirrors(c, es, init, s, ws, s');
  }

  // ---------------------------------------------------------------- one order for all

  /** The entries that name a block, in order. */
  function Naming(es: seq<Ops>, q: nat): (r: seq<Ops>)
  {
    if es == [] then []
    else
      var r, e := Naming(es[..|es| - 1], q), es[|es| - 1];
      if q in e.sets || q in e.clears then r + [e] else r
  }

  /** Only these matter to the block's bit. */
  lemma {:induction false} NamingDecides(bit: bool, es: seq<Ops>, q: nat)
    ensures FlatAll(bit, Naming(es, q), q) == FlatAll(bit, es, q)
  {
    if es != [] {
      var front, e := es[..|es| - 1], es[|es| - 1];
      NamingDecides(bit, front, q);
      if q in e.sets || q in e.clears {
        assert (Naming(front, q) + [e])[..|Naming(front, q)|] == Naming(front, q);
      }
    }
  }

  /** When every owner has processed its entries, the joint bitmap is the flat bitmap after the whole
      journal, for every block whose entries reached its owner in the journal's order. */
  lemma JointIsFlat(c: Scheme, es: seq<seq<Ops>>, journal: seq<Ops>, s: Sys, ws: seq<nat>, s': Sys, q: nat)
    requires Separates(c) && |es| == c.workers
    requires Shared(c, s) && (forall w :: 0 <= w < c.workers ==> s.done[w] == 0) && Runs(c, es, s, ws, s')
    requires c.valid(q) && c.own(q) < c.workers
    requires Naming(es[c.own(q)], q) == Naming(journal, q)
    ensures Shared(c, s')
    ensures s'.done[c.own(q)] == |es[c.own(q)]| ==>
              JointBit(c, s', q) == FlatAll(JointBit(c, s, q), journal, q)
  {
    var mine := es[c.own(q)];
    RoutedRunsAreFlat(c, es, s, ws, s', q);
    assert mine[..|mine|] == mine;
    NamingDecides(JointBit(c, s, q), mine, q);
    NamingDecides(JointBit(c, s, q), journal, q);
  }
}
