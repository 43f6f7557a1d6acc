/** Block bitmaps divided among workers (cfs/include/FsProc_FsInternal.h) and the routing of bitmap
    changes after a journal write (`updateBitmapsOnJournalWriteComplete` and `updateBlockBitmaps` in
    cfs/src/FsProc_FileMng.cc). */
module Bitmaps {

  import opened BitmapRouting

  const U32: nat := 0x1_0000_0000
  const U64: nat := 0x1_0000_0000_0000_0000

  /** `total` bitmap blocks of `bpb` bits each, shared by `workers`; addresses are block numbers. */
  datatype Layout = Layout(bpb: nat, total: nat, workers: nat, bmapStart: nat, dataStart: nat)

  predicate Sane(g: Layout)
  {
    && g.bpb > 0 && g.workers > 0 && g.total / g.workers > 0
    && g.dataStart + g.total * g.bpb <= U32 && g.bmapStart + g.total <= U32
  }

  type Geometry = g: Layout | Sane(g) witness Layout(1, 1, 1, 0, 0)

  // ---------------------------------------------------------------- address arithmetic

  /** Bitmap blocks per worker. */
  function Per(g: Geometry): (n: nat)
    ensures n > 0
  {
    g.total / g.workers
  }

  /** `conv_pba_to_lba`, on unsigned 64-bit numbers. */
  function PbaToLba(g: Geometry, pba: nat): (lba: nat)
  {
    (pba - g.dataStart) % U64
  }

  /** `get_bmap_block_for_lba`: parameter and result have 32 bits. */
  function BmapOfLba(g: Geometry, lba: nat): (bno: nat)
  {
    ((lba % U32) / g.bpb + g.bmapStart) % U32
  }

  function BmapOfPba(g: Geometry, pba: nat): (bno: nat)
  {
    BmapOfLba(g, PbaToLba(g, pba % U32))
  }

  function WidOf(g: Geometry, bno: nat): (wid: nat)
  {
    ((bno - g.bmapStart) % U64) / Per(g)
  }

  function Owner(g: Geometry, pba: nat): (wid: nat)
  {
    WidOf(g, BmapOfPba(g, pba))
  }

  /** A data block whose bit lies in some bitmap block. */
  predicate InDevice(g: Geometry, pba: nat)
  {
    g.dataStart <= pba < g.dataStart + g.total * g.bpb
  }

  lemma DivBound(x: nat, d: nat, n: nat)
    requires d > 0
    ensures x / d < n <==> x < n * d
  {
    var q, r := x / d, x % d;
    assert x == q * d + r;
    if q < n {
      assert (q + 1) * d <= n * d by { MulMonotone(q + 1, n, d); }
    } else {
      assert n * d <= q * d by { MulMonotone(n, q, d); }
    }
  }

  lemma MulMonotone(a: nat, b: nat, d: nat)
    requires a <= b
    ensures a * d <= b * d
  {
  }

  lemma SmallMod(x: nat, m: nat)
    requires x < m
    ensures x % m == x
  {
  }

  lemma PlainLba(g: Geometry, pba: nat)
    requires InDevice(g, pba)
    ensures PbaToLba(g, pba) == PbaToLba(g, pba % U32) == pba - g.dataStart < U32
    ensures (pba - g.dataStart) / g.bpb < g.total
  {
    SmallMod(pba, U32);
    SmallMod(pba - g.dataStart, U64);
    DivBound(pba - g.dataStart, g.bpb, g.total);
  }

  lemma PlainBmap(g: Geometry, lba: nat)
    requires lba < U32 && lba / g.bpb < g.total
    ensures BmapOfLba(g, lba) == lba / g.bpb + g.bmapStart
    ensures WidOf(g, lba / g.bpb + g.bmapStart) == lba / g.bpb / Per(g)
  {
    SmallMod(lba, U32);
    SmallMod(lba / g.bpb + g.bmapStart, U32);
    SmallMod(lba / g.bpb, U64);
  }

  /** Within the device no conversion wraps or truncates. */
  lemma PlainArithmetic(g: Geometry, pba: nat)
    requires InDevice(g, pba)
    ensures PbaToLba(g, pba) == pba - g.dataStart
    ensures BmapOfPba(g, pba) == BmapOfLba(g, PbaToLba(g, pba)) == (pba - g.dataStart) / g.bpb + g.bmapStart
    ensures Owner(g, pba) == (pba - g.dataStart) / g.bpb / Per(g)
  {
    PlainLba(g, pba);
    PlainBmap(g, pba - g.dataStart);
  }

  /** The owner is an existing worker exactly for the blocks of the `workers * Per` shares. */
  lemma OwnerExistsIff(g: Geometry, pba: nat)
    requires InDevice(g, pba)
    ensures Owner(g, pba) < g.workers <==> pba - g.dataStart < g.workers * Per(g) * g.bpb
  {
    PlainArithmetic(g, pba);
    var k := (pba - g.dataStart) / g.bpb;
    DivBound(k, Per(g), g.workers);
    DivBound(pba - g.dataStart, g.bpb, g.workers * Per(g));
  }

  /** The blocks of a worker's share. */
  lemma ShareOf(g: Geometry, bno: nat, wid: nat)
    requires g.bmapStart <= bno < U64
    ensures WidOf(g, bno) == wid <==> g.bmapStart + wid * Per(g) <= bno < g.bmapStart + wid * Per(g) + Per(g)
  {
    SmallMod(bno - g.bmapStart, U64);
    DivBound(bno - g.bmapStart, Per(g), wid);
    DivBound(bno - g.bmapStart, Per(g), wid + 1);
    assert (wid + 1) * Per(g) == wid * Per(g) + Per(g);
  }

  /** `get_bmap_start_block_for_worker`. */
  method StartForWorker(g: Geometry, wid: nat) returns (start: nat)
    ensures start == g.bmapStart + wid * Per(g)
    ensures forall bno :: g.bmapStart <= bno < U64 ==>
      (WidOf(g, bno) == wid <==> start <= bno < start + Per(g))
  {
    var n := 0;
    for i := 0 to wid
      invariant n == i * Per(g)
    {
      n := n + Per(g);
    }
    start := g.bmapStart + n;
    forall bno | g.bmapStart <= bno < U64 ensures WidOf(g, bno) == wid <==> start <= bno < start + Per(g) {
      ShareOf(g, bno, wid);
    }
  }

  /** An 800 GB device shared by ten workers: 6401 bitmap blocks, of which the last has no owner, and
      every block of the device lies in a share. */
  lemma DeviceIsShared(g: Geometry, pba: nat)
    requires g.bpb == 32768 && g.workers == 10 && g.total == 858993459200 / 4096 / 32768 + 1
    requires g.dataStart <= pba
    ensures pba < 858993459200 / 4096 ==> InDevice(g, pba) && Owner(g, pba) < 10
    ensures InDevice(g, pba) && pba - g.dataStart >= 858993459200 / 4096 ==> Owner(g, pba) == 10
  {
    assert g.total == 6401 && Per(g) == 640;
    if InDevice(g, pba) {
      OwnerExistsIff(g, pba);
      PlainArithmetic(g, pba);
      TenthOwner(pba - g.dataStart);
    }
  }

  lemma TenthOwner(lba: nat)
    requires lba < 6401 * 32768
    ensures lba >= 6400 * 32768 ==> lba / 32768 / 640 == 10
  {
  }

  // ---------------------------------------------------------------- the scheme

  function SchemeOf(g: Geometry): (c: Scheme)
  {
    Scheme(
      pba => Owner(g, pba),
      pba => BmapOfLba(g, PbaToLba(g, pba)),
      pba => PbaToLba(g, pba) % g.bpb,
      (pba: nat) => InDevice(g, pba),
      g.workers)
  }

  lemma SameQuotient(x: nat, y: nat, d: nat)
    requires d > 0 && x / d == y / d && x % d == y % d
    ensures x == y
  {
    assert x == x / d * d + x % d && y == y / d * d + y % d;
  }

  lemma BitsDistinct(g: Geometry, p: nat, q: nat)
    requires InDevice(g, p) && InDevice(g, q)
    requires BmapOfLba(g, PbaToLba(g, p)) == BmapOfLba(g, PbaToLba(g, q))
    requires PbaToLba(g, p) % g.bpb == PbaToLba(g, q) % g.bpb
    ensures p == q
  {
    PlainArithmetic(g, p);
    PlainArithmetic(g, q);
    SameQuotient(p - g.dataStart, q - g.dataStart, g.bpb);
  }

  lemma SchemeSeparates(g: Geometry)
    ensures Separates(SchemeOf(g))
  {
    var c := SchemeOf(g);
    forall p, q | c.valid(p) && c.valid(q) && c.at(p) == c.at(q) && c.pos(p) == c.pos(q) ensures p == q {
      BitsDistinct(g, p, q);
    }
  }

  /** In every run of routed entries the bit of a block of the shares is that of the flat bitmap after the
      entries its owner has processed, and after the whole journal once the owner is through, if the
      entries that name the block reached it in the journal's order. */
  lemma SharesMirrorFlat(g: Geometry, es: seq<seq<Ops>>, journal: seq<Ops>, s: Sys, ws: seq<nat>, s': Sys, pba: nat)
    requires Shared(SchemeOf(g), s) && |es| == g.workers && Runs(SchemeOf(g), es, s, ws, s')
    requires forall w :: 0 <= w < g.workers ==> s.done[w] == 0
    requires g.dataStart <= pba < g.dataStart + g.workers * Per(g) * g.bpb && InDevice(g, pba)
    ensures Shared(SchemeOf(g), s') && Owner(g, pba) < g.workers && s'.done[Owner(g, pba)] <= |es[Owner(g, pba)]|
    ensures JointBit(SchemeOf(g), s', pba) ==
            FlatAll(JointBit(SchemeOf(g), s, pba), es[Owner(g, pba)][..s'.done[Owner(g, pba)]], pba)
    ensures s'.done[Owner(g, pba)] == |es[Owner(g, pba)]| && Naming(es[Owner(g, pba)], pba) == Naming(journal, pba) ==>
              JointBit(SchemeOf(g), s', pba) == FlatAll(JointBit(SchemeOf(g), s, pba), journal, pba)
  {
    SchemeSeparates(g);
    OwnerExistsIff(g, pba);
    RoutedRunsAreFlat(SchemeOf(g), es, s, ws, s', pba);
    if Naming(es[Owner(g, pba)], pba) == Naming(journal, pba) {
      JointIsFlat(SchemeOf(g), es, journal, s, ws, s', pba);
    }
  }
}
