/** The journal's format: an inode's log entry as bytes and back (`serialize`, `calcSize` and the
    deserialising constructor of InodeLogEntry, `serializeBody` and `deserializeBody` of JournalEntry, in
    cfs/src/FsProc_JournalBasic.cc and cfs/include/FsProc__JournalEnabled.h). */
module JournalCodec {

  import opened NatLists
  import opened Bytes
  import L = InodeLog
  import S = SyncBatches

  /** Sync number; option bits, mode, owner, group, block count, bitmap operation; three times of seconds
      and microseconds; entry count, link count, size. */
  const META: seq<nat> := ([8, 4, 4, 4] + [4, 4, 4, 8]) + ([8, 8, 8, 8] + [8, 2, 1, 8])
  /** Block; sequence number, offset, length, flag, and three bytes between. */
  const EXTENT: seq<nat> := [8, 4, 4, 4] + [1, 3]
  const PAIR: seq<nat> := [8, 8]

  /** What an entry on disk says. */
  datatype Image = Image(ino: nat, meta: seq<nat>, add: map<nat, L.Val>, del: map<nat, L.Val>, deps: map<nat, nat>)

  /** The orders in which the three hash maps are traversed, and what the bytes between hold. */
  datatype Way = Way(add: seq<nat>, del: seq<nat>, deps: seq<nat>, gap: nat -> nat)

  lemma SumFour(a: nat, b: nat, c: nat, d: nat)
    ensures Sum([a, b, c, d]) == a + b + c + d
  {
    assert [a, b, c, d][1..] == [b, c, d] && [b, c, d][1..] == [c, d] && [c, d][1..] == [d] && [d][1..] == [];
    assert Sum([c, d]) == c + Sum([d]) && Sum([d]) == d;
  }

  lemma MetaWidths()
    ensures Sum(META) == 91
  {
    SumFour(8, 4, 4, 4);
    SumFour(4, 4, 4, 8);
    SumFour(8, 8, 8, 8);
    SumFour(8, 2, 1, 8);
    WidthsOf([8, 4, 4, 4], [4, 4, 4, 8]);
    WidthsOf([8, 8, 8, 8], [8, 2, 1, 8]);
    WidthsOf([8, 4, 4, 4] + [4, 4, 4, 8], [8, 8, 8, 8] + [8, 2, 1, 8]);
  }

  lemma RowWidths()
    ensures Sum(EXTENT) == 24 && Sum(PAIR) == 16
  {
    SumFour(8, 4, 4, 4);
    assert [1, 3][1..] == [3] && [3][1..] == [];
    WidthsOf([8, 4, 4, 4], [1, 3]);
    assert PAIR[1..] == [8] && [8][1..] == [];
  }

  lemma Widths()
    ensures Sum(META) == 91 && Sum(EXTENT) == 24 && Sum(PAIR) == 16
  {
    MetaWidths();
    RowWidths();
  }

  lemma {:induction false} WidthsOf(a: seq<nat>, b: seq<nat>)
    ensures Sum(a + b) == Sum(a) + Sum(b)
    decreases a
  {
    if a == [] {
      assert a + b == b;
    } else {
      WidthsOf(a[1..], b);
      assert (a + b)[1..] == a[1..] + b;
    }
  }

  // ---------------------------------------------------------------- maps as rows

  function ExtentRow(b: nat, v: L.Val, gap: nat): (row: seq<nat>)
  {
    [b, v.seqNo, v.offset, v.num, if v.modified then 1 else 0, gap]
  }

  function ExtentRows(m: map<nat, L.Val>, order: seq<nat>, gap: nat -> nat): (rows: seq<seq<nat>>)
    requires forall b :: b in order ==> b in m
    ensures |rows| == |order| && forall i :: 0 <= i < |rows| ==> |rows[i]| == 6
  {
    if order == [] then []
    else
      var last := order[|order| - 1];
      ExtentRows(m, order[..|order| - 1], gap) + [ExtentRow(last, m[last], gap(|order| - 1))]
  }

  function RowVal(row: seq<nat>): (v: L.Val)
    requires |row| == 6
  {
    L.Val(row[1], row[2], row[3], row[4] != 0)
  }

  /** The map that the rows are entered into, one after the other. */
  function ExtentMap(rows: seq<seq<nat>>): (m: map<nat, L.Val>)
    requires forall i :: 0 <= i < |rows| ==> |rows[i]| == 6
  {
    if rows == [] then map[]
    else ExtentMap(rows[..|rows| - 1])[rows[|rows| - 1][0] := RowVal(rows[|rows| - 1])]
  }

  lemma {:induction false} ExtentsEntered(m: map<nat, L.Val>, order: seq<nat>, gap: nat -> nat)
    requires forall b :: b in order ==> b in m
    ensures var r := ExtentMap(ExtentRows(m, order, gap));
      r.Keys == Elems(order) && forall b :: b in order ==> r[b] == m[b]
  {
    if order != [] {
      var front, last := order[..|order| - 1], order[|order| - 1];
      assert order == front + [last];
      ExtentsEntered(m, front, gap);
      var rows, row := ExtentRows(m, front, gap), ExtentRow(last, m[last], gap(|front|));
      assert (rows + [row])[..|rows|] == rows;
      assert RowVal(row) == m[last];
      assert Elems(order) == Elems(front) + {last};
    }
  }

  lemma SameMap<V>(a: map<nat, V>, b: map<nat, V>)
    requires a.Keys == b.Keys && forall k :: k in a.Keys ==> a[k] == b[k]
    ensures a == b
  {
  }

  lemma ExtentsRound(m: map<nat, L.Val>, order: seq<nat>, gap: nat -> nat)
    requires Enumerates(order, m.Keys)
    ensures (forall b :: b in order ==> b in m) && ExtentMap(ExtentRows(m, order, gap)) == m
  {
    assert forall b :: b in order ==> b in Elems(order);
    ExtentsEntered(m, order, gap);
    SameMap(ExtentMap(ExtentRows(m, order, gap)), m);
  }

  function PairRows(m: map<nat, nat>, order: seq<nat>): (rows: seq<seq<nat>>)
    requires forall k :: k in order ==> k in m
    ensures |rows| == |order| && forall i :: 0 <= i < |rows| ==> |rows[i]| == 2
  {
    if order == [] then []
    else
      var last := order[|order| - 1];
      PairRows(m, order[..|order| - 1]) + [[last, m[last]]]
  }

  function PairMap(rows: seq<seq<nat>>): (m: map<nat, nat>)
    requires forall i :: 0 <= i < |rows| ==> |rows[i]| == 2
  {
    if rows == [] then map[] else PairMap(rows[..|rows| - 1])[rows[|rows| - 1][0] := rows[|rows| - 1][1]]
  }

  lemma {:induction false} PairsEntered(m: map<nat, nat>, order: seq<nat>)
    requires forall k :: k in order ==> k in m
    ensures var r := PairMap(PairRows(m, order)); r.Keys == Elems(order) && forall k :: k in order ==> r[k] == m[k]
  {
    if order != [] {
      var front, last := order[..|order| - 1], order[|order| - 1];
      assert order == front + [last];
      PairsEntered(m, front);
      var rows := PairRows(m, front);
      assert (rows + [[last, m[last]]])[..|rows|] == rows;
      assert Elems(order) == Elems(front) + {last};
    }
  }

  lemma PairsRound(m: map<nat, nat>, order: seq<nat>)
    requires Enumerates(order, m.Keys)
    ensures (forall k :: k in order ==> k in m) && PairMap(PairRows(m, order)) == m
  {
    assert forall k :: k in order ==> k in Elems(order);
    PairsEntered(m, order);
    SameMap(PairMap(PairRows(m, order)), m);
  }

  // ---------------------------------------------------------------- one entry

  predicate ValFits(v: L.Val)
  {
    v.seqNo < Pow(4) && v.offset < Pow(4) && v.num < Pow(4)
  }

  predicate ExtentsFit(m: map<nat, L.Val>)
  {
    |m| < Pow(8) && forall b :: b in m ==> b < Pow(8) && ValFits(m[b])
  }

  /** Every number fits the width it is written in, as the fields of the source do. */
  predicate Fits(im: Image)
  {
    && im.ino < Pow(8) && Fit(META, im.meta) && ExtentsFit(im.add) && ExtentsFit(im.del)
    && |im.deps| < Pow(8) && (forall k :: k in im.deps ==> k < Pow(8) && im.deps[k] < Pow(8))
    && SizeOf(im) < Pow(8)
  }

  ghost predicate Traverses(im: Image, way: Way)
  {
    && Enumerates(way.add, im.add.Keys) && Enumerates(way.del, im.del.Keys) && Enumerates(way.deps, im.deps.Keys)
    && (forall i :: way.gap(i) < Pow(3))
  }

  function AsEntry(im: Image): (e: S.Entry)
  {
    S.Entry(im.ino, L.Log(0, im.add, im.del), im.deps)
  }

  /** `calcSize`, by which batches are packed. */
  function SizeOf(im: Image): (n: nat)
  {
    S.CalcSize(AsEntry(im))
  }

  function Header(im: Image): (bs: seq<Byte>)
    requires |im.meta| == |META|
  {
    Le(SizeOf(im), 8) + (Le(im.ino, 8) + Packed(META, im.meta))
  }

  lemma GapFits(g: nat)
    requires g < Pow(3)
    ensures 0 < Pow(1) && 1 < Pow(1)
  {
    assert Pow(1) == 256 * Pow(0);
  }

  lemma ExtentRowFits(b: nat, v: L.Val, gap: nat)
    requires b < Pow(8) && ValFits(v) && gap < Pow(3)
    ensures Fit(EXTENT, ExtentRow(b, v, gap))
  {
    GapFits(gap);
    var row := ExtentRow(b, v, gap);
    assert row[0] < Pow(EXTENT[0]) && row[1] < Pow(EXTENT[1]) && row[2] < Pow(EXTENT[2]);
    assert row[3] < Pow(EXTENT[3]) && row[4] < Pow(EXTENT[4]) && row[5] < Pow(EXTENT[5]);
  }

  lemma {:induction false} EachExtentFits(m: map<nat, L.Val>, order: seq<nat>, gap: nat -> nat)
    requires (forall b :: b in order ==> b in m && b < Pow(8) && ValFits(m[b])) && forall i :: gap(i) < Pow(3)
    ensures FitRows(EXTENT, ExtentRows(m, order, gap))
  {
    if order != [] {
      var front, last := order[..|order| - 1], order[|order| - 1];
      assert order == front + [last];
      assert last in order && forall b :: b in front ==> b in order;
      EachExtentFits(m, front, gap);
      ExtentRowFits(last, m[last], gap(|front|));
    }
  }

  lemma ExtentRowsFit(m: map<nat, L.Val>, order: seq<nat>, gap: nat -> nat)
    requires ExtentsFit(m) && Enumerates(order, m.Keys) && forall i :: gap(i) < Pow(3)
    ensures forall b :: b in order ==> b in m
    ensures FitRows(EXTENT, ExtentRows(m, order, gap)) && |ExtentRows(m, order, gap)| == |m|
  {
    assert forall b :: b in order ==> b in Elems(order);
    EnumerationSize(order);
    assert |m| == |m.Keys|;
    EachExtentFits(m, order, gap);
  }

  lemma PairFits(k: nat, v: nat)
    requires k < Pow(8) && v < Pow(8)
    ensures Fit(PAIR, [k, v])
  {
    var row := [k, v];
    assert row[0] < Pow(PAIR[0]) && row[1] < Pow(PAIR[1]);
  }

  lemma {:induction false} EachPairFits(m: map<nat, nat>, order: seq<nat>)
    requires forall k :: k in order ==> k in m && k < Pow(8) && m[k] < Pow(8)
    ensures FitRows(PAIR, PairRows(m, order))
  {
    if order != [] {
      var front, last := order[..|order| - 1], order[|order| - 1];
      assert order == front + [last];
      assert last in order && forall k :: k in front ==> k in order;
      EachPairFits(m, front);
      PairFits(last, m[last]);
    }
  }

  lemma PairRowsFit(m: map<nat, nat>, order: seq<nat>)
    requires Enumerates(order, m.Keys) && forall k :: k in m ==> k < Pow(8) && m[k] < Pow(8)
    ensures forall k :: k in order ==> k in m
    ensures FitRows(PAIR, PairRows(m, order)) && |PairRows(m, order)| == |m|
  {
    assert forall k :: k in order ==> k in Elems(order);
    EnumerationSize(order);
    assert |m| == |m.Keys|;
    EachPairFits(m, order);
  }

  lemma RowsFit(im: Image, way: Way)
    requires Fits(im) && Traverses(im, way)
    ensures (forall b :: b in way.add ==> b in im.add) && (forall b :: b in way.del ==> b in im.del)
    ensures forall k :: k in way.deps ==> k in im.deps
    ensures FitRows(EXTENT, ExtentRows(im.add, way.add, way.gap)) && |ExtentRows(im.add, way.add, way.gap)| == |im.add|
    ensures FitRows(EXTENT, ExtentRows(im.del, way.del, way.gap)) && |ExtentRows(im.del, way.del, way.gap)| == |im.del|
    ensures FitRows(PAIR, PairRows(im.deps, way.deps)) && |PairRows(im.deps, way.deps)| == |im.deps|
  {
    ExtentRowsFit(im.add, way.add, way.gap);
    ExtentRowsFit(im.del, way.del, way.gap);
    PairRowsFit(im.deps, way.deps);
  }

  /** The lists behind the header. */
  function Lists(adds: seq<seq<nat>>, dels: seq<seq<nat>>, deps: seq<seq<nat>>): (bs: seq<Byte>)
    requires FitRows(EXTENT, adds) && FitRows(EXTENT, dels) && FitRows(PAIR, deps)
  {
    PackedList(EXTENT, adds) + (PackedList(EXTENT, dels) + PackedList(PAIR, deps))
  }

  /** `serialize`. */
  ghost function Serialized(im: Image, way: Way): (bs: seq<Byte>)
    requires Fits(im) && Traverses(im, way)
  {
    RowsFit(im, way);
    Header(im) +
    Lists(ExtentRows(im.add, way.add, way.gap), ExtentRows(im.del, way.del, way.gap), PairRows(im.deps, way.deps))
  }

  lemma {:induction false} RowLengths(ws: seq<nat>, n: nat, bs: seq<Byte>)
    ensures |UnpackedRows(ws, n, bs)| == n
    ensures forall i :: 0 <= i < n ==> |UnpackedRows(ws, n, bs)[i]| == |ws|
    decreases n
  {
    if n > 0 {
      UnpackedLength(ws, bs);
      RowLengths(ws, n - 1, Back(bs, Sum(ws)));
    }
  }

  lemma {:induction false} UnpackedLength(ws: seq<nat>, bs: seq<Byte>)
    ensures |Unpacked(ws, bs)| == |ws|
  {
    if ws != [] {
      UnpackedLength(ws[1..], Back(bs, ws[0]));
    }
  }

  function ExtentsAt(bs: seq<Byte>): (m: map<nat, L.Val>)
  {
    RowLengths(EXTENT, Un(Front(bs, 8)), Back(bs, 8));
    ExtentMap(UnpackedList(EXTENT, bs))
  }

  function PairsAt(bs: seq<Byte>): (m: map<nat, nat>)
  {
    RowLengths(PAIR, Un(Front(bs, 8)), Back(bs, 8));
    PairMap(UnpackedList(PAIR, bs))
  }

  /** The bytes of a list: its count and so many rows. */
  function Span(ws: seq<nat>, bs: seq<Byte>): (n: nat)
  {
    8 + Un(Front(bs, 8)) * Sum(ws)
  }

  /** The deserialising constructor. */
  function Deserialized(bs: seq<Byte>): (im: Image)
  {
    var b1 := Back(bs, 16);
    var b2 := Back(b1, Sum(META));
    var b3 := Back(b2, Span(EXTENT, b2));
    var b4 := Back(b3, Span(EXTENT, b3));
    Image(Un(Front(Back(bs, 8), 8)), Unpacked(META, b1), ExtentsAt(b2), ExtentsAt(b3), PairsAt(b4))
  }

  lemma ExtentsRead(m: map<nat, L.Val>, order: seq<nat>, gap: nat -> nat, rest: seq<Byte>)
    requires ExtentsFit(m) && Enumerates(order, m.Keys) && (forall i :: gap(i) < Pow(3))
    requires forall b :: b in order ==> b in m
    requires FitRows(EXTENT, ExtentRows(m, order, gap)) && |ExtentRows(m, order, gap)| == |m|
    ensures var bs := PackedList(EXTENT, ExtentRows(m, order, gap));
      ExtentsAt(bs + rest) == m && |bs| == Span(EXTENT, bs + rest) == 8 + |m| * 24 && Back(bs + rest, |bs|) == rest
  {
    var rows := ExtentRows(m, order, gap);
    ListRound(EXTENT, rows, rest);
    ExtentsRound(m, order, gap);
    CountRead(EXTENT, rows, rest);
    Widths();
  }

  lemma CountRead(ws: seq<nat>, rows: seq<seq<nat>>, rest: seq<Byte>)
    requires FitRows(ws, rows) && |rows| < Pow(8)
    ensures Un(Front(PackedList(ws, rows) + rest, 8)) == |rows|
  {
    Associate(Le(|rows|, 8), PackedRows(ws, rows), rest);
    FrontBack(Le(|rows|, 8), PackedRows(ws, rows) + rest);
    LeRound(|rows|, 8);
  }

  lemma PairsRead(m: map<nat, nat>, order: seq<nat>, rest: seq<Byte>)
    requires Enumerates(order, m.Keys) && |m| < Pow(8) && (forall k :: k in order ==> k in m)
    requires FitRows(PAIR, PairRows(m, order)) && |PairRows(m, order)| == |m|
    ensures var bs := PackedList(PAIR, PairRows(m, order)); PairsAt(bs + rest) == m && |bs| == 8 + |m| * 16
  {
    ListRound(PAIR, PairRows(m, order), rest);
    PairsRound(m, order);
    Widths();
  }

  lemma HeaderRead(im: Image, rest: seq<Byte>)
    requires Fits(im)
    ensures var bs := Header(im) + rest;
      && Un(Front(bs, 8)) == SizeOf(im) && Un(Front(Back(bs, 8), 8)) == im.ino
      && Unpacked(META, Back(bs, 16)) == im.meta && Back(Back(bs, 16), Sum(META)) == rest
      && |Header(im)| == 107
  {
    var size, ino, meta := Le(SizeOf(im), 8), Le(im.ino, 8), Packed(META, im.meta);
    Associate(size, ino + meta, rest);
    Associate(ino, meta, rest);
    FrontBack(size, ino + (meta + rest));
    FrontBack(ino, meta + rest);
    assert size + (ino + (meta + rest)) == (size + ino) + (meta + rest);
    FrontBack(size + ino, meta + rest);
    LeRound(SizeOf(im), 8);
    LeRound(im.ino, 8);
    PackedRound(META, im.meta, rest);
    PackedSize(META, im.meta);
    FrontBack(meta, rest);
    Widths();
  }

  lemma ListsRead(im: Image, way: Way, rest: seq<Byte>)
    requires Fits(im) && Traverses(im, way)
    ensures (forall b :: b in way.add ==> b in im.add) && (forall b :: b in way.del ==> b in im.del)
    ensures forall k :: k in way.deps ==> k in im.deps
    ensures var adds, dels := ExtentRows(im.add, way.add, way.gap), ExtentRows(im.del, way.del, way.gap);
      var deps := PairRows(im.deps, way.deps);
      && FitRows(EXTENT, adds) && FitRows(EXTENT, dels) && FitRows(PAIR, deps)
      && |Lists(adds, dels, deps)| == SizeOf(im) - 107
      && (var b2 := Lists(adds, dels, deps) + rest; var b3 := Back(b2, Span(EXTENT, b2));
          ExtentsAt(b2) == im.add && ExtentsAt(b3) == im.del && PairsAt(Back(b3, Span(EXTENT, b3))) == im.deps)
  {
    RowsFit(im, way);
    var adds, dels := ExtentRows(im.add, way.add, way.gap), ExtentRows(im.del, way.del, way.gap);
    var deps := PairRows(im.deps, way.deps);
    var a, d, p := PackedList(EXTENT, adds), PackedList(EXTENT, dels), PackedList(PAIR, deps);
    Associate(a, d + p, rest);
    Associate(d, p, rest);
    ExtentsRead(im.add, way.add, way.gap, d + (p + rest));
    ExtentsRead(im.del, way.del, way.gap, p + rest);
    PairsRead(im.deps, way.deps, rest);
  }

  /** An entry takes exactly the bytes that calcSize says, begins with that number, and is read back as it was,
      whatever follows it and in whatever order its maps were traversed. */
  lemma EntryRound(im: Image, way: Way, rest: seq<Byte>)
    requires Fits(im) && Traverses(im, way)
    ensures |Serialized(im, way)| == SizeOf(im) == Un(Front(Serialized(im, way) + rest, 8))
    ensures Deserialized(Serialized(im, way) + rest) == im
    ensures Back(Serialized(im, way) + rest, SizeOf(im)) == rest
  {
    ListsRead(im, way, rest);
    var lists := Lists(ExtentRows(im.add, way.add, way.gap), ExtentRows(im.del, way.del, way.gap),
                       PairRows(im.deps, way.deps));
    Associate(Header(im), lists, rest);
    HeaderRead(im, lists + rest);
    FrontBack(Serialized(im, way), rest);
  }

  // ---------------------------------------------------------------- a journal entry

  /** The entries one after the other. */
  ghost function Body(ims: seq<Image>, ways: seq<Way>): (bs: seq<Byte>)
    requires |ims| == |ways| && forall i :: 0 <= i < |ims| ==> Fits(ims[i]) && Traverses(ims[i], ways[i])
  {
    if ims == [] then [] else Serialized(ims[0], ways[0]) + Body(ims[1..], ways[1..])
  }

  /** The loop of `deserializeBody`: it goes on by the size of what it has read. */
  function ReadBody(n: nat, bs: seq<Byte>): (ims: seq<Image>)
    decreases n
  {
    if n == 0 || bs == [] then []
    else var im := Deserialized(bs); [im] + ReadBody(n - 1, Back(bs, SizeOf(im)))
  }

  function Sizes(ims: seq<Image>): (n: nat)
  {
    if ims == [] then 0 else SizeOf(ims[0]) + Sizes(ims[1..])
  }

  lemma ReadOne(im: Image, way: Way, n: nat, rest: seq<Byte>)
    requires Fits(im) && Traverses(im, way) && n > 0
    ensures ReadBody(n, Serialized(im, way) + rest) == [im] + ReadBody(n - 1, rest)
    ensures |Serialized(im, way) + rest| == SizeOf(im) + |rest|
  {
    EntryRound(im, way, rest);
  }

  /** A journal entry's inode entries are read back, all of them and in order. */
  lemma {:induction false} BodyRound(ims: seq<Image>, ways: seq<Way>)
    requires |ims| == |ways| && forall i :: 0 <= i < |ims| ==> Fits(ims[i]) && Traverses(ims[i], ways[i])
    ensures ReadBody(|ims|, Body(ims, ways)) == ims
    ensures |Body(ims, ways)| == Sizes(ims)
    decreases ims
  {
    if ims != [] {
      BodyRound(ims[1..], ways[1..]);
      ReadOne(ims[0], ways[0], |ims|, Body(ims[1..], ways[1..]));
      assert ims == [ims[0]] + ims[1..];
    }
  }

  function AsEntries(ims: seq<Image>): (es: seq<S.Entry>)
    ensures |es| == |ims|
  {
    seq(|ims|, i requires 0 <= i < |ims| => AsEntry(ims[i]))
  }

  /** And its size, with the 48 bytes of its own header, is the body size that limits a batch. */
  lemma {:induction false} SizesAreBodySize(ims: seq<Image>)
    ensures 48 + Sizes(ims) == S.BodySize(AsEntries(ims))
  {
    if ims == [] {
      assert AsEntries(ims) == [];
    } else {
      SizesAreBodySize(ims[1..]);
      S.BodySizeConcat([AsEntry(ims[0])], AsEntries(ims[1..]));
      S.BodySizeAppend([], AsEntry(ims[0]));
      assert AsEntries(ims) == [AsEntry(ims[0])] + AsEntries(ims[1..]);
    }
  }
}
