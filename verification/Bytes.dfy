/** Bytes, and numbers in little-endian order. */
module Bytes {

  import opened NatLists

  type Byte = x: int | 0 <= x < 256

  /** How many numbers w bytes can hold. */
  function Pow(w: nat): (n: nat)
    ensures n > 0
  {
    if w == 0 then 1 else 256 * Pow(w - 1)
  }

  function Le(n: nat, w: nat): (bs: seq<Byte>)
    ensures |bs| == w
    decreases w
  {
    if w == 0 then [] else [n % 256] + Le(n / 256, w - 1)
  }

  function Un(bs: seq<Byte>): (n: nat)
  {
    if bs == [] then 0 else bs[0] + 256 * Un(bs[1..])
  }

  /** A number that fits is read back. */
  lemma {:induction false} LeRound(n: nat, w: nat)
    requires n < Pow(w)
    ensures Un(Le(n, w)) == n
    decreases w
  {
    if w > 0 {
      LeRound(n / 256, w - 1);
      assert Le(n, w)[1..] == Le(n / 256, w - 1);
    }
  }

  /** The first w bytes and the others, of however many there are. */
  function Front(bs: seq<Byte>, w: nat): (r: seq<Byte>)
  {
    if |bs| < w then bs else bs[..w]
  }

  function Back(bs: seq<Byte>, w: nat): (r: seq<Byte>)
  {
    if |bs| < w then [] else bs[w..]
  }

  lemma FrontBack(a: seq<Byte>, b: seq<Byte>)
    ensures Front(a + b, |a|) == a && Back(a + b, |a|) == b
  {
  }

  // ---------------------------------------------------------------- records of numbers

  function Sum(ws: seq<nat>): (n: nat)
  {
    if ws == [] then 0 else ws[0] + Sum(ws[1..])
  }

  /** Each value fits the width of its field. */
  predicate Fit(ws: seq<nat>, vs: seq<nat>)
  {
    |ws| == |vs| && forall i :: 0 <= i < |ws| ==> vs[i] < Pow(ws[i])
  }

  function Packed(ws: seq<nat>, vs: seq<nat>): (bs: seq<Byte>)
    requires |ws| == |vs|
  {
    if ws == [] then [] else Le(vs[0], ws[0]) + Packed(ws[1..], vs[1..])
  }

  function Unpacked(ws: seq<nat>, bs: seq<Byte>): (vs: seq<nat>)
  {
    if ws == [] then [] else [Un(Front(bs, ws[0]))] + Unpacked(ws[1..], Back(bs, ws[0]))
  }

  lemma UnpackedCons(ws: seq<nat>, first: seq<Byte>, tail: seq<Byte>)
    requires ws != [] && |first| == ws[0]
    ensures Unpacked(ws, first + tail) == [Un(first)] + Unpacked(ws[1..], tail)
  {
    FrontBack(first, tail);
  }

  lemma {:induction false} PackedSize(ws: seq<nat>, vs: seq<nat>)
    requires |ws| == |vs|
    ensures |Packed(ws, vs)| == Sum(ws)
  {
    if ws != [] {
      PackedSize(ws[1..], vs[1..]);
    }
  }

  /** A record is read back, whatever follows it. */
  lemma {:induction false} PackedRound(ws: seq<nat>, vs: seq<nat>, rest: seq<Byte>)
    requires Fit(ws, vs)
    ensures Unpacked(ws, Packed(ws, vs) + rest) == vs
  {
    if ws != [] {
      var first, others := Le(vs[0], ws[0]), Packed(ws[1..], vs[1..]);
      assert Packed(ws, vs) + rest == first + (others + rest) by { Associate(first, others, rest); }
      UnpackedCons(ws, first, others + rest);
      LeRound(vs[0], ws[0]);
      PackedRound(ws[1..], vs[1..], rest);
      assert vs == [vs[0]] + vs[1..];
    }
  }

  function PackedRows(ws: seq<nat>, rows: seq<seq<nat>>): (bs: seq<Byte>)
    requires forall i :: 0 <= i < |rows| ==> |rows[i]| == |ws|
  {
    if rows == [] then [] else Packed(ws, rows[0]) + PackedRows(ws, rows[1..])
  }

  function UnpackedRows(ws: seq<nat>, n: nat, bs: seq<Byte>): (rows: seq<seq<nat>>)
    decreases n
  {
    if n == 0 then [] else [Unpacked(ws, bs)] + UnpackedRows(ws, n - 1, Back(bs, Sum(ws)))
  }

  predicate FitRows(ws: seq<nat>, rows: seq<seq<nat>>)
  {
    forall i :: 0 <= i < |rows| ==> Fit(ws, rows[i])
  }

  lemma {:induction false} RowsSize(ws: seq<nat>, rows: seq<seq<nat>>)
    requires FitRows(ws, rows)
    ensures |PackedRows(ws, rows)| == |rows| * Sum(ws)
  {
    if rows != [] {
      PackedSize(ws, rows[0]);
      RowsSize(ws, rows[1..]);
      assert |rows| * Sum(ws) == Sum(ws) + (|rows| - 1) * Sum(ws);
    } else {
      assert 0 * Sum(ws) == 0;
    }
  }

  lemma {:induction false} RowsRound(ws: seq<nat>, rows: seq<seq<nat>>, rest: seq<Byte>)
    requires FitRows(ws, rows)
    ensures UnpackedRows(ws, |rows|, PackedRows(ws, rows) + rest) == rows
    decreases rows
  {
    if rows != [] {
      var first, others := Packed(ws, rows[0]), PackedRows(ws, rows[1..]);
      Associate(first, others, rest);
      PackedSize(ws, rows[0]);
      FrontBack(first, others + rest);
      PackedRound(ws, rows[0], others + rest);
      RowsRound(ws, rows[1..], rest);
      assert rows == [rows[0]] + rows[1..];
    }
  }

  /** A list: its length in eight bytes, and its rows. */
  function PackedList(ws: seq<nat>, rows: seq<seq<nat>>): (bs: seq<Byte>)
    requires FitRows(ws, rows)
  {
    Le(|rows|, 8) + PackedRows(ws, rows)
  }

  function UnpackedList(ws: seq<nat>, bs: seq<Byte>): (rows: seq<seq<nat>>)
  {
    UnpackedRows(ws, Un(Front(bs, 8)), Back(bs, 8))
  }

  lemma ListRound(ws: seq<nat>, rows: seq<seq<nat>>, rest: seq<Byte>)
    requires FitRows(ws, rows) && |rows| < Pow(8)
    ensures UnpackedList(ws, PackedList(ws, rows) + rest) == rows
    ensures |PackedList(ws, rows)| == 8 + |rows| * Sum(ws)
    ensures Back(PackedList(ws, rows) + rest, 8 + |rows| * Sum(ws)) == rest
  {
    Associate(Le(|rows|, 8), PackedRows(ws, rows), rest);
    FrontBack(Le(|rows|, 8), PackedRows(ws, rows) + rest);
    LeRound(|rows|, 8);
    RowsRound(ws, rows, rest);
    RowsSize(ws, rows);
    FrontBack(PackedList(ws, rows), rest);
  }
}
