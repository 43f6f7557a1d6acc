/** Lists of numbers (slots, block numbers, inodes, descriptors) and the sets they enumerate. */
module NatLists {

  predicate NoDup(q: seq<nat>)
  {
    forall i, j :: 0 <= i < j < |q| ==> q[i] != q[j]
  }

  function Elems(q: seq<nat>): (r: set<nat>)
  {
    set s | s in q
  }

  lemma Associate<T>(a: seq<T>, b: seq<T>, c: seq<T>)
    ensures (a + b) + c == a + (b + c)
  {
  }

  lemma ElemsCons(k: nat, rest: seq<nat>)
    ensures Elems([k] + rest) == {k} + Elems(rest)
  {
    assert forall x :: x in [k] + rest <==> x == k || x in rest;
  }

  lemma NoDupAppend(q: seq<nat>, q': seq<nat>)
    requires NoDup(q) && NoDup(q') && Elems(q) !! Elems(q')
    ensures NoDup(q + q') && Elems(q + q') == Elems(q) + Elems(q')
  {
    forall i, j | 0 <= i < j < |q + q'| ensures (q + q')[i] != (q + q')[j] {
      if i < |q| <= j {
        assert q[i] in Elems(q) && q'[j - |q|] in Elems(q');
      }
    }
  }

  lemma NoDupCons(k: nat, rest: seq<nat>)
    ensures NoDup([k] + rest) <==> NoDup(rest) && k !in Elems(rest)
  {
    var q := [k] + rest;
    assert forall j :: 0 <= j < |rest| ==> q[j + 1] == rest[j];
    if NoDup(q) {
      forall i, j | 0 <= i < j < |rest| ensures rest[i] != rest[j] {
        assert q[i + 1] != q[j + 1];
      }
      forall j | 0 <= j < |rest| ensures rest[j] != k {
        assert q[0] != q[j + 1];
      }
    } else if NoDup(rest) {
      var i, j :| 0 <= i < j < |q| && q[i] == q[j];
      assert i == 0 && rest[j - 1] in rest;
    }
  }

  ghost predicate Enumerates(order: seq<nat>, ss: set<nat>)
  {
    NoDup(order) && Elems(order) == ss
  }

  lemma {:induction false} EnumerationSize(order: seq<nat>)
    requires NoDup(order)
    ensures |order| == |Elems(order)|
  {
    if order != [] {
      var rest := order[1..];
      assert order == [order[0]] + rest;
      EnumerationSize(rest);
      assert order[0] !in rest;
      assert Elems(order) == {order[0]} + Elems(rest);
    }
  }
}
