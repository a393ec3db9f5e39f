/** Vectors of resource amounts. */
module Vectors {

  function Sum(v: seq<int>): int {
    if v == [] then 0 else Sum(v[..|v| - 1]) + v[|v| - 1]
  }

  predicate NonNegative(v: seq<int>) {
    forall j :: 0 <= j < |v| ==> 0 <= v[j]
  }

  lemma {:induction false} SumFront(x: int, v: seq<int>)
    ensures Sum([x] + v) == x + Sum(v)
  {
    if v == [] {
      assert [x] + v == [x] && [x][..0] == [];
    } else {
      assert ([x] + v)[..|v|] == [x] + v[..|v| - 1];
      SumFront(x, v[..|v| - 1]);
    }
  }

  lemma {:induction false} SumBounds(v: seq<int>)
    requires NonNegative(v)
    ensures 0 <= Sum(v) && forall j :: 0 <= j < |v| ==> v[j] <= Sum(v)
  {
    if v != [] { SumBounds(v[..|v| - 1]); }
  }

  lemma {:induction false} SumUpdate(v: seq<int>, i: nat, x: int)
    requires i < |v|
    ensures Sum(v[i := x]) == Sum(v) - v[i] + x
  {
    if i < |v| - 1 {
      SumUpdate(v[..|v| - 1], i, x);
      assert v[i := x][..|v| - 1] == v[..|v| - 1][i := x];
    } else {
      assert v[i := x][..|v| - 1] == v[..|v| - 1];
    }
  }

  lemma {:induction false} SumConcat(a: seq<int>, b: seq<int>)
    ensures Sum(a + b) == Sum(a) + Sum(b)
  {
    if b == [] {
      assert a + b == a;
    } else {
      assert (a + b)[..|a + b| - 1] == a + b[..|b| - 1];
      SumConcat(a, b[..|b| - 1]);
    }
  }
}
