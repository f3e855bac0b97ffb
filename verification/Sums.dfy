/** Sums of integer sequences. */
module Sums {

  function Sum(xs: seq<int>): (r: int)
  {
    if xs == [] then 0 else Sum(xs[..|xs| - 1]) + xs[|xs| - 1]
  }

  lemma {:induction false} SumUpdate(xs: seq<int>, c: nat, v: int)
    requires c < |xs|
    ensures Sum(xs[c := v]) == Sum(xs) - xs[c] + v
  {
    var k := |xs| - 1;
    if c == k {
      assert xs[c := v][..k] == xs[..k];
    } else {
      SumUpdate(xs[..k], c, v);
      assert xs[c := v][..k] == xs[..k][c := v];
    }
  }

  function Negated(xs: seq<int>): (r: seq<int>)
    ensures |r| == |xs| && forall i :: 0 <= i < |r| ==> r[i] == -xs[i]
  {
    seq(|xs|, i requires 0 <= i < |xs| => -xs[i])
  }

  lemma {:induction false} SumNegated(xs: seq<int>)
    ensures Sum(Negated(xs)) == -Sum(xs)
  {
    if xs != [] {
      SumNegated(xs[..|xs| - 1]);
      assert Negated(xs)[..|xs| - 1] == Negated(xs[..|xs| - 1]);
    }
  }

  method AddUp(xs: seq<int>) returns (total: int)
    ensures total == Sum(xs)
  {
    total := 0;
    for i := 0 to |xs|
      invariant total == Sum(xs[..i])
    {
      assert xs[..i + 1][..i] == xs[..i];
      total := total + xs[i];
    }
    assert xs[..|xs|] == xs;
  }
}
