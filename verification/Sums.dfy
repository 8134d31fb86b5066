/** Sums of integer sequences. */
module Sums {

  function Sum(xs: seq<int>): int {
    if xs == [] then 0 else xs[0] + Sum(xs[1..])
  }

  lemma {:induction false} SumConcat(xs: seq<int>, ys: seq<int>)
    ensures Sum(xs + ys) == Sum(xs) + Sum(ys)
  {
    if xs == [] {
      assert xs + ys == ys;
    } else {
      assert (xs + ys)[1..] == xs[1..] + ys;
      SumConcat(xs[1..], ys);
    }
  }

  /** The order does not change a sum. */
  lemma {:induction false} SumOfPermutation(xs: seq<int>, ys: seq<int>)
    requires multiset(xs) == multiset(ys)
    ensures Sum(xs) == Sum(ys)
  {
    if xs == [] {
      assert |multiset(ys)| == |ys|;
    } else {
      assert xs[0] in multiset(ys);
      var i :| 0 <= i < |ys| && ys[i] == xs[0];
      RemoveFromBoth(xs, ys, i);
      SumOfPermutation(xs[1..], ys[..i] + ys[i + 1..]);
      assert ys == ys[..i] + ([ys[i]] + ys[i + 1..]);
      SumConcat(ys[..i], [ys[i]] + ys[i + 1..]);
      SumConcat(ys[..i], ys[i + 1..]);
      assert ([ys[i]] + ys[i + 1..])[1..] == ys[i + 1..];
    }
  }

  lemma RemoveFromBoth<T>(xs: seq<T>, ys: seq<T>, i: nat)
    requires xs != [] && multiset(xs) == multiset(ys) && i < |ys| && ys[i] == xs[0]
    ensures multiset(xs[1..]) == multiset(ys[..i] + ys[i + 1..])
  {
    assert xs == [xs[0]] + xs[1..];
    assert ys == ys[..i] + [ys[i]] + ys[i + 1..];
    assert multiset(xs[1..]) == multiset(xs) - multiset{xs[0]};
  }

  lemma {:induction false} SumBetween(xs: seq<int>, low: int, high: int)
    requires forall i :: 0 <= i < |xs| ==> low <= xs[i] <= high
    ensures low * |xs| <= Sum(xs) <= high * |xs|
  {
    if xs != [] {
      SumBetween(xs[1..], low, high);
      assert |xs| == 1 + |xs[1..]|;
    }
  }

  lemma {:induction false} SumBelow(xs: seq<int>, ys: seq<int>)
    requires |xs| == |ys| && forall i :: 0 <= i < |xs| ==> xs[i] <= ys[i]
    ensures Sum(xs) <= Sum(ys)
  {
    if xs != [] { SumBelow(xs[1..], ys[1..]); }
  }

  /** Every prefix of nonnegative values sums to no more than all of them. */
  lemma PrefixBelowSum(xs: seq<int>, k: nat)
    requires k <= |xs| && forall i :: 0 <= i < |xs| ==> 0 <= xs[i]
    ensures 0 <= Sum(xs[..k]) <= Sum(xs)
  {
    assert xs == xs[..k] + xs[k..];
    SumConcat(xs[..k], xs[k..]);
    AtLeastZero(xs[..k]);
    AtLeastZero(xs[k..]);
  }

  lemma {:induction false} AtLeastZero(xs: seq<int>)
    requires forall i :: 0 <= i < |xs| ==> 0 <= xs[i]
    ensures 0 <= Sum(xs)
  {
    if xs != [] { AtLeastZero(xs[1..]); }
  }
}
