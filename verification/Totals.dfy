// Finite sums over sequences: how they react to one update, to a permutation, and to bounds on the summands.
// The protocols below count threads, requests and distances with them.
module Totals {

  function Sum<T>(f: T -> int, xs: seq<T>): int {
    if xs == [] then 0 else f(xs[0]) + Sum(f, xs[1..])
  }

  lemma {:induction false} SumAppend<T>(f: T -> int, xs: seq<T>, ys: seq<T>)
    ensures Sum(f, xs + ys) == Sum(f, xs) + Sum(f, ys)
  {
    if xs == [] {
      assert xs + ys == ys;
    } else {
      assert (xs + ys)[1..] == xs[1..] + ys;
      SumAppend(f, xs[1..], ys);
    }
  }

  lemma SumSplit<T>(f: T -> int, xs: seq<T>, i: nat)
    requires i < |xs|
    ensures Sum(f, xs) == Sum(f, xs[..i]) + f(xs[i]) + Sum(f, xs[i + 1..])
  {
    assert xs == xs[..i] + xs[i..];
    SumAppend(f, xs[..i], xs[i..]);
    assert xs[i..][1..] == xs[i + 1..];
  }

  lemma SumUpdate<T>(f: T -> int, xs: seq<T>, i: nat, x: T)
    requires i < |xs|
    ensures Sum(f, xs[i := x]) == Sum(f, xs) - f(xs[i]) + f(x)
  {
    var ys := xs[i := x];
    SumSplit(f, xs, i);
    SumSplit(f, ys, i);
    assert ys[..i] == xs[..i] && ys[i + 1..] == xs[i + 1..];
  }

  lemma {:induction false} SumPermutation<T>(f: T -> int, xs: seq<T>, ys: seq<T>)
    requires multiset(xs) == multiset(ys)
    ensures Sum(f, xs) == Sum(f, ys)
  {
    if xs == [] {
      assert |ys| == |multiset(ys)| == 0;
    } else {
      assert xs[0] in multiset(ys);
      var i: nat :| i < |ys| && ys[i] == xs[0];
      var rest := ys[..i] + ys[i + 1..];
      assert xs == [xs[0]] + xs[1..];
      assert ys == ys[..i] + [ys[i]] + ys[i + 1..];
      assert multiset(xs[1..]) == multiset(xs) - multiset{xs[0]};
      assert multiset(rest) == multiset(ys) - multiset{ys[i]};
      SumPermutation(f, xs[1..], rest);
      SumAppend(f, ys[..i], ys[i + 1..]);
      SumSplit(f, ys, i);
    }
  }

  lemma {:induction false} SumBounds<T>(f: T -> int, xs: seq<T>, low: int, high: int)
    requires forall x :: x in xs ==> low <= f(x) <= high
    ensures |xs| * low <= Sum(f, xs) <= |xs| * high
  {
    if xs != [] {
      SumBounds(f, xs[1..], low, high);
      assert |xs| * low == low + |xs[1..]| * low && |xs| * high == high + |xs[1..]| * high;
    }
  }

  lemma {:induction false} SumNonNegative<T>(f: T -> int, xs: seq<T>)
    requires forall x :: x in xs ==> 0 <= f(x)
    ensures 0 <= Sum(f, xs)
  {
    if xs != [] { SumNonNegative(f, xs[1..]); }
  }

  // One summand is a lower bound of a sum without negative summands; so are two at distinct positions.
  lemma SumAtLeast<T>(f: T -> int, xs: seq<T>, i: nat)
    requires i < |xs|
    requires forall x :: x in xs ==> 0 <= f(x)
    ensures f(xs[i]) <= Sum(f, xs)
  {
    SumSplit(f, xs, i);
    SumNonNegative(f, xs[..i]);
    SumNonNegative(f, xs[i + 1..]);
  }

  lemma SumAtLeastTwo<T>(f: T -> int, xs: seq<T>, i: nat, j: nat)
    requires i < j < |xs|
    requires forall x :: x in xs ==> 0 <= f(x)
    ensures f(xs[i]) + f(xs[j]) <= Sum(f, xs)
  {
    SumSplit(f, xs, j);
    assert xs[..j][i] == xs[i];
    SumAtLeast(f, xs[..j], i);
    SumNonNegative(f, xs[j + 1..]);
  }

  // A positive sum has a positive summand.
  lemma {:induction false} SumWitness<T>(f: T -> int, xs: seq<T>) returns (i: nat)
    requires 0 < Sum(f, xs)
    ensures i < |xs| && 0 < f(xs[i])
  {
    if 0 < f(xs[0]) {
      i := 0;
    } else {
      var k := SumWitness(f, xs[1..]);
      i := k + 1;
    }
  }

  // Replacing the summand function by a pointwise smaller one cannot raise the sum.
  lemma {:induction false} SumPointwise<T>(f: T -> int, g: T -> int, xs: seq<T>)
    requires forall x :: x in xs ==> f(x) <= g(x)
    ensures Sum(f, xs) <= Sum(g, xs)
  {
    if xs != [] { SumPointwise(f, g, xs[1..]); }
  }

  // A sequence along which a quantity falls is no longer than the quantity's first value allows.
  lemma {:induction false} DescentIsShort<T>(f: T -> int, xs: seq<T>)
    requires xs != [] && 0 <= f(xs[|xs| - 1])
    requires forall k :: 0 <= k < |xs| - 1 ==> Falls(f, xs, k)
    ensures |xs| <= f(xs[0]) + 1
  {
    if |xs| > 1 {
      assert Falls(f, xs, 0);
      forall k | 0 <= k < |xs[1..]| - 1
        ensures Falls(f, xs[1..], k)
      {
        assert Falls(f, xs, k + 1);
      }
      DescentIsShort(f, xs[1..]);
    }
  }

  ghost predicate Falls<T>(f: T -> int, xs: seq<T>, k: int) {
    0 <= k < |xs| - 1 && f(xs[k + 1]) < f(xs[k])
  }
}
