/**
 * The aggregates that `get_recommendation` takes over the `price` column of the
 * history frame (pandas `Series.min` and `Series.mean`), over exact reals.
 */
module Stats {

  /** Sum of the observations, folded from the front. */
  function Sum(s: seq<real>): real
  {
    if s == [] then 0.0 else s[0] + Sum(s[1..])
  }

  /** Arithmetic mean of a non-empty series; it is never below the minimum. */
  function Mean(s: seq<real>): (r: real)
    requires |s| > 0
    ensures Min(s) <= r
  {
    SumAtLeast(s, Min(s));
    QuotientAtLeast(Sum(s), |s| as real, Min(s));
    Sum(s) / (|s| as real)
  }

  /** Smallest observation of a non-empty series. */
  function Min(s: seq<real>): (m: real)
    requires |s| > 0
    ensures m in s
    ensures forall x :: x in s ==> m <= x
  {
    if |s| == 1 then s[0]
    else
      var rest := Min(s[1..]);
      assert forall x :: x in s ==> x == s[0] || x in s[1..];
      if s[0] <= rest then s[0] else rest
  }

  lemma {:induction false} SumConcat(a: seq<real>, b: seq<real>)
    ensures Sum(a + b) == Sum(a) + Sum(b)
  {
    if a == [] {
      assert a + b == b;
    } else {
      assert (a + b)[1..] == a[1..] + b;
      SumConcat(a[1..], b);
    }
  }

  /** Taking one observation out of the series takes exactly its value out of the sum. */
  lemma SumRemove(s: seq<real>, j: nat)
    requires j < |s|
    ensures Sum(s) == s[j] + Sum(s[..j] + s[j + 1..])
  {
    var before, after := s[..j], s[j + 1..];
    var rest := [s[j]] + after;
    assert s == before + rest;
    SumConcat(before, rest);
    assert rest[1..] == after;
    assert Sum(rest) == s[j] + Sum(after);
    SumConcat(before, after);
  }

  /** The sum depends only on the multiset of observations, not their order. */
  lemma {:induction false} SumPermutation(s: seq<real>, t: seq<real>)
    requires multiset(s) == multiset(t)
    ensures Sum(s) == Sum(t)
  {
    if s == [] {
      assert |t| == |multiset(t)| == 0;
    } else {
      var j := Occurrence(t, s[0]);
      var rest := t[..j] + t[j + 1..];
      TailsPermutation(s, t, j);
      SumPermutation(s[1..], rest);
      SumRemove(t, j);
    }
  }

  /** A position of `t` that holds `x`. */
  lemma Occurrence(t: seq<real>, x: real) returns (j: nat)
    requires x in multiset(t)
    ensures j < |t| && t[j] == x
  {
    assert x in t;
    j :| 0 <= j < |t| && t[j] == x;
  }

  /** Taking the first element out of `s` and a matching one out of `t` keeps them permutations. */
  lemma TailsPermutation(s: seq<real>, t: seq<real>, j: nat)
    requires |s| > 0 && j < |t| && t[j] == s[0]
    requires multiset(s) == multiset(t)
    ensures multiset(s[1..]) == multiset(t[..j] + t[j + 1..])
  {
    var before, after := t[..j], t[j + 1..];
    assert s == [s[0]] + s[1..];
    assert multiset(s) == multiset{s[0]} + multiset(s[1..]);
    assert t == before + [t[j]] + after;
    assert multiset(t) == multiset(before) + multiset{t[j]} + multiset(after);
    assert multiset(before + after) == multiset(before) + multiset(after);
    assert multiset(s[1..]) == multiset(s) - multiset{s[0]};
    assert multiset(before + after) == multiset(t) - multiset{t[j]};
  }

  /** The minimum depends only on the multiset of observations, not their order. */
  lemma MinPermutation(s: seq<real>, t: seq<real>)
    requires |s| > 0
    requires multiset(s) == multiset(t)
    ensures |t| > 0 && Min(s) == Min(t)
  {
    assert |t| == |multiset(t)| == |multiset(s)| == |s|;
    assert Min(s) in multiset(t);
    assert Min(s) in t;
    assert Min(t) in multiset(s);
    assert Min(t) in s;
  }

  /** The mean depends only on the multiset of observations, not their order. */
  lemma MeanPermutation(s: seq<real>, t: seq<real>)
    requires |s| > 0
    requires multiset(s) == multiset(t)
    ensures |t| > 0 && Mean(s) == Mean(t)
  {
    assert |t| == |multiset(t)| == |multiset(s)| == |s|;
    SumPermutation(s, t);
  }

  /** If every observation lies in [lo, hi], the sum lies in [n * lo, n * hi]. */
  lemma {:induction false} SumBounds(s: seq<real>, lo: real, hi: real)
    requires forall i :: 0 <= i < |s| ==> lo <= s[i] <= hi
    ensures (|s| as real) * lo <= Sum(s) <= (|s| as real) * hi
  {
    if s != [] {
      SumBounds(s[1..], lo, hi);
      assert (|s| as real) * lo == lo + ((|s| - 1) as real) * lo;
      assert (|s| as real) * hi == hi + ((|s| - 1) as real) * hi;
    }
  }

  /** If no observation is below lo, the sum is at least n * lo. */
  lemma {:induction false} SumAtLeast(s: seq<real>, lo: real)
    requires forall x :: x in s ==> lo <= x
    ensures (|s| as real) * lo <= Sum(s)
  {
    if s != [] {
      assert s[0] in s && forall x :: x in s[1..] ==> x in s;
      SumAtLeast(s[1..], lo);
      assert (|s| as real) * lo == lo + ((|s| - 1) as real) * lo;
    }
  }

  /** If every observation lies in [lo, hi], so does the mean. */
  lemma MeanBounds(s: seq<real>, lo: real, hi: real)
    requires |s| > 0
    requires forall i :: 0 <= i < |s| ==> lo <= s[i] <= hi
    ensures lo <= Mean(s) <= hi
  {
    var n := |s| as real;
    SumBounds(s, lo, hi);
    QuotientAtLeast(Sum(s), n, lo);
    QuotientAtMost(Sum(s), n, hi);
  }

  /** Each observation's deviation from `c`. */
  function Deviations(s: seq<real>, c: real): (d: seq<real>)
    ensures |d| == |s|
    ensures forall i :: 0 <= i < |s| ==> d[i] == s[i] - c
  {
    if s == [] then [] else [s[0] - c] + Deviations(s[1..], c)
  }

  /** Shifting every observation by `c` shifts the sum by `|s| * c`. */
  lemma {:induction false} SumDeviations(s: seq<real>, c: real)
    ensures Sum(Deviations(s, c)) == Sum(s) - (|s| as real) * c
  {
    if s != [] {
      var d := Deviations(s, c);
      assert d[1..] == Deviations(s[1..], c);
      SumDeviations(s[1..], c);
    }
  }

  /**
   * The deviations from the mean cancel out. This pins the mean: `c` is the
   * only value whose deviations sum to zero.
   */
  lemma DeviationsFromMeanCancel(s: seq<real>, c: real)
    requires |s| > 0
    ensures Sum(Deviations(s, c)) == 0.0 <==> c == Mean(s)
  {
    SumDeviations(s, c);
    BalancePoint(Sum(s), |s| as real, c);
  }

  /** `c` balances a total over a positive count exactly when it is their quotient. */
  lemma BalancePoint(total: real, n: real, c: real)
    requires n > 0.0
    ensures total - n * c == 0.0 <==> c == total / n
  {
    var q := total / n;
    assert q * n == total;
    assert total - n * c == (q - c) * n;
  }

  /** Dividing by a positive count keeps a lower bound of the average. */
  lemma QuotientAtLeast(a: real, n: real, lo: real)
    requires n > 0.0 && n * lo <= a
    ensures lo <= a / n
  {
    var q := a / n;
    assert q * n == a;
    assert (q - lo) * n == a - n * lo;
  }

  /** Dividing by a positive count keeps an upper bound of the average. */
  lemma QuotientAtMost(a: real, n: real, hi: real)
    requires n > 0.0 && a <= n * hi
    ensures a / n <= hi
  {
    var q := a / n;
    assert q * n == a;
    assert (hi - q) * n == n * hi - a;
  }
}
