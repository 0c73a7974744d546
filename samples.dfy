/** The numpy reductions the latency scripts apply to a sample array:
    np.sort, np.min, np.max, np.mean, np.std and np.percentile with its
    default linear interpolation. Samples are exact reals. */
module Samples {

  predicate Sorted(s: seq<real>) {
    forall i, j :: 0 <= i < j < |s| ==> s[i] <= s[j]
  }

  /** `x` placed into the sorted `s` before the first element above it. */
  function Insert(x: real, s: seq<real>): (r: seq<real>)
    requires Sorted(s)
    ensures Sorted(r) && multiset(r) == multiset(s) + multiset{x} && |r| == |s| + 1
    ensures r[0] == x || (|s| > 0 && r[0] == s[0])
  {
    if |s| == 0 then [x]
    else if x <= s[0] then [x] + s
    else
      var rest := Insert(x, s[1..]);
      assert s == [s[0]] + s[1..];
      SortedCons(s[0], rest);
      [s[0]] + rest
  }

  /** A sorted sequence stays sorted under a new first element no larger
      than its head. */
  lemma SortedCons(a: real, rest: seq<real>)
    requires Sorted(rest) && (|rest| == 0 || a <= rest[0])
    ensures Sorted([a] + rest)
  {
    var r := [a] + rest;
    forall i, j | 0 <= i < j < |r| ensures r[i] <= r[j] {
      if i == 0 { assert a <= rest[0] <= rest[j - 1]; }
      else { assert r[i] == rest[i - 1] && r[j] == rest[j - 1]; }
    }
  }

  /** np.sort: the ascending rearrangement of the samples. */
  function Sort(s: seq<real>): (r: seq<real>)
    ensures Sorted(r) && multiset(r) == multiset(s) && |r| == |s|
  {
    if |s| == 0 then []
    else
      assert s == [s[0]] + s[1..];
      Insert(s[0], Sort(s[1..]))
  }

  /** Two sorted arrangements of the same samples are the same sequence, so
      sorting sorted data changes nothing. */
  lemma {:induction false} SortedUnique(a: seq<real>, b: seq<real>)
    requires Sorted(a) && Sorted(b) && multiset(a) == multiset(b)
    ensures a == b
    decreases |a|
  {
    assert |a| == |multiset(a)| == |b|;
    if |a| > 0 {
      SortedHead(a, b);
      SortedHead(b, a);
      MultisetTail(a);
      MultisetTail(b);
      assert Sorted(a[1..]) && Sorted(b[1..]);
      SortedUnique(a[1..], b[1..]);
      assert a == [a[0]] + a[1..] && b == [b[0]] + b[1..];
    }
  }

  /** The head of a sorted sequence is no larger than any element of a
      rearrangement of it. */
  lemma SortedHead(a: seq<real>, b: seq<real>)
    requires Sorted(a) && |a| > 0 && |b| > 0 && multiset(a) == multiset(b)
    ensures a[0] <= b[0]
  {
    assert b[0] in multiset(a);
    var k :| 0 <= k < |a| && a[k] == b[0];
  }

  lemma MultisetTail(a: seq<real>)
    requires |a| > 0
    ensures multiset(a[1..]) == multiset(a) - multiset{a[0]}
  {
    assert a == [a[0]] + a[1..];
  }

  lemma SortOfSorted(s: seq<real>)
    requires Sorted(s)
    ensures Sort(s) == s
  {
    SortedUnique(Sort(s), s);
  }

  /** np.min: a sample no other sample is below. */
  function Min(s: seq<real>): (m: real)
    requires |s| > 0
    ensures m in s && forall i :: 0 <= i < |s| ==> m <= s[i]
  {
    if |s| == 1 then s[0]
    else
      var m := Min(s[1..]);
      assert forall i :: 1 <= i < |s| ==> s[i] == s[1..][i - 1];
      if s[0] <= m then s[0] else m
  }

  /** np.max: a sample no other sample is above. */
  function Max(s: seq<real>): (m: real)
    requires |s| > 0
    ensures m in s && forall i :: 0 <= i < |s| ==> s[i] <= m
  {
    if |s| == 1 then s[0]
    else
      var m := Max(s[1..]);
      assert forall i :: 1 <= i < |s| ==> s[i] == s[1..][i - 1];
      if s[0] >= m then s[0] else m
  }

  /** The ends of the sorted samples are the minimum and the maximum. */
  lemma SortEnds(s: seq<real>)
    requires |s| > 0
    ensures Sort(s)[0] == Min(s) && Sort(s)[|s| - 1] == Max(s)
  {
    SortedFirst(Sort(s), s);
    SortedLast(Sort(s), s);
  }

  lemma SortedFirst(r: seq<real>, s: seq<real>)
    requires |s| > 0 && |r| == |s| && Sorted(r) && multiset(r) == multiset(s)
    ensures r[0] == Min(s)
  {
    var m := Min(s);
    assert m in multiset(r);
    var i :| 0 <= i < |r| && r[i] == m;
    assert r[0] in multiset(s);
    var k :| 0 <= k < |s| && s[k] == r[0];
    assert r[0] <= r[i] && m <= s[k];
  }

  lemma SortedLast(r: seq<real>, s: seq<real>)
    requires |s| > 0 && |r| == |s| && Sorted(r) && multiset(r) == multiset(s)
    ensures r[|r| - 1] == Max(s)
  {
    var m := Max(s);
    assert m in multiset(r);
    var i :| 0 <= i < |r| && r[i] == m;
    assert r[|r| - 1] in multiset(s);
    var k :| 0 <= k < |s| && s[k] == r[|r| - 1];
    assert r[i] <= r[|r| - 1] && s[k] <= m;
  }

  function Sum(s: seq<real>): real
  {
    if |s| == 0 then 0.0 else Sum(s[..|s| - 1]) + s[|s| - 1]
  }

  /** Adding up from the front gives the same total. */
  lemma {:induction false} SumCons(x: real, s: seq<real>)
    ensures Sum([x] + s) == x + Sum(s)
  {
    if |s| > 0 {
      var t := [x] + s;
      assert t[..|t| - 1] == [x] + s[..|s| - 1];
      SumCons(x, s[..|s| - 1]);
    }
  }

  /** Inserting a sample adds it to the total. */
  lemma {:induction false} SumInsert(x: real, s: seq<real>)
    requires Sorted(s)
    ensures Sum(Insert(x, s)) == x + Sum(s)
  {
    if |s| == 0 {
      assert Insert(x, s) == [x] + s;
      SumCons(x, s);
    } else if x <= s[0] {
      SumCons(x, s);
    } else {
      assert s == [s[0]] + s[1..];
      SumInsert(x, s[1..]);
      SumCons(s[0], Insert(x, s[1..]));
      SumCons(s[0], s[1..]);
    }
  }

  /** Sorting does not change the total, so neither does it the mean. */
  lemma {:induction false} SumSort(s: seq<real>)
    ensures Sum(Sort(s)) == Sum(s)
  {
    if |s| > 0 {
      assert s == [s[0]] + s[1..];
      SumSort(s[1..]);
      SumInsert(s[0], Sort(s[1..]));
      SumCons(s[0], s[1..]);
    }
  }

  /** np.mean. */
  function Mean(s: seq<real>): real
    requires |s| > 0
  {
    Sum(s) / |s| as real
  }

  /** Sum of squared deviations from the mean, the numerator of np.var. */
  function SquaredDeviations(s: seq<real>, mean: real): real
  {
    if |s| == 0 then 0.0
    else SquaredDeviations(s[..|s| - 1], mean) + (s[|s| - 1] - mean) * (s[|s| - 1] - mean)
  }

  /** np.var with ddof = 0 (population variance). */
  function Variance(s: seq<real>): real
    requires |s| > 0
  {
    SquaredDeviations(s, Mean(s)) / |s| as real
  }

  lemma {:induction false} SquaredDeviationsNonNeg(s: seq<real>, mean: real)
    ensures SquaredDeviations(s, mean) >= 0.0
  {
    if |s| > 0 {
      SquaredDeviationsNonNeg(s[..|s| - 1], mean);
      var d := s[|s| - 1] - mean;
      assert d * d >= 0.0;
    }
  }

  lemma {:induction false} SumBounds(s: seq<real>, lo: real, hi: real)
    requires forall i :: 0 <= i < |s| ==> lo <= s[i] <= hi
    ensures |s| as real * lo <= Sum(s) <= |s| as real * hi
  {
    if |s| > 0 {
      SumBounds(s[..|s| - 1], lo, hi);
      assert (|s| - 1) as real * lo + lo == |s| as real * lo;
      assert (|s| - 1) as real * hi + hi == |s| as real * hi;
    }
  }

  /** The mean lies between the minimum and the maximum. */
  lemma MeanBounds(s: seq<real>)
    requires |s| > 0
    ensures Min(s) <= Mean(s) <= Max(s)
  {
    MeanBetween(s, Min(s), Max(s));
  }

  lemma MeanBetween(s: seq<real>, lo: real, hi: real)
    requires |s| > 0
    requires forall i :: 0 <= i < |s| ==> lo <= s[i] <= hi
    ensures lo <= Mean(s) <= hi
  {
    SumBounds(s, lo, hi);
    DivBounds(Sum(s), |s| as real, lo, hi);
  }

  lemma DivBounds(x: real, n: real, lo: real, hi: real)
    requires n > 0.0 && n * lo <= x <= n * hi
    ensures lo <= x / n <= hi
  {
    var q := x / n;
    assert q * n == x;
    if q < lo {
      MulLe(n, q, lo);
    }
    if q > hi {
      MulLe(n, hi, q);
    }
  }

  /** Multiplying by a non-negative factor keeps an inequality. */
  lemma MulLe(a: real, x: real, y: real)
    requires a >= 0.0 && x <= y
    ensures a * x <= a * y
  {
    assert a * y - a * x == a * (y - x);
    MulNonNeg(a, y - x);
  }

  lemma MulNonNeg(a: real, b: real)
    requires a >= 0.0 && b >= 0.0
    ensures a * b >= 0.0
  {
  }

  lemma VarianceNonNeg(s: seq<real>)
    requires |s| > 0
    ensures Variance(s) >= 0.0
  {
    SquaredDeviationsNonNeg(s, Mean(s));
  }

  // ---------------------------------------------------------------
  // np.percentile(a, p) with the default "linear" method

  /** The real position (n - 1) * p / 100 into the sorted samples. */
  function Rank(n: nat, p: real): (h: real)
    requires n > 0 && 0.0 <= p <= 100.0
    ensures 0.0 <= h <= (n - 1) as real
  {
    RankBounds(n, p);
    (n - 1) as real * p / 100.0
  }

  lemma RankBounds(n: nat, p: real)
    requires n > 0 && 0.0 <= p <= 100.0
    ensures 0.0 <= (n - 1) as real * p / 100.0 <= (n - 1) as real
  {
    var m := (n - 1) as real;
    MulLe(m, p, 100.0);
    MulNonNeg(m, p);
  }

  lemma RankMonotone(n: nat, p: real, q: real)
    requires n > 0 && 0.0 <= p <= q <= 100.0
    ensures Rank(n, p) <= Rank(n, q)
  {
    var m := (n - 1) as real;
    MulLe(m, p, q);
    DivLe(m * p, m * q, 100.0);
  }

  lemma DivLe(x: real, y: real, c: real)
    requires x <= y && c > 0.0
    ensures x / c <= y / c
  {
    assert y / c - x / c == (y - x) / c;
    DivNonNeg(y - x, c);
  }

  lemma DivNonNeg(a: real, c: real)
    requires a >= 0.0 && c > 0.0
    ensures a / c >= 0.0
  {
  }

  /** Lower neighbour index floor(h). */
  function LowIndex(n: nat, p: real): (lo: nat)
    requires n > 0 && 0.0 <= p <= 100.0
    ensures lo < n && lo as real <= Rank(n, p) < lo as real + 1.0
  {
    Rank(n, p).Floor
  }

  /** The value at position h of the sorted samples, interpolating linearly
      between the two neighbouring order statistics. */
  function PercentileOfSorted(a: seq<real>, p: real): real
    requires |a| > 0 && 0.0 <= p <= 100.0
  {
    var lo := LowIndex(|a|, p);
    var hi := if lo + 1 < |a| then lo + 1 else lo;
    Lerp(a[lo], a[hi], Rank(|a|, p) - lo as real)
  }

  function Lerp(x: real, y: real, t: real): real
  {
    x + t * (y - x)
  }

  lemma LerpBounds(x: real, y: real, t: real)
    requires x <= y && 0.0 <= t <= 1.0
    ensures x <= Lerp(x, y, t) <= y
  {
    var d := y - x;
    MulNonNeg(t, d);
    MulNonNeg(1.0 - t, d);
    assert d - t * d == (1.0 - t) * d;
  }

  function Percentile(s: seq<real>, p: real): real
    requires |s| > 0 && 0.0 <= p <= 100.0
  {
    PercentileOfSorted(Sort(s), p)
  }

  /** Between the neighbouring order statistics of its rank. */
  lemma PercentileOfSortedBetween(a: seq<real>, p: real)
    requires |a| > 0 && 0.0 <= p <= 100.0 && Sorted(a)
    ensures var lo := LowIndex(|a|, p);
      var hi := if lo + 1 < |a| then lo + 1 else lo;
      a[lo] <= PercentileOfSorted(a, p) <= a[hi]
  {
    var lo := LowIndex(|a|, p);
    var hi := if lo + 1 < |a| then lo + 1 else lo;
    LerpBounds(a[lo], a[hi], Rank(|a|, p) - lo as real);
  }

  /** Every percentile lies between the smallest and the largest sample. */
  lemma PercentileBounds(s: seq<real>, p: real)
    requires |s| > 0 && 0.0 <= p <= 100.0
    ensures Min(s) <= Percentile(s, p) <= Max(s)
  {
    SortEnds(s);
    PercentileOfSortedEnds(Sort(s), p);
  }

  lemma PercentileOfSortedEnds(a: seq<real>, p: real)
    requires |a| > 0 && 0.0 <= p <= 100.0 && Sorted(a)
    ensures a[0] <= PercentileOfSorted(a, p) <= a[|a| - 1]
  {
    PercentileOfSortedBetween(a, p);
  }

  /** A higher level never gives a lower percentile. */
  lemma PercentileMonotone(s: seq<real>, p: real, q: real)
    requires |s| > 0 && 0.0 <= p <= q <= 100.0
    ensures Percentile(s, p) <= Percentile(s, q)
  {
    var a := Sort(s);
    var n := |a|;
    var lp, lq := LowIndex(n, p), LowIndex(n, q);
    RankMonotone(n, p, q);
    PercentileOfSortedBetween(a, p);
    PercentileOfSortedBetween(a, q);
    if lp == lq {
      var hi := if lp + 1 < n then lp + 1 else lp;
      LerpMonotone(a[lp], a[hi], Rank(n, p) - lp as real, Rank(n, q) - lp as real);
    } else {
      assert lp < lq;
      assert a[lp + 1] <= a[lq];
    }
  }

  lemma LerpMonotone(x: real, y: real, t: real, u: real)
    requires x <= y && t <= u
    ensures Lerp(x, y, t) <= Lerp(x, y, u)
  {
    MulLe(y - x, t, u);
    assert t * (y - x) == (y - x) * t && u * (y - x) == (y - x) * u;
  }

  /** The median of 10, 20, ..., 100 is 55, halfway between 50 and 60. */
  lemma PercentileExample(s: seq<real>)
    requires |s| == 10 && forall i :: 0 <= i < 10 ==> s[i] == 10.0 * (i + 1) as real
    ensures Percentile(s, 50.0) == 55.0
  {
    assert Sort(s) == s by {
      TensSorted(s);
      SortOfSorted(s);
    }
    MedianOfTen(s);
  }

  lemma TensSorted(s: seq<real>)
    requires |s| == 10 && forall i :: 0 <= i < 10 ==> s[i] == 10.0 * (i + 1) as real
    ensures Sorted(s)
  {
  }

  lemma MedianOfTen(s: seq<real>)
    requires |s| == 10 && s[4] == 50.0 && s[5] == 60.0
    ensures PercentileOfSorted(s, 50.0) == 55.0
  {
    assert Rank(10, 50.0) == 4.5;
    assert LowIndex(10, 50.0) == 4;
  }
}
