/**
 * The continuous quantile estimator shared by the threshold estimator and
 * the crowding index: sort ascending, take position h = (n - 1) * p and
 * interpolate linearly between the order statistics on either side of it
 * (the default of pandas `Series.quantile` and of numpy `percentile`, with
 * numpy's percentile argument divided by 100).
 */
module Quantile {
  import opened Stats
  import opened Sorting

  /** Key for ascending order of plain reals. */
  function Identity(x: real): real {
    x
  }

  predicate Ascending(s: seq<real>) {
    forall i, j :: 0 <= i < j < |s| ==> s[i] <= s[j]
  }

  function SortAscending(xs: seq<real>): (r: seq<real>)
    ensures |r| == |xs| && multiset(r) == multiset(xs)
    ensures Ascending(r)
  {
    var r := SortBy(xs, Identity);
    assert forall i, j :: 0 <= i < j < |r| ==> Identity(r[i]) <= Identity(r[j]);
    r
  }

  /** The fractional position h = (n - 1) * p, which lies in [0, n - 1]. */
  function Position(n: nat, p: real): (h: real)
    requires n > 0 && 0.0 <= p <= 1.0
    ensures 0.0 <= h <= (n - 1) as real
  {
    MulNonNegative((n - 1) as real, p);
    MulNonNegative((n - 1) as real, 1.0 - p);
    (n - 1) as real * p
  }

  /** Index of the order statistic at or below position h. */
  function Lower(n: nat, p: real): (i: nat)
    requires n > 0 && 0.0 <= p <= 1.0
    ensures i < n
  {
    Position(n, p).Floor
  }

  /** How far position h lies past its lower order statistic, in [0, 1). */
  function Fraction(n: nat, p: real): (f: real)
    requires n > 0 && 0.0 <= p <= 1.0
    ensures 0.0 <= f < 1.0
  {
    Position(n, p) - Lower(n, p) as real
  }

  /** Linear interpolation between the order statistics of an ascending sample. */
  function Interpolate(s: seq<real>, p: real): real
    requires |s| > 0 && 0.0 <= p <= 1.0
  {
    var i := Lower(|s|, p);
    if i + 1 < |s| then Lerp(s[i], s[i + 1], Fraction(|s|, p)) else s[i]
  }

  /** The point a fraction `f` of the way from `a` to `b`. */
  function Lerp(a: real, b: real, f: real): real {
    a + f * (b - a)
  }

  lemma LerpBetween(a: real, b: real, f: real)
    requires a <= b && 0.0 <= f <= 1.0
    ensures a <= Lerp(a, b, f) <= b
  {
    MulNonNegative(f, b - a);
    MulNonNegative(1.0 - f, b - a);
    assert Lerp(a, b, f) == b - (1.0 - f) * (b - a);
  }

  lemma LerpMonotone(a: real, b: real, f1: real, f2: real)
    requires a <= b && f1 <= f2
    ensures Lerp(a, b, f1) <= Lerp(a, b, f2)
  {
  }

  lemma LerpFlat(a: real, f: real)
    ensures Lerp(a, a, f) == a
  {
  }

  lemma PositionMonotone(n: nat, p1: real, p2: real)
    requires n > 0 && 0.0 <= p1 <= p2 <= 1.0
    ensures Position(n, p1) <= Position(n, p2)
  {
    assert Position(n, p2) - Position(n, p1) == (n - 1) as real * (p2 - p1);
    MulNonNegative((n - 1) as real, p2 - p1);
  }

  /** The p-quantile of a sample in any order. */
  function QuantileOf(xs: seq<real>, p: real): real
    requires |xs| > 0 && 0.0 <= p <= 1.0
  {
    Interpolate(SortAscending(xs), p)
  }

  /** The interpolated value lies between the two order statistics around h. */
  lemma InterpolateBracket(s: seq<real>, p: real)
    requires |s| > 0 && 0.0 <= p <= 1.0 && Ascending(s)
    ensures s[Lower(|s|, p)] <= Interpolate(s, p)
    ensures Lower(|s|, p) + 1 < |s| ==> Interpolate(s, p) <= s[Lower(|s|, p) + 1]
    ensures Interpolate(s, p) <= s[|s| - 1]
  {
    var i := Lower(|s|, p);
    if i + 1 < |s| {
      LerpBetween(s[i], s[i + 1], Fraction(|s|, p));
    }
  }

  lemma FloorMonotone(x: real, y: real)
    requires x <= y
    ensures x.Floor <= y.Floor
  {
  }

  /** A larger probability never gives a smaller quantile. */
  lemma InterpolateMonotone(s: seq<real>, p1: real, p2: real)
    requires |s| > 0 && 0.0 <= p1 <= p2 <= 1.0 && Ascending(s)
    ensures Interpolate(s, p1) <= Interpolate(s, p2)
  {
    var n := |s|;
    PositionMonotone(n, p1, p2);
    var i1, i2 := Lower(n, p1), Lower(n, p2);
    FloorMonotone(Position(n, p1), Position(n, p2));
    InterpolateBracket(s, p1);
    InterpolateBracket(s, p2);
    if i1 == i2 {
      if i1 + 1 < n {
        LerpMonotone(s[i1], s[i1 + 1], Fraction(n, p1), Fraction(n, p2));
      }
    } else {
      assert i1 + 1 <= i2;
    }
  }

  /** On a sample whose values are all equal, every quantile is that value. */
  lemma InterpolateConstant(s: seq<real>, p: real, c: real)
    requires |s| > 0 && 0.0 <= p <= 1.0
    requires forall k :: 0 <= k < |s| ==> s[k] == c
    ensures Interpolate(s, p) == c
  {
    var i := Lower(|s|, p);
    if i + 1 < |s| {
      LerpFlat(c, Fraction(|s|, p));
    }
  }

  /** The quantile lies between the sample's minimum and maximum. */
  lemma QuantileWithinRange(xs: seq<real>, p: real)
    requires |xs| > 0 && 0.0 <= p <= 1.0
    ensures exists k :: 0 <= k < |xs| && xs[k] <= QuantileOf(xs, p)
    ensures exists k :: 0 <= k < |xs| && QuantileOf(xs, p) <= xs[k]
  {
    var s := SortAscending(xs);
    InterpolateBracket(s, p);
    var lo, hi := s[Lower(|s|, p)], s[|s| - 1];
    assert lo in multiset(xs) && hi in multiset(xs);
    var a :| 0 <= a < |xs| && xs[a] == lo;
    var b :| 0 <= b < |xs| && xs[b] == hi;
  }

  lemma QuantileMonotone(xs: seq<real>, p1: real, p2: real)
    requires |xs| > 0 && 0.0 <= p1 <= p2 <= 1.0
    ensures QuantileOf(xs, p1) <= QuantileOf(xs, p2)
  {
    InterpolateMonotone(SortAscending(xs), p1, p2);
  }

  lemma QuantileConstant(xs: seq<real>, p: real, c: real)
    requires |xs| > 0 && 0.0 <= p <= 1.0
    requires forall k :: 0 <= k < |xs| ==> xs[k] == c
    ensures QuantileOf(xs, p) == c
  {
    var s := SortAscending(xs);
    forall k | 0 <= k < |s| ensures s[k] == c {
      assert s[k] in multiset(xs);
    }
    InterpolateConstant(s, p, c);
  }
}
