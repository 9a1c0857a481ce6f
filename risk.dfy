/**
 * Cross-asset crowding index (src/risk.py): the mean absolute score of the
 * heaviest names (those at or above a percentile cut) over the mean
 * absolute score of all names.
 */
module Risk {
  import opened Stats
  import opened Quantile

  /** `np.abs` over a sample. */
  function AbsAll(xs: seq<real>): (r: seq<real>)
    ensures |r| == |xs|
    ensures forall i :: 0 <= i < |xs| ==> r[i] == Abs(xs[i]) && r[i] >= 0.0
  {
    if |xs| == 0 then [] else [Abs(xs[0])] + AbsAll(xs[1..])
  }

  /** `x[x >= thr]`: the values at or above the cut, in order. */
  function AtLeast(xs: seq<real>, thr: real): (r: seq<real>)
    ensures |r| <= |xs|
    ensures forall i :: 0 <= i < |r| ==> r[i] >= thr
    ensures forall v :: v in r <==> v in xs && v >= thr
  {
    if |xs| == 0 then [] else (if xs[0] >= thr then [xs[0]] else []) + AtLeast(xs[1..], thr)
  }

  /** The cut keeps every value at or above it as often as it occurs, ties included. */
  lemma {:induction false} AtLeastCount(xs: seq<real>, thr: real)
    ensures forall v :: multiset(AtLeast(xs, thr))[v] == if v >= thr then multiset(xs)[v] else 0
  {
    if |xs| > 0 {
      AtLeastCount(xs[1..], thr);
      assert xs == [xs[0]] + xs[1..];
    }
  }

  /** The values strictly below the cut, in order. */
  function Below(xs: seq<real>, thr: real): (r: seq<real>)
    ensures |r| <= |xs|
    ensures forall i :: 0 <= i < |r| ==> r[i] < thr
  {
    if |xs| == 0 then [] else (if xs[0] < thr then [xs[0]] else []) + Below(xs[1..], thr)
  }

  /**
   * `crowding_index`: undefined with fewer than `minN` defined scores, when
   * every score is zero, or when nothing reaches the cut; otherwise the
   * heavy-set mean over the overall mean, both of absolute scores.
   */
  function CrowdingIndex(clps: seq<Option<real>>, topPct: real, minN: int): (r: Option<real>)
    requires 0.0 <= topPct <= 1.0 && minN >= 1
    ensures |Values(clps)| < minN ==> r == None
  {
    var x := Values(clps);
    if |x| < minN then None else MagnitudeRatio(AbsAll(x), topPct)
  }

  /** The index over the absolute scores `a`, once there are enough of them. */
  function MagnitudeRatio(a: seq<real>, topPct: real): Option<real>
    requires |a| > 0 && 0.0 <= topPct <= 1.0
  {
    var denom := Mean(a);
    if denom <= 0.0 then None
    else
      var heavy := AtLeast(a, QuantileOf(a, 1.0 - topPct));
      if |heavy| == 0 then None else Some(Mean(heavy) / denom)
  }

  lemma {:induction false} AtLeastContains(xs: seq<real>, thr: real, k: nat)
    requires k < |xs| && xs[k] >= thr
    ensures |AtLeast(xs, thr)| > 0
  {
    if k > 0 {
      AtLeastContains(xs[1..], thr, k - 1);
    }
  }

  /** The cut never exceeds the largest absolute score, so the heavy set is never empty. */
  lemma HeavySetNonEmpty(a: seq<real>, topPct: real)
    requires |a| > 0 && 0.0 <= topPct <= 1.0
    ensures |AtLeast(a, QuantileOf(a, 1.0 - topPct))| > 0
  {
    var q := QuantileOf(a, 1.0 - topPct);
    QuantileWithinRange(a, 1.0 - topPct);
    var k :| 0 <= k < |a| && q <= a[k];
    AtLeastContains(a, q, k);
  }

  lemma {:induction false} AtLeastAll(xs: seq<real>, thr: real)
    requires forall i :: 0 <= i < |xs| ==> xs[i] >= thr
    ensures AtLeast(xs, thr) == xs
  {
    if |xs| > 0 {
      AtLeastAll(xs[1..], thr);
    }
  }

  /** If every score is zero the mean absolute score is zero and the index is undefined. */
  lemma CrowdingAllZero(clps: seq<Option<real>>, topPct: real, minN: int)
    requires 0.0 <= topPct <= 1.0 && minN >= 1
    requires forall k :: 0 <= k < |Values(clps)| ==> Values(clps)[k] == 0.0
    ensures CrowdingIndex(clps, topPct, minN) == None
  {
    var x := Values(clps);
    if |x| >= minN {
      var a := AbsAll(x);
      SumUpperBound(a, 0.0);
      MeanAtMost(a, 0.0);
    }
  }

  /** If every score has the same non-zero magnitude the index is exactly 1. */
  lemma CrowdingEqualMagnitude(clps: seq<Option<real>>, topPct: real, minN: int, c: real)
    requires 0.0 <= topPct <= 1.0 && minN >= 1 && |Values(clps)| >= minN
    requires c > 0.0 && forall k :: 0 <= k < |Values(clps)| ==> Abs(Values(clps)[k]) == c
    ensures CrowdingIndex(clps, topPct, minN) == Some(1.0)
  {
    var a := AbsAll(Values(clps));
    assert forall i :: 0 <= i < |a| ==> a[i] == c;
    MagnitudeRatioConstant(a, topPct, c);
  }

  lemma MagnitudeRatioConstant(a: seq<real>, topPct: real, c: real)
    requires |a| > 0 && 0.0 <= topPct <= 1.0 && c > 0.0
    requires forall i :: 0 <= i < |a| ==> a[i] == c
    ensures MagnitudeRatio(a, topPct) == Some(1.0)
  {
    MeanConstant(a);
    HeavyIsAll(a, 1.0 - topPct, c);
    RatioSelf(c);
  }

  /** On equal magnitudes the cut keeps the whole sample. */
  lemma HeavyIsAll(a: seq<real>, p: real, c: real)
    requires |a| > 0 && 0.0 <= p <= 1.0
    requires forall i :: 0 <= i < |a| ==> a[i] == c
    ensures AtLeast(a, QuantileOf(a, p)) == a
  {
    QuantileConstant(a, p, c);
    AtLeastAll(a, QuantileOf(a, p));
  }

  lemma {:induction false} AbsAllOfValues(s1: seq<Option<real>>, s2: seq<Option<real>>)
    requires |s1| == |s2|
    requires forall i :: 0 <= i < |s1| ==> s1[i].Some? == s2[i].Some?
    requires forall i :: 0 <= i < |s1| && s1[i].Some? ==> Abs(s1[i].value) == Abs(s2[i].value)
    ensures AbsAll(Values(s1)) == AbsAll(Values(s2))
  {
    if |s1| > 0 {
      AbsAllOfValues(s1[1..], s2[1..]);
      var h1 := if s1[0].Some? then [s1[0].value] else [];
      var h2 := if s2[0].Some? then [s2[0].value] else [];
      AbsAllAppend(h1, Values(s1[1..]));
      AbsAllAppend(h2, Values(s2[1..]));
    }
  }

  lemma {:induction false} AbsAllAppend(a: seq<real>, b: seq<real>)
    ensures AbsAll(a + b) == AbsAll(a) + AbsAll(b)
  {
    if |a| > 0 {
      assert (a + b)[1..] == a[1..] + b;
      AbsAllAppend(a[1..], b);
    }
  }

  /**
   * Flipping the sign of any score, or of all of them, leaves the index
   * unchanged: only magnitudes enter it.
   */
  lemma CrowdingSignInvariant(clps: seq<Option<real>>, flipped: seq<Option<real>>, topPct: real, minN: int)
    requires 0.0 <= topPct <= 1.0 && minN >= 1
    requires |flipped| == |clps|
    requires forall i :: 0 <= i < |clps| ==> flipped[i].Some? == clps[i].Some?
    requires forall i :: 0 <= i < |clps| && clps[i].Some? ==> Abs(flipped[i].value) == Abs(clps[i].value)
    ensures CrowdingIndex(flipped, topPct, minN) == CrowdingIndex(clps, topPct, minN)
  {
    AbsAllOfValues(clps, flipped);
    assert |Values(clps)| == |AbsAll(Values(clps))| == |AbsAll(Values(flipped))| == |Values(flipped)|;
  }

  /** The cut splits a sample into a part at or above it and a part below it. */
  lemma {:induction false} PartitionSum(xs: seq<real>, thr: real)
    ensures |AtLeast(xs, thr)| + |Below(xs, thr)| == |xs|
    ensures Sum(AtLeast(xs, thr)) + Sum(Below(xs, thr)) == Sum(xs)
  {
    if |xs| > 0 {
      PartitionSum(xs[1..], thr);
      var h := if xs[0] >= thr then [xs[0]] else [];
      var l := if xs[0] < thr then [xs[0]] else [];
      SumAppend(h, AtLeast(xs[1..], thr));
      SumAppend(l, Below(xs[1..], thr));
    }
  }

  /** `n * b`, kept behind a function so that bounds are stated over it as one term. */
  function Times(n: real, b: real): real {
    n * b
  }

  lemma TimesStep(k: real, b: real)
    ensures Times(k + 1.0, b) == b + Times(k, b)
  {
  }

  lemma TimesDistribute(h: real, l: real, m: real)
    ensures Times(h, m) + Times(l, m) == Times(h + l, m)
  {
  }

  lemma {:induction false} SumUpperBound(xs: seq<real>, b: real)
    requires forall i :: 0 <= i < |xs| ==> xs[i] <= b
    ensures Sum(xs) <= Times(|xs| as real, b)
  {
    if |xs| > 0 {
      SumUpperBound(xs[1..], b);
      TimesStep((|xs| - 1) as real, b);
    }
  }

  lemma {:induction false} SumLowerBound(xs: seq<real>, b: real)
    requires forall i :: 0 <= i < |xs| ==> xs[i] >= b
    ensures Sum(xs) >= Times(|xs| as real, b)
  {
    if |xs| > 0 {
      SumLowerBound(xs[1..], b);
      TimesStep((|xs| - 1) as real, b);
    }
  }

  /** A sum is its length times its mean. */
  lemma SumIsLengthTimesMean(xs: seq<real>)
    requires |xs| > 0
    ensures Sum(xs) == Times(|xs| as real, Mean(xs))
  {
  }

  lemma MeanAtMost(xs: seq<real>, b: real)
    requires |xs| > 0 && Sum(xs) <= Times(|xs| as real, b)
    ensures Mean(xs) <= b
  {
    SumIsLengthTimesMean(xs);
  }

  lemma MeanAtLeast(xs: seq<real>, b: real)
    requires |xs| > 0 && forall i :: 0 <= i < |xs| ==> xs[i] >= b
    ensures Mean(xs) >= b
  {
    SumLowerBound(xs, b);
    SumIsLengthTimesMean(xs);
  }

  /** The values at or above any cut have a mean at least the mean of the whole sample. */
  lemma UpperPartMean(xs: seq<real>, thr: real)
    requires |AtLeast(xs, thr)| > 0
    ensures Mean(AtLeast(xs, thr)) >= Mean(xs)
  {
    var hi, lo := AtLeast(xs, thr), Below(xs, thr);
    var h, l := |hi| as real, |lo| as real;
    PartitionSum(xs, thr);
    var m := Mean(hi);
    MeanAtLeast(hi, thr);
    SumUpperBound(lo, m);
    SumIsLengthTimesMean(hi);
    TimesDistribute(h, l, m);
    assert h + l == |xs| as real;
    MeanAtMost(xs, m);
  }

  lemma RatioSelf(c: real)
    requires c > 0.0
    ensures c / c == 1.0
  {
  }

  lemma RatioAtLeastOne(a: real, b: real)
    requires b > 0.0 && a >= b
    ensures a / b >= 1.0
  {
  }

  /** Whenever defined, the index is at least 1. */
  lemma CrowdingAtLeastOne(clps: seq<Option<real>>, topPct: real, minN: int)
    requires 0.0 <= topPct <= 1.0 && minN >= 1
    requires CrowdingIndex(clps, topPct, minN).Some?
    ensures CrowdingIndex(clps, topPct, minN).value >= 1.0
  {
    var a := AbsAll(Values(clps));
    var q := QuantileOf(a, 1.0 - topPct);
    UpperPartMean(a, q);
    RatioAtLeastOne(Mean(AtLeast(a, q)), Mean(a));
  }

  /** Once enough scores are defined and not all are zero, the index is defined. */
  lemma CrowdingDefined(clps: seq<Option<real>>, topPct: real, minN: int)
    requires 0.0 <= topPct <= 1.0 && minN >= 1 && |Values(clps)| >= minN
    requires Mean(AbsAll(Values(clps))) > 0.0
    ensures CrowdingIndex(clps, topPct, minN).Some?
  {
    HeavySetNonEmpty(AbsAll(Values(clps)), topPct);
  }
}
