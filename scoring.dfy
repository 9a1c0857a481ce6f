/**
 * Composite scoring and regimes (src/scoring.py): the CLP score as a fixed
 * linear combination of the three z-scores, the two adaptive thresholds,
 * and the three-way regime label.
 */
module Scoring {
  import opened Stats
  import opened Quantile
  import opened Frames

  /** Weights of the funding, open-interest-change and absolute-return z-scores. */
  datatype Weights = Weights(funding: real, oi: real, absret: real)

  /**
   * One cell of the score. Undefined as soon as one component is, whatever
   * its weight: NaN times zero is still NaN.
   */
  function Combine(w: Weights, zf: Option<real>, zo: Option<real>, zr: Option<real>): (c: Option<real>)
    ensures c.Some? <==> zf.Some? && zo.Some? && zr.Some?
  {
    if zf.Some? && zo.Some? && zr.Some?
    then Some(w.funding * zf.value + w.oi * zo.value + w.absret * zr.value)
    else None
  }

  /** Raising one component never lowers the score when its weight is non-negative. */
  lemma CombineMonotone(w: Weights, zf: real, zo: real, zr: real, zf2: real, zo2: real, zr2: real)
    requires w.funding >= 0.0 && w.oi >= 0.0 && w.absret >= 0.0
    requires zf <= zf2 && zo <= zo2 && zr <= zr2
    ensures Combine(w, Some(zf), Some(zo), Some(zr)).value <= Combine(w, Some(zf2), Some(zo2), Some(zr2)).value
  {
    MulNonNegative(w.funding, zf2 - zf);
    MulNonNegative(w.oi, zo2 - zo);
    MulNonNegative(w.absret, zr2 - zr);
    assert Combine(w, Some(zf2), Some(zo2), Some(zr2)).value - Combine(w, Some(zf), Some(zo), Some(zr)).value
      == w.funding * (zf2 - zf) + w.oi * (zo2 - zo) + w.absret * (zr2 - zr);
  }

  /** `compute_clp`: adds or overwrites the `clp` column, the weights taken as given. */
  function ComputeClp(df: Frame, w: Weights): (r: Frame)
    requires df.Valid() && ZFunding in df.cols && ZOi in df.cols && ZAbsret in df.cols
    ensures r.Valid() && KeepsOtherColumns(df, r, {Clp})
    ensures forall t :: 0 <= t < r.rows ==>
      r.cols[Clp][t] == Combine(w, df.cols[ZFunding][t], df.cols[ZOi][t], df.cols[ZAbsret][t])
  {
    var clp := seq(df.rows, t requires 0 <= t < df.rows =>
      Combine(w, df.cols[ZFunding][t], df.cols[ZOi][t], df.cols[ZAbsret][t]));
    df.WithColumn(Clp, clp)
  }

  /** A score cell is undefined exactly when one of its three z-scores is. */
  lemma ClpUndefinedIff(df: Frame, w: Weights, t: nat)
    requires df.Valid() && ZFunding in df.cols && ZOi in df.cols && ZAbsret in df.cols
    requires t < df.rows
    ensures ComputeClp(df, w).cols[Clp][t].None? <==>
      df.cols[ZFunding][t].None? || df.cols[ZOi][t].None? || df.cols[ZAbsret][t].None?
  {
  }

  datatype Thresholds = Thresholds(stress: real, extreme: real)

  /** Below this many defined scores the thresholds fall back to fixed values. */
  const MinHistory: nat := 80

  const Fallback: Thresholds := Thresholds(0.8, 1.8)

  /**
   * `compute_thresholds`: the fallback on a short history, whatever the
   * mode; otherwise quantiles ("percentile"), mean plus k population
   * standard deviations ("std"), or an error for any other mode.
   */
  function ComputeThresholds(series: seq<Option<real>>, mode: string, pStress: real, pExtreme: real,
                             kStress: real, kExtreme: real, sqrt: real -> real): (r: Result<Thresholds>)
    requires |Values(series)| >= MinHistory && mode == "percentile" ==>
      0.0 <= pStress <= 1.0 && 0.0 <= pExtreme <= 1.0
    ensures |Values(series)| < MinHistory ==> r == Ok(Fallback)
    ensures r.Err? <==> |Values(series)| >= MinHistory && mode != "percentile" && mode != "std"
  {
    var x := Values(series);
    if |x| < MinHistory then Ok(Fallback)
    else if mode == "percentile" then Ok(Thresholds(QuantileOf(x, pStress), QuantileOf(x, pExtreme)))
    else if mode == "std" then
      var mu := Mean(x);
      var sd := PopStd(x, sqrt);
      Ok(Thresholds(mu + kStress * sd, mu + kExtreme * sd))
    else Err("mode must be one of: percentile, std")
  }

  /**
   * Percentile mode: each threshold is the quantile of the defined scores,
   * lies between their minimum and maximum, and the thresholds are ordered
   * as the probabilities are.
   */
  lemma PercentileThresholds(series: seq<Option<real>>, pStress: real, pExtreme: real,
                             kStress: real, kExtreme: real, sqrt: real -> real)
    requires |Values(series)| >= MinHistory
    requires 0.0 <= pStress <= 1.0 && 0.0 <= pExtreme <= 1.0
    ensures var x := Values(series);
      var r := ComputeThresholds(series, "percentile", pStress, pExtreme, kStress, kExtreme, sqrt);
      && r == Ok(Thresholds(QuantileOf(x, pStress), QuantileOf(x, pExtreme)))
      && (exists k :: 0 <= k < |x| && x[k] <= r.value.stress)
      && (exists k :: 0 <= k < |x| && r.value.stress <= x[k])
      && (exists k :: 0 <= k < |x| && x[k] <= r.value.extreme)
      && (exists k :: 0 <= k < |x| && r.value.extreme <= x[k])
      && (pStress <= pExtreme ==> r.value.stress <= r.value.extreme)
  {
    var x := Values(series);
    QuantileWithinRange(x, pStress);
    QuantileWithinRange(x, pExtreme);
    if pStress <= pExtreme {
      QuantileMonotone(x, pStress, pExtreme);
    }
  }

  /**
   * Std mode: mean plus k population standard deviations; the thresholds
   * are ordered as the multipliers are, given the square-root laws.
   */
  lemma StdThresholds(series: seq<Option<real>>, pStress: real, pExtreme: real,
                      kStress: real, kExtreme: real, sqrt: real -> real)
    requires |Values(series)| >= MinHistory && SqrtLaw(sqrt)
    ensures ComputeThresholds(series, "std", pStress, pExtreme, kStress, kExtreme, sqrt).Ok?
    ensures ComputeThresholds(series, "std", pStress, pExtreme, kStress, kExtreme, sqrt).value
      == Thresholds(Mean(Values(series)) + kStress * PopStd(Values(series), sqrt),
                    Mean(Values(series)) + kExtreme * PopStd(Values(series), sqrt))
    ensures kStress <= kExtreme ==>
      ComputeThresholds(series, "std", pStress, pExtreme, kStress, kExtreme, sqrt).value.stress
      <= ComputeThresholds(series, "std", pStress, pExtreme, kStress, kExtreme, sqrt).value.extreme
  {
    var x := Values(series);
    var sd := PopStd(x, sqrt);
    StdZeroIffConstant(x, sqrt);
    assert "std" != "percentile";
    if kStress <= kExtreme {
      ScaleMonotone(Mean(x), kStress, kExtreme, sd);
    }
  }

  lemma ScaleMonotone(mu: real, k1: real, k2: real, sd: real)
    requires k1 <= k2 && sd >= 0.0
    ensures mu + k1 * sd <= mu + k2 * sd
  {
    MulNonNegative(k2 - k1, sd);
    assert k2 * sd - k1 * sd == (k2 - k1) * sd;
  }

  /** Std mode on scores that are all equal: both thresholds are that value. */
  lemma StdThresholdsConstant(series: seq<Option<real>>, pStress: real, pExtreme: real,
                              kStress: real, kExtreme: real, sqrt: real -> real)
    requires |Values(series)| >= MinHistory && SqrtLaw(sqrt)
    requires Constant(Values(series))
    ensures var r := ComputeThresholds(series, "std", pStress, pExtreme, kStress, kExtreme, sqrt);
      r == Ok(Thresholds(Values(series)[0], Values(series)[0]))
  {
    var x := Values(series);
    StdZeroIffConstant(x, sqrt);
    MeanConstant(x);
  }

  /**
   * `add_regime` on one cell. Extreme is assigned last, so a score above
   * the extreme threshold is Extreme even when the thresholds are out of
   * order; an undefined score compares false and stays Normal.
   */
  function Classify(clp: Option<real>, th: Thresholds): (g: Regime)
    ensures g == Extreme <==> clp.Some? && clp.value > th.extreme
    ensures g == Stress <==> clp.Some? && th.stress < clp.value <= th.extreme
    ensures g == Normal <==> clp.None? || (clp.value <= th.stress && clp.value <= th.extreme)
  {
    if clp.Some? && clp.value > th.extreme then Extreme
    else if clp.Some? && clp.value > th.stress then Stress
    else Normal
  }

  /** Severity order of the labels. */
  function Level(g: Regime): nat {
    match g
    case Normal => 0
    case Stress => 1
    case Extreme => 2
  }

  /** With ordered thresholds, a higher score never gets a milder label. */
  lemma ClassifyMonotone(a: real, b: real, th: Thresholds)
    requires th.stress <= th.extreme && a <= b
    ensures Level(Classify(Some(a), th)) <= Level(Classify(Some(b), th))
  {
  }

  /** `add_regime`: labels every row from its score; the numeric columns are untouched. */
  function AddRegime(df: Frame, th: Thresholds): (r: Frame)
    requires df.Valid() && Clp in df.cols
    ensures r.Valid() && r.rows == df.rows && r.cols == df.cols && r.regime.Some?
    ensures forall t :: 0 <= t < r.rows ==> r.regime.value[t] == Classify(df.cols[Clp][t], th)
  {
    df.(regime := Some(seq(df.rows, t requires 0 <= t < df.rows => Classify(df.cols[Clp][t], th))))
  }
}
