/**
 * The per-symbol pipeline of the dashboard (app.py, `compute_one`) and the
 * settings it is run with: weight renormalisation and the mapping of the
 * threshold mode. The market-data download is not modelled; the merged
 * frame it produces is an input.
 */
module Pipeline {
  import opened Stats
  import opened Frames
  import opened Features
  import opened Scoring

  const DefaultWeights: Weights := Weights(0.5, 0.3, 0.2)

  function Total(w: Weights): real {
    w.funding + w.oi + w.absret
  }

  /**
   * Sidebar weight handling: a non-positive total resets to the defaults,
   * otherwise each weight is divided by the total.
   */
  function NormalizeWeights(w: Weights): (r: Weights)
    ensures Total(w) <= 0.0 ==> r == DefaultWeights
    ensures Total(w) > 0.0 ==>
      && r.funding * Total(w) == w.funding
      && r.oi * Total(w) == w.oi
      && r.absret * Total(w) == w.absret
  {
    var s := Total(w);
    if s <= 0.0 then DefaultWeights else Weights(w.funding / s, w.oi / s, w.absret / s)
  }

  lemma SharesOfWhole(a: real, b: real, c: real)
    requires a + b + c > 0.0
    ensures a / (a + b + c) + b / (a + b + c) + c / (a + b + c) == 1.0
  {
  }

  lemma QuotientNonNegative(a: real, s: real)
    requires a >= 0.0 && s > 0.0
    ensures a / s >= 0.0
  {
  }

  /**
   * The weights the pipeline uses always total 1, and non-negative slider
   * values stay non-negative.
   */
  lemma NormalizedWeightsTotalOne(w: Weights)
    ensures Total(NormalizeWeights(w)) == 1.0
    ensures w.funding >= 0.0 && w.oi >= 0.0 && w.absret >= 0.0 ==>
      var r := NormalizeWeights(w);
      r.funding >= 0.0 && r.oi >= 0.0 && r.absret >= 0.0
  {
    var s := Total(w);
    if s > 0.0 {
      SharesOfWhole(w.funding, w.oi, w.absret);
      if w.funding >= 0.0 && w.oi >= 0.0 && w.absret >= 0.0 {
        QuotientNonNegative(w.funding, s);
        QuotientNonNegative(w.oi, s);
        QuotientNonNegative(w.absret, s);
      }
    }
  }

  lemma DivideByOne(a: real)
    ensures a / 1.0 == a
  {
  }

  /** Normalising twice is normalising once. */
  lemma NormalizeIdempotent(w: Weights)
    ensures NormalizeWeights(NormalizeWeights(w)) == NormalizeWeights(w)
  {
    var r := NormalizeWeights(w);
    NormalizedWeightsTotalOne(w);
    DivideByOne(r.funding);
    DivideByOne(r.oi);
    DivideByOne(r.absret);
  }

  /** `compute_one` hands "percentile" through and every other mode to the std policy. */
  function RouteMode(mode: string): (m: string)
    ensures m == "percentile" || m == "std"
    ensures m == "percentile" <==> mode == "percentile"
  {
    if mode == "percentile" then "percentile" else "std"
  }

  /** Routed through `compute_one`, the threshold estimator never reports an unknown mode. */
  lemma RoutedModeNeverFails(series: seq<Option<real>>, mode: string, pStress: real, pExtreme: real,
                             kStress: real, kExtreme: real, sqrt: real -> real)
    requires |Values(series)| >= MinHistory && mode == "percentile" ==>
      0.0 <= pStress <= 1.0 && 0.0 <= pExtreme <= 1.0
    ensures ComputeThresholds(series, RouteMode(mode), pStress, pExtreme, kStress, kExtreme, sqrt).Ok?
  {
  }

  /** Everything `compute_one` takes besides the symbol and the downloaded data. */
  datatype Settings = Settings(
    zwin: nat, weights: Weights, thrMode: string,
    pStress: real, pExtreme: real, kStress: real, kExtreme: real)

  /** What the sidebar guarantees: a positive window, and probabilities in [0, 1] in percentile mode. */
  predicate SettingsOk(s: Settings) {
    s.zwin > 0 && (s.thrMode == "percentile" ==> 0.0 <= s.pStress <= 1.0 && 0.0 <= s.pExtreme <= 1.0)
  }

  /** Every numeric cell of row `t` is defined. */
  predicate RowComplete(df: Frame, t: nat)
    requires df.Valid() && t < df.rows
  {
    forall c :: c in df.cols ==> df.cols[c][t].Some?
  }

  /** Indices of the complete rows among the first `n`, in increasing order. */
  function CompleteRows(df: Frame, n: nat): (idx: seq<nat>)
    requires df.Valid() && n <= df.rows
    ensures forall i :: 0 <= i < |idx| ==> idx[i] < n && RowComplete(df, idx[i])
    ensures forall i, j :: 0 <= i < j < |idx| ==> idx[i] < idx[j]
    ensures forall t :: 0 <= t < n && RowComplete(df, t) ==> t in idx
  {
    if n == 0 then []
    else CompleteRows(df, n - 1) + (if RowComplete(df, n - 1) then [n - 1] else [])
  }

  /** The cells of `col` at the positions `idx`, in that order. */
  function Select<T>(col: seq<T>, idx: seq<nat>): (r: seq<T>)
    requires forall i :: 0 <= i < |idx| ==> idx[i] < |col|
    ensures |r| == |idx| && forall i :: 0 <= i < |idx| ==> r[i] == col[idx[i]]
  {
    if |idx| == 0 then [] else [col[idx[0]]] + Select(col, idx[1..])
  }

  /** `df.dropna()`: keeps exactly the complete rows, in order, in every column. */
  function DropIncomplete(df: Frame): (r: Frame)
    requires df.Valid()
    ensures r.Valid() && r.cols.Keys == df.cols.Keys && r.rows == |CompleteRows(df, df.rows)|
    ensures r.regime.Some? <==> df.regime.Some?
    ensures forall c, i :: c in r.cols && 0 <= i < r.rows ==>
      r.cols[c][i] == df.cols[c][CompleteRows(df, df.rows)[i]] && r.cols[c][i].Some?
  {
    var idx := CompleteRows(df, df.rows);
    Frame(|idx|,
          map c | c in df.cols :: Select(df.cols[c], idx),
          if df.regime.Some? then Some(Select(df.regime.value, idx)) else None)
  }

  /** The last complete row is the latest one: no later row is complete. */
  lemma LastCompleteRow(df: Frame)
    requires df.Valid() && |CompleteRows(df, df.rows)| > 0
    ensures var idx := CompleteRows(df, df.rows);
      var t := idx[|idx| - 1];
      RowComplete(df, t) && forall u :: t < u < df.rows ==> !RowComplete(df, u)
  {
  }

  /** `add_returns`, `add_oi_change` and `add_zscores`, in that order. */
  function ZFeatures(merged: Frame, zwin: nat, ln: real -> real, sqrt: real -> real): (z: Frame)
    requires merged.Valid() && HasMarketColumns(merged) && zwin > 0
    ensures z.Valid() && z.rows == merged.rows && z.regime == merged.regime
    ensures SameMarket(merged, z) && ZFunding in z.cols && ZOi in z.cols && ZAbsret in z.cols
    ensures z.cols[ZFunding] == RollingZScore(merged.cols[FundingRate], zwin, sqrt)
    ensures z.cols[ZOi] == RollingZScore(OiChange(merged.cols[OpenInterest]), zwin, sqrt)
    ensures z.cols[ZAbsret] == RollingZScore(AbsReturns(LogReturns(merged.cols[Close], ln)), zwin, sqrt)
  {
    var withReturns := AddReturns(merged, ln);
    KeepsMarket(merged, withReturns, {Ret, AbsRet});
    var withOi := AddOiChange(withReturns);
    KeepsMarket(withReturns, withOi, {OiChgPct});
    var withZ := AddZScores(withOi, zwin, sqrt);
    KeepsMarket(withOi, withZ, {ZFunding, ZOi, ZAbsret});
    withZ
  }

  /** The feature stages followed by `compute_clp`. */
  function Featurize(merged: Frame, s: Settings, ln: real -> real, sqrt: real -> real): (f: Frame)
    requires merged.Valid() && HasMarketColumns(merged) && s.zwin > 0
    ensures f.Valid() && f.rows == merged.rows && f.regime == merged.regime
    ensures SameMarket(merged, f) && Clp in f.cols
    ensures ZFunding in f.cols && ZOi in f.cols && ZAbsret in f.cols
    ensures f.cols[ZFunding] == RollingZScore(merged.cols[FundingRate], s.zwin, sqrt)
    ensures f.cols[ZOi] == RollingZScore(OiChange(merged.cols[OpenInterest]), s.zwin, sqrt)
    ensures f.cols[ZAbsret] == RollingZScore(AbsReturns(LogReturns(merged.cols[Close], ln)), s.zwin, sqrt)
    ensures forall t :: 0 <= t < f.rows ==>
      f.cols[Clp][t] == Combine(s.weights, f.cols[ZFunding][t], f.cols[ZOi][t], f.cols[ZAbsret][t])
  {
    var withZ := ZFeatures(merged, s.zwin, ln, sqrt);
    var f := ComputeClp(withZ, s.weights);
    KeepsMarket(withZ, f, {Clp});
    f
  }

  /** The latest state of one symbol, as shown in the watch table. */
  datatype Snapshot = Snapshot(
    symbol: string, price: real, funding: real, oi: real, clp: real,
    regime: Regime, stressThr: real, extremeThr: real)

  /** The snapshot's label is the one its score gets against its own thresholds. */
  predicate Consistent(snap: Snapshot) {
    snap.regime == Classify(Some(snap.clp), Thresholds(snap.stressThr, snap.extremeThr))
  }

  datatype Computed = Computed(frame: Frame, snap: Snapshot)

  /** The thresholds `compute_one` takes from the scores of the complete rows. */
  function PipelineThresholds(d: Frame, s: Settings, sqrt: real -> real): Thresholds
    requires d.Valid() && Clp in d.cols && SettingsOk(s)
  {
    var r := ComputeThresholds(d.cols[Clp], RouteMode(s.thrMode), s.pStress, s.pExtreme, s.kStress, s.kExtreme, sqrt);
    RoutedModeNeverFails(d.cols[Clp], s.thrMode, s.pStress, s.pExtreme, s.kStress, s.kExtreme, sqrt);
    r.value
  }

  /** Every cell of every column is defined. */
  predicate AllCellsDefined(d: Frame)
    requires d.Valid()
  {
    forall c, i :: c in d.cols && 0 <= i < d.rows ==> d.cols[c][i].Some?
  }

  /**
   * The tail of `compute_one` on a frame of complete rows: label every row
   * and read the snapshot off the last one.
   */
  function Report(symbol: string, d: Frame, th: Thresholds): (c: Computed)
    requires d.Valid() && HasMarketColumns(d) && Clp in d.cols && d.rows > 0 && AllCellsDefined(d)
    ensures c.frame.Valid() && c.frame.rows == d.rows && c.frame.cols == d.cols && c.frame.regime.Some?
    ensures Thresholds(c.snap.stressThr, c.snap.extremeThr) == th
    ensures forall i :: 0 <= i < d.rows ==> c.frame.regime.value[i] == Classify(d.cols[Clp][i], th)
    ensures c.snap.symbol == symbol && Consistent(c.snap)
    ensures c.snap.regime == c.frame.regime.value[d.rows - 1]
    ensures Some(c.snap.clp) == d.cols[Clp][d.rows - 1]
    ensures Some(c.snap.price) == d.cols[Close][d.rows - 1]
    ensures Some(c.snap.funding) == d.cols[FundingRate][d.rows - 1]
    ensures Some(c.snap.oi) == d.cols[OpenInterest][d.rows - 1]
  {
    var labelled := AddRegime(d, th);
    var last := d.rows - 1;
    Computed(labelled, Snapshot(
      symbol,
      d.cols[Close][last].value,
      d.cols[FundingRate][last].value,
      d.cols[OpenInterest][last].value,
      d.cols[Clp][last].value,
      labelled.regime.value[last],
      th.stress,
      th.extreme))
  }

  /**
   * `compute_one`: derive the features and the score, then finish on the
   * derived frame.
   */
  function ComputeOne(symbol: string, merged: Frame, s: Settings, ln: real -> real, sqrt: real -> real): (r: Result<Computed>)
    requires merged.Valid() && HasMarketColumns(merged) && merged.regime.None? && SettingsOk(s)
    ensures var f := Featurize(merged, s, ln, sqrt);
      r.Err? <==> |CompleteRows(f, f.rows)| == 0
    ensures r.Ok? ==> r.value.snap.symbol == symbol && Consistent(r.value.snap)
  {
    Finish(symbol, Featurize(merged, s, ln, sqrt), s, sqrt)
  }

  /**
   * The rest of `compute_one` on the derived frame `f`: drop every row with
   * an undefined cell, estimate the thresholds with the routed mode, label
   * the rows and report the last one. With no complete row left, reading
   * the last row fails.
   */
  function Finish(symbol: string, f: Frame, s: Settings, sqrt: real -> real): (r: Result<Computed>)
    requires f.Valid() && HasMarketColumns(f) && Clp in f.cols && SettingsOk(s)
    ensures r.Err? <==> |CompleteRows(f, f.rows)| == 0
    ensures r.Ok? ==> r.value.snap.symbol == symbol && Consistent(r.value.snap)
    ensures r.Ok? ==> AllCellsDefined(DropIncomplete(f)) && DropIncomplete(f).rows > 0
    ensures r.Ok? ==> r.value == Report(symbol, DropIncomplete(f), PipelineThresholds(DropIncomplete(f), s, sqrt))
  {
    var d := DropIncomplete(f);
    assert AllCellsDefined(d);
    if d.rows == 0 then Err("single positional indexer is out-of-bounds")
    else Ok(Report(symbol, d, PipelineThresholds(d, s, sqrt)))
  }

  /**
   * The frame `compute_one` returns holds exactly the complete rows of the
   * derived frame, each labelled against the thresholds reported in the
   * snapshot, and the snapshot's label is the label of its last row.
   */
  lemma ComputeOneFrame(symbol: string, f: Frame, s: Settings, sqrt: real -> real, out: Computed)
    requires f.Valid() && HasMarketColumns(f) && Clp in f.cols && SettingsOk(s)
    requires Finish(symbol, f, s, sqrt) == Ok(out)
    ensures out.frame.Valid() && out.frame.rows == |CompleteRows(f, f.rows)| > 0
    ensures out.frame.cols == DropIncomplete(f).cols && AllCellsDefined(out.frame)
    ensures out.frame.regime.Some? && |out.frame.regime.value| == out.frame.rows
    ensures forall i :: 0 <= i < out.frame.rows ==>
      out.frame.regime.value[i] == Classify(out.frame.cols[Clp][i], Thresholds(out.snap.stressThr, out.snap.extremeThr))
    ensures out.snap.regime == out.frame.regime.value[out.frame.rows - 1]
  {
    var d := DropIncomplete(f);
    var th := PipelineThresholds(d, s, sqrt);
    assert out == Report(symbol, d, th);
    assert out.frame.cols == d.cols && out.frame.rows == d.rows;
  }

  /** Position of the latest complete row. */
  function LatestComplete(f: Frame): (t: nat)
    requires f.Valid() && |CompleteRows(f, f.rows)| > 0
    ensures t < f.rows && RowComplete(f, t)
    ensures forall u :: t < u < f.rows ==> !RowComplete(f, u)
  {
    LastCompleteRow(f);
    CompleteRows(f, f.rows)[|CompleteRows(f, f.rows)| - 1]
  }

  /**
   * The snapshot reports the latest complete row of the derived frame: its
   * price, funding rate, open interest and score.
   */
  lemma ComputeOneReportsLastCompleteRow(symbol: string, f: Frame, s: Settings, sqrt: real -> real, out: Computed)
    requires f.Valid() && HasMarketColumns(f) && Clp in f.cols && SettingsOk(s)
    requires Finish(symbol, f, s, sqrt) == Ok(out)
    ensures |CompleteRows(f, f.rows)| > 0
    ensures Some(out.snap.clp) == f.cols[Clp][LatestComplete(f)]
    ensures Some(out.snap.price) == f.cols[Close][LatestComplete(f)]
    ensures Some(out.snap.funding) == f.cols[FundingRate][LatestComplete(f)]
    ensures Some(out.snap.oi) == f.cols[OpenInterest][LatestComplete(f)]
  {
    var d := DropIncomplete(f);
    assert d.cols[Clp][d.rows - 1] == f.cols[Clp][LatestComplete(f)];
    assert d.cols[Close][d.rows - 1] == f.cols[Close][LatestComplete(f)];
    assert d.cols[FundingRate][d.rows - 1] == f.cols[FundingRate][LatestComplete(f)];
    assert d.cols[OpenInterest][d.rows - 1] == f.cols[OpenInterest][LatestComplete(f)];
  }
}
