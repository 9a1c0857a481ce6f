/**
 * Feature extraction (src/features.py): log returns, absolute returns,
 * open-interest percentage change, and the trailing-window population
 * z-score. The natural logarithm and the square root are parameters; only
 * the square-root laws of `Stats.SqrtLaw` are assumed of the latter.
 */
module Features {
  import opened Stats
  import opened Frames

  /** `np.log(Close).diff()`: undefined in row 0 and wherever either price is undefined. */
  function LogReturns(close: seq<Option<real>>, ln: real -> real): (r: seq<Option<real>>)
    ensures |r| == |close|
  {
    seq(|close|, t requires 0 <= t < |close| =>
      if t > 0 && close[t].Some? && close[t - 1].Some?
      then Some(ln(close[t].value) - ln(close[t - 1].value))
      else None)
  }

  /** `ret.abs()`. */
  function AbsReturns(ret: seq<Option<real>>): (r: seq<Option<real>>)
    ensures |r| == |ret|
    ensures forall t :: 0 <= t < |r| ==>
      (r[t].Some? <==> ret[t].Some?) &&
      (r[t].Some? ==> r[t].value >= 0.0 && (r[t].value == ret[t].value || r[t].value == -ret[t].value))
  {
    seq(|ret|, t requires 0 <= t < |ret| => if ret[t].Some? then Some(Abs(ret[t].value)) else None)
  }

  /**
   * Over a stretch of defined prices, the log returns add up to the log of
   * the price ratio between its ends.
   */
  lemma LogReturnsTelescope(close: seq<Option<real>>, ln: real -> real, s: nat, t: nat)
    requires s <= t < |close|
    requires forall k :: s <= k <= t ==> close[k].Some?
    ensures AllDefined(LogReturns(close, ln)[s + 1..t + 1])
    ensures Sum(Values(LogReturns(close, ln)[s + 1..t + 1])) == ln(close[t].value) - ln(close[s].value)
  {
    var r := LogReturns(close, ln)[s + 1..t + 1];
    var lv := LnPrices(close, ln, s, t + 1 - s);
    LogReturnsAsDifferences(close, ln, s, t);
    Telescope(r, lv);
  }

  lemma LogReturnsAsDifferences(close: seq<Option<real>>, ln: real -> real, s: nat, t: nat)
    requires s <= t < |close|
    requires forall k :: s <= k <= t ==> close[k].Some?
    ensures var r := LogReturns(close, ln)[s + 1..t + 1];
      var lv := LnPrices(close, ln, s, t + 1 - s);
      && |lv| == |r| + 1
      && lv[t - s] == ln(close[t].value) && lv[0] == ln(close[s].value)
      && forall k :: 0 <= k < |r| ==> r[k] == Some(lv[k + 1] - lv[k])
  {
    var full := LogReturns(close, ln);
    var r := full[s + 1..t + 1];
    var lv := LnPrices(close, ln, s, t + 1 - s);
    forall k | 0 <= k < |r| ensures r[k] == Some(lv[k + 1] - lv[k]) {
      var u := s + 1 + k;
      assert r[k] == full[u];
      LogReturnAt(close, ln, u);
    }
  }

  /** ln of the `n` prices from row `s` on. */
  function LnPrices(close: seq<Option<real>>, ln: real -> real, s: nat, n: nat): (v: seq<real>)
    requires s + n <= |close| && forall k :: s <= k < s + n ==> close[k].Some?
    ensures |v| == n && forall k :: 0 <= k < n ==> v[k] == ln(close[s + k].value)
  {
    if n == 0 then [] else LnPrices(close, ln, s, n - 1) + [ln(close[s + n - 1].value)]
  }

  lemma LogReturnAt(close: seq<Option<real>>, ln: real -> real, u: nat)
    requires 0 < u < |close| && close[u].Some? && close[u - 1].Some?
    ensures LogReturns(close, ln)[u] == Some(ln(close[u].value) - ln(close[u - 1].value))
  {
  }

  /** Cells that are successive differences of `lv` add up to its last value minus its first. */
  lemma {:induction false} Telescope(r: seq<Option<real>>, lv: seq<real>)
    requires |lv| == |r| + 1
    requires forall k :: 0 <= k < |r| ==> r[k] == Some(lv[k + 1] - lv[k])
    ensures AllDefined(r)
    ensures Sum(Values(r)) == lv[|r|] - lv[0]
  {
    if |r| > 0 {
      var n := |r|;
      var front, last := r[..n - 1], lv[n] - lv[n - 1];
      assert forall k :: 0 <= k < |front| ==> front[k] == Some(lv[..n][k + 1] - lv[..n][k]);
      Telescope(front, lv[..n]);
      assert r == front + [Some(last)];
      ValuesAppendDefined(front, Some(last));
      SumAppend(Values(front), [last]);
      assert Sum([last]) == last;
    }
  }

  lemma ValuesAppendDefined(a: seq<Option<real>>, x: Option<real>)
    requires AllDefined(a) && x.Some?
    ensures AllDefined(a + [x])
    ensures Values(a + [x]) == Values(a) + [x.value]
  {
    var l := a + [x];
    assert |Values(l)| == |l|;
  }

  /** `add_returns`: adds `ret` and `abs_ret` and nothing else. */
  function AddReturns(df: Frame, ln: real -> real): (r: Frame)
    requires df.Valid() && Close in df.cols
    ensures r.Valid() && KeepsOtherColumns(df, r, {Ret, AbsRet})
    ensures r.cols[Ret] == LogReturns(df.cols[Close], ln)
    ensures r.cols[AbsRet] == AbsReturns(r.cols[Ret])
  {
    var ret := LogReturns(df.cols[Close], ln);
    df.WithColumn(Ret, ret).WithColumn(AbsRet, AbsReturns(ret))
  }

  /**
   * `openInterest.pct_change()`: undefined in row 0, wherever either value
   * is undefined, and where the previous value is zero.
   */
  function OiChange(oi: seq<Option<real>>): (r: seq<Option<real>>)
    ensures |r| == |oi|
    ensures |r| > 0 ==> r[0] == None
    ensures forall t :: 0 < t < |r| ==>
      (r[t].Some? <==> oi[t].Some? && oi[t - 1].Some? && oi[t - 1].value != 0.0)
  {
    seq(|oi|, t requires 0 <= t < |oi| =>
      if t > 0 && oi[t].Some? && oi[t - 1].Some? && oi[t - 1].value != 0.0
      then Some((oi[t].value - oi[t - 1].value) / oi[t - 1].value)
      else None)
  }

  /** A defined change rebuilds the current value from the previous one: oi[t] = oi[t-1] * (1 + chg[t]). */
  lemma OiChangeRoundTrip(oi: seq<Option<real>>, t: nat)
    requires 0 < t < |oi| && OiChange(oi)[t].Some?
    ensures oi[t].value == oi[t - 1].value * (1.0 + OiChange(oi)[t].value)
  {
    var a, b := oi[t].value, oi[t - 1].value;
    var c := OiChange(oi)[t].value;
    assert c == (a - b) / b;
    assert b * c == a - b;
  }

  /** `add_oi_change`: adds `oi_chg_pct` and nothing else. */
  function AddOiChange(df: Frame): (r: Frame)
    requires df.Valid() && OpenInterest in df.cols
    ensures r.Valid() && KeepsOtherColumns(df, r, {OiChgPct})
    ensures r.cols[OiChgPct] == OiChange(df.cols[OpenInterest])
  {
    df.WithColumn(OiChgPct, OiChange(df.cols[OpenInterest]))
  }

  /** The `w` cells ending at row `t`. */
  function Window(x: seq<Option<real>>, w: nat, t: nat): (win: seq<Option<real>>)
    requires 0 < w <= t + 1 <= |x|
    ensures |win| == w && win[w - 1] == x[t]
  {
    x[t + 1 - w..t + 1]
  }

  /**
   * One cell of `(s - s.rolling(w).mean()) / s.rolling(w).std(ddof=0)`:
   * undefined without a full window of defined values, and undefined where
   * the window's standard deviation is zero (0 / 0 in the source).
   */
  function ZScoreAt(x: seq<Option<real>>, w: nat, t: nat, sqrt: real -> real): Option<real>
    requires 0 < w && t < |x|
  {
    if t + 1 < w then None
    else
      var win := Window(x, w, t);
      if !AllDefined(win) then None
      else
        var v := Values(win);
        var sd := PopStd(v, sqrt);
        if sd == 0.0 then None else Some((x[t].value - Mean(v)) / sd)
  }

  /** `rolling_zscore`: one cell per row. */
  function RollingZScore(x: seq<Option<real>>, w: nat, sqrt: real -> real): (z: seq<Option<real>>)
    requires w > 0
    ensures |z| == |x|
    ensures forall t :: 0 <= t < |x| ==> z[t] == ZScoreAt(x, w, t, sqrt)
  {
    seq(|x|, t requires 0 <= t < |x| => ZScoreAt(x, w, t, sqrt))
  }

  /**
   * A z-score is defined exactly when the row has a full trailing window,
   * every value in it is defined, and the values are not all equal.
   */
  lemma ZScoreDefinedIff(x: seq<Option<real>>, w: nat, t: nat, sqrt: real -> real)
    requires 0 < w && t < |x| && SqrtLaw(sqrt)
    ensures ZScoreAt(x, w, t, sqrt).Some? <==>
      w <= t + 1 && AllDefined(Window(x, w, t)) && !Constant(Values(Window(x, w, t)))
  {
    if w <= t + 1 && AllDefined(Window(x, w, t)) {
      StdZeroIffConstant(Values(Window(x, w, t)), sqrt);
    }
  }

  /** With fewer rows than the window, the whole z-score column is undefined. */
  lemma ZScoreShortSeries(x: seq<Option<real>>, w: nat, sqrt: real -> real)
    requires 0 < w && |x| < w
    ensures forall t :: 0 <= t < |x| ==> RollingZScore(x, w, sqrt)[t] == None
  {
  }

  /** A defined z-score has the sign of the row's deviation from the window mean. */
  lemma ZScoreSign(x: seq<Option<real>>, w: nat, t: nat, sqrt: real -> real)
    requires 0 < w && t < |x| && SqrtLaw(sqrt)
    requires ZScoreAt(x, w, t, sqrt).Some?
    ensures var m := Mean(Values(Window(x, w, t)));
      && x[t].Some?
      && (ZScoreAt(x, w, t, sqrt).value > 0.0 <==> x[t].value > m)
      && (ZScoreAt(x, w, t, sqrt).value < 0.0 <==> x[t].value < m)
  {
    var v := Values(Window(x, w, t));
    StdZeroIffConstant(v, sqrt);
    var sd := PopStd(v, sqrt);
    var d := x[t].value - Mean(v);
    assert sd > 0.0;
    QuotientSign(d, sd);
  }

  lemma QuotientSign(d: real, sd: real)
    requires sd > 0.0
    ensures d / sd > 0.0 <==> d > 0.0
    ensures d / sd < 0.0 <==> d < 0.0
  {
  }

  /** A defined z-score undoes to the row's value: x[t] = mean + z * sd. */
  lemma ZScoreRoundTrip(x: seq<Option<real>>, w: nat, t: nat, sqrt: real -> real)
    requires 0 < w && t < |x|
    requires ZScoreAt(x, w, t, sqrt).Some?
    ensures var v := Values(Window(x, w, t));
      x[t].Some? && x[t].value == Mean(v) + ZScoreAt(x, w, t, sqrt).value * PopStd(v, sqrt)
  {
    var v := Values(Window(x, w, t));
    var sd := PopStd(v, sqrt);
    assert sd != 0.0 && ZScoreAt(x, w, t, sqrt) == Some((x[t].value - Mean(v)) / sd);
    QuotientTimes(x[t].value - Mean(v), sd);
  }

  lemma QuotientTimes(d: real, sd: real)
    requires sd != 0.0
    ensures (d / sd) * sd == d
  {
  }

  /** `add_zscores`: adds `z_funding`, `z_oi` and `z_absret`, all with the same window, and nothing else. */
  function AddZScores(df: Frame, zwin: nat, sqrt: real -> real): (r: Frame)
    requires df.Valid() && zwin > 0
    requires FundingRate in df.cols && OiChgPct in df.cols && AbsRet in df.cols
    ensures r.Valid() && KeepsOtherColumns(df, r, {ZFunding, ZOi, ZAbsret})
    ensures r.cols[ZFunding] == RollingZScore(df.cols[FundingRate], zwin, sqrt)
    ensures r.cols[ZOi] == RollingZScore(df.cols[OiChgPct], zwin, sqrt)
    ensures r.cols[ZAbsret] == RollingZScore(df.cols[AbsRet], zwin, sqrt)
  {
    df.WithColumn(ZFunding, RollingZScore(df.cols[FundingRate], zwin, sqrt))
      .WithColumn(ZOi, RollingZScore(df.cols[OiChgPct], zwin, sqrt))
      .WithColumn(ZAbsret, RollingZScore(df.cols[AbsRet], zwin, sqrt))
  }
}
