/**
 * Temporal insights over the regime column (src/insights.py): the length
 * of the current run of equal labels, and the share of a trailing window
 * spent in each label.
 */
module Insights {
  import opened Stats
  import opened Sorting
  import opened Frames

  /**
   * `current_regime_streak`: the last label and how many rows in a row,
   * counting back from the end, carry it; ("NA", 0) without labels.
   */
  method CurrentRegimeStreak(df: Frame) returns (current: string, bars: nat)
    requires df.Valid()
    ensures df.rows == 0 || df.regime.None? ==> current == "NA" && bars == 0
    ensures df.rows > 0 && df.regime.Some? ==>
      var r := df.regime.value;
      var n := |r|;
      && current == RegimeName(r[n - 1])
      && 1 <= bars <= n
      && (forall i :: n - bars <= i < n ==> r[i] == r[n - 1])
      && (bars < n ==> r[n - 1 - bars] != r[n - 1])
  {
    if df.rows == 0 || df.regime.None? {
      return "NA", 0;
    }
    var r := df.regime.value;
    var cur := r[|r| - 1];
    current := RegimeName(cur);
    bars := 1;
    var i: int := |r| - 2;
    while i >= 0
      invariant -1 <= i <= |r| - 2
      invariant bars == |r| - 1 - i
      invariant forall j :: i < j < |r| ==> r[j] == cur
      decreases i
    {
      if r[i] == cur {
        bars := bars + 1;
      } else {
        break;
      }
      i := i - 1;
    }
  }

  /**
   * `DataFrame.tail(lookback)`: the last `lookback` rows (all of them if
   * there are fewer); a negative argument drops that many rows from the
   * front instead.
   */
  function Tail<T>(s: seq<T>, lookback: int): (w: seq<T>)
    ensures |w| <= |s| && w == s[|s| - |w|..]
    ensures lookback >= 0 ==> |w| == if lookback < |s| then lookback else |s|
    ensures lookback < 0 ==> |w| == if -lookback < |s| then |s| + lookback else 0
  {
    if lookback >= 0 then
      (if lookback < |s| then s[|s| - lookback..] else s)
    else
      (if -lookback < |s| then s[-lookback..] else [])
  }

  /** A label with the number of rows that carry it. */
  type Tallied = (Regime, nat)

  function CountOf(p: Tallied): real {
    p.1 as real
  }

  /** Sort key for descending counts. */
  function NegatedCount(p: Tallied): real {
    -(p.1 as real)
  }

  function KeepPresent(p: Tallied): seq<Tallied> {
    if p.1 > 0 then [p] else []
  }

  /** `value_counts`: every label that occurs in `w`, with its count. */
  function Tally(w: seq<Regime>): (t: seq<Tallied>)
    ensures forall p :: p in t ==> p.1 == multiset(w)[p.0] && p.1 > 0
  {
    var m := multiset(w);
    KeepPresent((Normal, m[Normal])) + KeepPresent((Stress, m[Stress])) + KeepPresent((Extreme, m[Extreme]))
  }

  datatype ShareRow = ShareRow(regime: Regime, count: nat, pct: real)

  function RowCount(row: ShareRow): real {
    row.count as real
  }

  function RowPct(row: ShareRow): real {
    row.pct
  }

  /** Percentage of `total` rows for each tallied label. */
  function ShareRows(ps: seq<Tallied>, total: nat): (rows: seq<ShareRow>)
    requires total > 0
    ensures |rows| == |ps|
    ensures forall i :: 0 <= i < |ps| ==>
      rows[i] == ShareRow(ps[i].0, ps[i].1, ps[i].1 as real / total as real * 100.0)
  {
    if |ps| == 0 then []
    else [ShareRow(ps[0].0, ps[0].1, ps[0].1 as real / total as real * 100.0)] + ShareRows(ps[1..], total)
  }

  /** The rows `regime_time_share` counts: the last `lookback` labels. */
  function ShareWindow(df: Frame, lookback: int): seq<Regime>
    requires df.regime.Some?
  {
    Tail(df.regime.value, lookback)
  }

  /**
   * `regime_time_share`: one row per label present in the window, most
   * frequent first, with its count and its percentage of the window; an
   * empty table without labels.
   */
  function RegimeTimeShare(df: Frame, lookback: int): (rows: seq<ShareRow>)
    ensures df.rows == 0 || df.regime.None? ==> rows == []
  {
    if df.rows == 0 || df.regime.None? then [] else ShareOf(ShareWindow(df, lookback))
  }

  /** The table for the labels of one window. */
  function ShareOf(w: seq<Regime>): seq<ShareRow> {
    if |w| == 0 then [] else ShareRows(SortBy(Tally(w), NegatedCount), |w|)
  }

  lemma {:induction false} CountsCoverWindow(w: seq<Regime>)
    ensures multiset(w)[Normal] + multiset(w)[Stress] + multiset(w)[Extreme] == |w|
  {
    if |w| > 0 {
      var k := |w| - 1;
      assert w == w[..k] + [w[k]];
      assert multiset(w) == multiset(w[..k]) + multiset{w[k]};
      CountsCoverWindow(w[..k]);
      match w[k]
      case Normal =>
      case Stress =>
      case Extreme =>
    }
  }

  lemma TallySum(w: seq<Regime>)
    ensures SumBy(Tally(w), CountOf) == |w| as real
  {
    var m := multiset(w);
    var a, b, c := KeepPresent((Normal, m[Normal])), KeepPresent((Stress, m[Stress])), KeepPresent((Extreme, m[Extreme]));
    SumByAppend(a + b, c, CountOf);
    SumByAppend(a, b, CountOf);
    CountsCoverWindow(w);
  }

  lemma {:induction false} ShareRowsSums(ps: seq<Tallied>, total: nat)
    requires total > 0
    ensures SumBy(ShareRows(ps, total), RowCount) == SumBy(ps, CountOf)
    ensures SumBy(ShareRows(ps, total), RowPct) == SumBy(ps, CountOf) / total as real * 100.0
  {
    if |ps| > 0 {
      ShareRowsSums(ps[1..], total);
      PercentAdd(CountOf(ps[0]), SumBy(ps[1..], CountOf), total as real);
    }
  }

  lemma PercentAdd(a: real, b: real, t: real)
    requires t > 0.0
    ensures a / t * 100.0 + b / t * 100.0 == (a + b) / t * 100.0
  {
  }

  lemma WholeIsHundredPercent(t: real)
    requires t > 0.0
    ensures t / t * 100.0 == 100.0
  {
  }

  /** The counts add up to the window length and the percentages to 100. */
  lemma ShareTotals(w: seq<Regime>)
    ensures SumBy(ShareOf(w), RowCount) == |w| as real
    ensures |w| > 0 ==> SumBy(ShareOf(w), RowPct) == 100.0
  {
    if |w| > 0 {
      var sorted := SortBy(Tally(w), NegatedCount);
      ShareRowsSums(sorted, |w|);
      SumByPermutation(sorted, Tally(w), CountOf);
      TallySum(w);
      WholeIsHundredPercent(|w| as real);
    }
  }

  lemma TallyDistinct(w: seq<Regime>)
    ensures NoDuplicates(Tally(w))
  {
  }

  lemma {:induction false} SortedTallyFromWindow(w: seq<Regime>)
    ensures forall p :: p in SortBy(Tally(w), NegatedCount) ==> p.1 == multiset(w)[p.0] && p.1 > 0
  {
    var t := Tally(w);
    var sorted := SortBy(t, NegatedCount);
    forall p | p in sorted ensures p.1 == multiset(w)[p.0] && p.1 > 0 {
      assert p in multiset(sorted);
      assert p in t;
    }
  }

  /** Each row is a label present in the window, with its exact count and percentage. */
  lemma ShareRowsCount(w: seq<Regime>)
    ensures forall i :: 0 <= i < |ShareOf(w)| ==>
      var row := ShareOf(w)[i];
      row.count == multiset(w)[row.regime] && row.count > 0 &&
      row.pct == row.count as real / |w| as real * 100.0
  {
    if |w| > 0 {
      var sorted := SortBy(Tally(w), NegatedCount);
      SortedTallyFromWindow(w);
      forall i | 0 <= i < |sorted| ensures sorted[i] in sorted {
      }
    }
  }

  /** No label appears twice. */
  lemma ShareRowsDistinct(w: seq<Regime>)
    ensures forall i, j :: 0 <= i < j < |ShareOf(w)| ==> ShareOf(w)[i].regime != ShareOf(w)[j].regime
  {
    if |w| > 0 {
      var t := Tally(w);
      var sorted := SortBy(t, NegatedCount);
      TallyDistinct(w);
      NoDuplicatesPermutation(t, sorted);
      SortedTallyFromWindow(w);
      forall i, j | 0 <= i < j < |sorted| ensures sorted[i].0 != sorted[j].0 {
        assert sorted[i] in sorted && sorted[j] in sorted;
      }
    }
  }

  lemma TallyHasPresent(w: seq<Regime>, g: Regime)
    requires g in w
    ensures (g, multiset(w)[g]) in Tally(w)
  {
    assert multiset(w)[g] > 0;
  }

  /** Every label that occurs in the window has a row. */
  lemma ShareRowsComplete(w: seq<Regime>)
    ensures forall g :: g in w ==> exists i :: 0 <= i < |ShareOf(w)| && ShareOf(w)[i].regime == g
  {
    if |w| > 0 {
      var t := Tally(w);
      var sorted := SortBy(t, NegatedCount);
      var rows := ShareRows(sorted, |w|);
      assert ShareOf(w) == rows;
      forall g | g in w ensures exists i :: 0 <= i < |rows| && rows[i].regime == g {
        var p := (g, multiset(w)[g]);
        TallyHasPresent(w, g);
        assert p in multiset(sorted);
        var i :| 0 <= i < |sorted| && sorted[i] == p;
        assert rows[i].regime == g;
      }
    }
  }

  /** The most frequent label comes first: counts never increase down the table. */
  lemma ShareRowsDescending(w: seq<Regime>)
    ensures forall i, j :: 0 <= i < j < |ShareOf(w)| ==> ShareOf(w)[i].count >= ShareOf(w)[j].count
  {
    if |w| > 0 {
      var sorted := SortBy(Tally(w), NegatedCount);
      forall i, j | 0 <= i < j < |sorted| ensures sorted[i].1 >= sorted[j].1 {
        assert NegatedCount(sorted[i]) <= NegatedCount(sorted[j]);
      }
    }
  }
}
