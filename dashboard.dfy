/**
 * The dashboard refresh of app.py around `compute_one`: one entry per
 * watched symbol with failures isolated, the ranked watch table, the stress
 * and extreme flags with the banner they select, the regime-flip tracker
 * kept across refreshes, and the top contributor of the focus symbol.
 */
module Dashboard {
  import opened Stats
  import opened Sorting
  import opened Frames
  import opened Scoring
  import opened Pipeline

  /** One element of `snapshots`: a computed snapshot, or the symbol with its error text. */
  datatype Entry = Loaded(snap: Snapshot) | Failed(symbol: string, error: string)

  function EntrySymbol(e: Entry): string {
    match e
    case Loaded(snap) => snap.symbol
    case Failed(sym, _) => sym
  }

  /** What the market-data merge delivers: aligned columns, the market ones included, and no labels yet. */
  predicate Merged(df: Frame) {
    df.Valid() && HasMarketColumns(df) && df.regime.None?
  }

  ghost predicate DownloadsMerged(download: string -> Result<Frame>) {
    forall sym :: download(sym).Ok? ==> Merged(download(sym).value)
  }

  /**
   * `compute_one` for one symbol, the download included: a failed download
   * and a failed computation both end in the error text.
   */
  function Outcome(sym: string, download: string -> Result<Frame>, s: Settings, ln: real -> real, sqrt: real -> real): (r: Result<Computed>)
    requires SettingsOk(s) && (download(sym).Ok? ==> Merged(download(sym).value))
    ensures download(sym).Err? ==> r == Err(download(sym).msg)
    ensures r.Ok? ==> r.value.snap.symbol == sym && Consistent(r.value.snap)
  {
    match download(sym)
    case Err(e) => Err(e)
    case Ok(merged) => ComputeOne(sym, merged, s, ln, sqrt)
  }

  function EntryFor(sym: string, r: Result<Computed>): Entry {
    match r
    case Ok(c) => Loaded(c.snap)
    case Err(e) => Failed(sym, e)
  }

  /** `compute_one` reports the symbol it was asked for. */
  ghost predicate NamesItsSymbol(compute: string -> Result<Computed>) {
    forall sym :: compute(sym).Ok? ==> compute(sym).value.snap.symbol == sym
  }

  /** The dashboard's per-symbol computation names its symbol. */
  lemma OutcomeNamesItsSymbol(download: string -> Result<Frame>, s: Settings, ln: real -> real, sqrt: real -> real)
    requires SettingsOk(s) && DownloadsMerged(download)
    ensures NamesItsSymbol(sym => Outcome(sym, download, s, ln, sqrt))
  {
    forall sym | Outcome(sym, download, s, ln, sqrt).Ok?
      ensures Outcome(sym, download, s, ln, sqrt).value.snap.symbol == sym
    {
    }
  }

  /**
   * The refresh loop over the watchlist, `compute` standing for
   * `compute_one` with the sidebar settings: exactly one entry per symbol,
   * in watchlist order, each depending on that symbol's own outcome only,
   * so a failure never stops the symbols after it; `frames` holds the frame
   * of every symbol that loaded.
   */
  method CollectSnapshots(symbols: seq<string>, compute: string -> Result<Computed>)
    returns (snapshots: seq<Entry>, frames: map<string, Frame>)
    requires NamesItsSymbol(compute)
    ensures |snapshots| == |symbols|
    ensures forall i :: 0 <= i < |symbols| ==> EntrySymbol(snapshots[i]) == symbols[i]
    ensures forall i :: 0 <= i < |symbols| ==> (snapshots[i].Loaded? <==> compute(symbols[i]).Ok?)
    ensures forall i :: 0 <= i < |symbols| && snapshots[i].Loaded? ==> snapshots[i].snap == compute(symbols[i]).value.snap
    ensures forall i :: 0 <= i < |symbols| && snapshots[i].Failed? ==> snapshots[i].error == compute(symbols[i]).msg
    ensures forall sym :: sym in frames <==> sym in symbols && compute(sym).Ok?
    ensures forall sym :: sym in frames ==> frames[sym] == compute(sym).value.frame
  {
    snapshots := [];
    frames := map[];
    var i := 0;
    while i < |symbols|
      invariant 0 <= i <= |symbols|
      invariant |snapshots| == i
      invariant forall k :: 0 <= k < i ==> snapshots[k] == EntryFor(symbols[k], compute(symbols[k]))
      invariant forall sym :: sym in frames <==> sym in symbols[..i] && compute(sym).Ok?
      invariant forall sym :: sym in frames ==> frames[sym] == compute(sym).value.frame
    {
      var sym := symbols[i];
      var r := compute(sym);
      if r.Ok? {
        frames := frames[sym := r.value.frame];
        snapshots := snapshots + [Loaded(r.value.snap)];
      } else {
        snapshots := snapshots + [Failed(sym, r.msg)];
      }
      assert symbols[..i + 1] == symbols[..i] + [sym];
      i := i + 1;
    }
    assert symbols[..i] == symbols;
  }

  /** The snapshots that loaded: the watch table without the failed symbols. */
  function LoadedSnapshots(entries: seq<Entry>): (good: seq<Snapshot>)
    ensures |good| <= |entries|
    ensures forall g :: g in good <==> Loaded(g) in entries
  {
    if |entries| == 0 then []
    else
      assert entries == [entries[0]] + entries[1..];
      (if entries[0].Loaded? then [entries[0].snap] else []) + LoadedSnapshots(entries[1..])
  }

  /** Each loaded snapshot appears in the table as many times as among the entries. */
  lemma {:induction false} LoadedCount(entries: seq<Entry>)
    ensures forall g :: multiset(LoadedSnapshots(entries))[g] == multiset(entries)[Loaded(g)]
  {
    if |entries| > 0 {
      LoadedCount(entries[1..]);
      assert entries == [entries[0]] + entries[1..];
    }
  }

  /**
   * The early exit of the dashboard: the table is empty, or no entry
   * brought a `clp` column, which happens exactly when nothing loaded.
   */
  function NoValidData(entries: seq<Entry>): (stop: bool)
    ensures stop <==> |LoadedSnapshots(entries)| == 0
  {
    var hasClp := exists i :: 0 <= i < |entries| && entries[i].Loaded?;
    SomeLoaded(entries);
    |entries| == 0 || !hasClp
  }

  lemma SomeLoaded(entries: seq<Entry>)
    ensures |LoadedSnapshots(entries)| > 0 <==> exists i :: 0 <= i < |entries| && entries[i].Loaded?
  {
    if exists i :: 0 <= i < |entries| && entries[i].Loaded? {
      var i :| 0 <= i < |entries| && entries[i].Loaded?;
      assert entries[i] == Loaded(entries[i].snap);
      assert entries[i].snap in LoadedSnapshots(entries);
    }
    if |LoadedSnapshots(entries)| > 0 {
      assert Loaded(LoadedSnapshots(entries)[0]) in entries;
    }
  }

  /** Sort key for descending scores. */
  function NegatedClp(g: Snapshot): real {
    -g.clp
  }

  datatype RankedRow = RankedRow(rank: nat, snap: Snapshot)

  function Numbered(sorted: seq<Snapshot>, first: nat): (rows: seq<RankedRow>)
    ensures |rows| == |sorted|
    ensures forall i :: 0 <= i < |sorted| ==> rows[i] == RankedRow(first + i, sorted[i])
  {
    if |sorted| == 0 then [] else [RankedRow(first, sorted[0])] + Numbered(sorted[1..], first + 1)
  }

  /** The snapshots of a ranked table, top to bottom. */
  function Unranked(rows: seq<RankedRow>): (snaps: seq<Snapshot>)
    ensures |snaps| == |rows| && forall i :: 0 <= i < |rows| ==> snaps[i] == rows[i].snap
  {
    if |rows| == 0 then [] else [rows[0].snap] + Unranked(rows[1..])
  }

  /** `sort_values("clp", ascending=False)` followed by the rank column 1..n. */
  function Ranking(good: seq<Snapshot>): seq<RankedRow> {
    Numbered(SortBy(good, NegatedClp), 1)
  }

  /**
   * The ranked table lists every loaded snapshot exactly once, scores never
   * increase down the table, and the ranks are 1..n in that order.
   */
  lemma RankingOrdered(good: seq<Snapshot>)
    ensures |Ranking(good)| == |good|
    ensures multiset(Unranked(Ranking(good))) == multiset(good)
    ensures forall i :: 0 <= i < |good| ==> Ranking(good)[i].rank == i + 1
    ensures forall i, j :: 0 <= i < j < |good| ==> Ranking(good)[i].snap.clp >= Ranking(good)[j].snap.clp
  {
    var sorted := SortBy(good, NegatedClp);
    assert Unranked(Ranking(good)) == sorted;
    forall i, j | 0 <= i < j < |good| ensures Ranking(good)[i].snap.clp >= Ranking(good)[j].snap.clp {
      assert NegatedClp(sorted[i]) <= NegatedClp(sorted[j]);
    }
  }

  /** `good[good["clp"] > good["extreme_thr"]]`. */
  function ExtremeRows(good: seq<Snapshot>): (e: seq<Snapshot>)
    ensures |e| <= |good|
    ensures forall g :: g in e <==> g in good && g.clp > g.extremeThr
  {
    if |good| == 0 then []
    else
      assert good == [good[0]] + good[1..];
      (if good[0].clp > good[0].extremeThr then [good[0]] else []) + ExtremeRows(good[1..])
  }

  /** `good[(good["clp"] > good["stress_thr"]) & (good["clp"] <= good["extreme_thr"])]`. */
  function StressRows(good: seq<Snapshot>): (st: seq<Snapshot>)
    ensures |st| <= |good|
    ensures forall g :: g in st <==> g in good && g.stressThr < g.clp <= g.extremeThr
  {
    if |good| == 0 then []
    else
      assert good == [good[0]] + good[1..];
      (if good[0].stressThr < good[0].clp <= good[0].extremeThr then [good[0]] else []) + StressRows(good[1..])
  }

  /** The rows in neither flag set: at or below both thresholds. */
  function CalmRows(good: seq<Snapshot>): (c: seq<Snapshot>)
    ensures |c| <= |good|
    ensures forall g :: g in c <==> g in good && g.clp <= g.stressThr && g.clp <= g.extremeThr
  {
    if |good| == 0 then []
    else
      assert good == [good[0]] + good[1..];
      (if good[0].clp <= good[0].stressThr && good[0].clp <= good[0].extremeThr then [good[0]] else [])
        + CalmRows(good[1..])
  }

  /** Every loaded row lands in exactly one of the extreme, stress and calm sets. */
  lemma {:induction false} FlagPartition(good: seq<Snapshot>)
    ensures |ExtremeRows(good)| + |StressRows(good)| + |CalmRows(good)| == |good|
    ensures forall g :: g in good ==> (g in ExtremeRows(good)) != (g in StressRows(good) || g in CalmRows(good))
    ensures forall g :: !(g in StressRows(good) && g in CalmRows(good))
  {
    if |good| > 0 {
      FlagPartition(good[1..]);
    }
  }

  /** The flags agree with the snapshot labels: Extreme rows are flagged extreme, Stress rows stress. */
  lemma FlagsMatchRegime(good: seq<Snapshot>)
    requires forall g :: g in good ==> Consistent(g)
    ensures forall g :: g in ExtremeRows(good) <==> g in good && g.regime == Extreme
    ensures forall g :: g in StressRows(good) <==> g in good && g.regime == Stress
    ensures forall g :: g in CalmRows(good) <==> g in good && g.regime == Normal
  {
    forall g | g in good
      ensures g.regime == Classify(Some(g.clp), Thresholds(g.stressThr, g.extremeThr))
    {
      assert Consistent(g);
    }
  }

  function Symbols(rows: seq<Snapshot>): (syms: seq<string>)
    ensures |syms| == |rows| && forall i :: 0 <= i < |rows| ==> syms[i] == rows[i].symbol
  {
    if |rows| == 0 then [] else [rows[0].symbol] + Symbols(rows[1..])
  }

  /** The message above the table: the extreme alert wins over the stress warning. */
  datatype Banner = ExtremeAlert(symbols: seq<string>) | StressAlert(symbols: seq<string>) | AllClear

  function BannerFor(good: seq<Snapshot>): (b: Banner)
    ensures b.ExtremeAlert? <==> exists g :: g in good && g.clp > g.extremeThr
    ensures b.StressAlert? <==>
      (forall g :: g in good ==> g.clp <= g.extremeThr) && exists g :: g in good && g.stressThr < g.clp <= g.extremeThr
    ensures b.AllClear? <==> forall g :: g in good ==> g.clp <= g.stressThr && g.clp <= g.extremeThr
    ensures b.ExtremeAlert? ==> b.symbols == Symbols(ExtremeRows(good))
    ensures b.StressAlert? ==> b.symbols == Symbols(StressRows(good))
  {
    var e := ExtremeRows(good);
    var st := StressRows(good);
    assert |e| > 0 ==> e[0] in e;
    assert |st| > 0 ==> st[0] in st;
    if |e| > 0 then ExtremeAlert(Symbols(e))
    else if |st| > 0 then StressAlert(Symbols(st))
    else AllClear
  }

  /** `f"{sym}: {prev} → {cur}"`. */
  function FlipMessage(sym: string, prev: Regime, cur: Regime): string {
    sym + ": " + RegimeName(prev) + " → " + RegimeName(cur)
  }

  /** The message one row adds: only when a previous label exists and differs. */
  function FlipAt(m: map<string, Regime>, row: Snapshot): seq<string> {
    if row.symbol in m && m[row.symbol] != row.regime
    then [FlipMessage(row.symbol, m[row.symbol], row.regime)]
    else []
  }

  /** `prev_regimes` after the loop over `rows`. */
  function After(m: map<string, Regime>, rows: seq<Snapshot>): map<string, Regime> {
    if |rows| == 0 then m
    else
      var last := rows[|rows| - 1];
      After(m, rows[..|rows| - 1])[last.symbol := last.regime]
  }

  /** The `changes` of the loop over `rows`, each row compared with the map as updated so far. */
  function Flips(m: map<string, Regime>, rows: seq<Snapshot>): seq<string> {
    if |rows| == 0 then []
    else
      var init := rows[..|rows| - 1];
      Flips(m, init) + FlipAt(After(m, init), rows[|rows| - 1])
  }

  /**
   * The session state the refresh loop keeps between runs: the last label
   * seen per symbol, and the log of label changes, only ever appended to.
   */
  class RegimeTracker {
    var prevRegimes: map<string, Regime>
    var flipLog: seq<string>

    constructor()
      ensures prevRegimes == map[] && flipLog == []
    {
      prevRegimes := map[];
      flipLog := [];
    }

    /** The flip-detection loop over the ranked rows of one refresh. */
    method Observe(rows: seq<Snapshot>) returns (changes: seq<string>)
      modifies this
      ensures prevRegimes == After(old(prevRegimes), rows)
      ensures changes == Flips(old(prevRegimes), rows)
      ensures flipLog == old(flipLog) + changes
    {
      ghost var m0 := prevRegimes;
      changes := [];
      var i := 0;
      while i < |rows|
        invariant 0 <= i <= |rows|
        invariant prevRegimes == After(m0, rows[..i])
        invariant changes == Flips(m0, rows[..i])
        invariant flipLog == old(flipLog) + changes
      {
        var row := rows[i];
        assert rows[..i + 1][..i] == rows[..i] && rows[..i + 1][i] == row;
        assert After(m0, rows[..i + 1]) == prevRegimes[row.symbol := row.regime];
        assert Flips(m0, rows[..i + 1]) == changes + FlipAt(prevRegimes, row);
        if row.symbol in prevRegimes && prevRegimes[row.symbol] != row.regime {
          var msg := FlipMessage(row.symbol, prevRegimes[row.symbol], row.regime);
          changes := changes + [msg];
          flipLog := flipLog + [msg];
        }
        prevRegimes := prevRegimes[row.symbol := row.regime];
        i := i + 1;
      }
      assert rows[..i] == rows;
    }
  }

  /** After the loop, a symbol with no row keeps its previous entry, or stays absent. */
  lemma {:induction false} AfterUntouched(m: map<string, Regime>, rows: seq<Snapshot>, sym: string)
    requires forall i :: 0 <= i < |rows| ==> rows[i].symbol != sym
    ensures sym in After(m, rows) <==> sym in m
    ensures sym in m ==> After(m, rows)[sym] == m[sym]
  {
    if |rows| > 0 {
      var init := rows[..|rows| - 1];
      assert forall i :: 0 <= i < |init| ==> init[i] == rows[i];
      AfterUntouched(m, init, sym);
    }
  }

  /** After the loop, a symbol maps to the label of its last row. */
  lemma {:induction false} AfterLastRow(m: map<string, Regime>, rows: seq<Snapshot>, i: nat)
    requires i < |rows|
    requires forall j :: i < j < |rows| ==> rows[j].symbol != rows[i].symbol
    ensures rows[i].symbol in After(m, rows) && After(m, rows)[rows[i].symbol] == rows[i].regime
  {
    if i < |rows| - 1 {
      var init := rows[..|rows| - 1];
      assert forall j :: 0 <= j < |init| ==> init[j] == rows[j];
      AfterLastRow(m, init, i);
    }
  }

  predicate DistinctSymbols(rows: seq<Snapshot>) {
    forall i, j :: 0 <= i < j < |rows| ==> rows[i].symbol != rows[j].symbol
  }

  /** The messages of `rows`, each row compared with the map as it was before the loop. */
  function FlipsFrom(m: map<string, Regime>, rows: seq<Snapshot>): seq<string> {
    if |rows| == 0 then [] else FlipsFrom(m, rows[..|rows| - 1]) + FlipAt(m, rows[|rows| - 1])
  }

  /**
   * With each symbol watched once, the loop compares every row with the
   * label from the previous refresh: one message per symbol whose previous
   * label existed and differed, in table order.
   */
  lemma {:induction false} FlipsAgainstPreviousRefresh(m: map<string, Regime>, rows: seq<Snapshot>)
    requires DistinctSymbols(rows)
    ensures Flips(m, rows) == FlipsFrom(m, rows)
  {
    if |rows| > 0 {
      var init := rows[..|rows| - 1];
      var last := rows[|rows| - 1];
      assert DistinctSymbols(init);
      FlipsAgainstPreviousRefresh(m, init);
      forall i | 0 <= i < |init| ensures init[i].symbol != last.symbol {
        assert init[i] == rows[i];
      }
      AfterUntouched(m, init, last.symbol);
      assert FlipAt(After(m, init), last) == FlipAt(m, last);
    }
  }

  /** A refresh in which no label changed leaves the map as it was and logs nothing. */
  lemma {:induction false} StableRefresh(m: map<string, Regime>, rows: seq<Snapshot>)
    requires forall i :: 0 <= i < |rows| ==> rows[i].symbol in m && m[rows[i].symbol] == rows[i].regime
    ensures After(m, rows) == m && Flips(m, rows) == []
  {
    if |rows| > 0 {
      StableRefresh(m, rows[..|rows| - 1]);
    }
  }

  /** Repeating a refresh with the same labels logs nothing the second time. */
  lemma RepeatedRefreshLogsNothing(m: map<string, Regime>, rows: seq<Snapshot>)
    requires DistinctSymbols(rows)
    ensures Flips(After(m, rows), rows) == []
  {
    var m1 := After(m, rows);
    forall i | 0 <= i < |rows| ensures rows[i].symbol in m1 && m1[rows[i].symbol] == rows[i].regime {
      AfterLastRow(m, rows, i);
    }
    StableRefresh(m1, rows);
  }

  /**
   * The watch-table row of one entry as the dashboard builds it: dropping
   * the error column keeps a failed symbol's row, with an undefined score
   * and label.
   */
  datatype WatchRow = WatchRow(symbol: string, clp: Option<real>, regime: Option<Regime>)

  function WatchRows(entries: seq<Entry>): (rows: seq<WatchRow>)
    ensures |rows| == |entries|
    ensures forall i :: 0 <= i < |entries| ==> rows[i].symbol == EntrySymbol(entries[i])
    ensures forall i :: 0 <= i < |entries| ==> (rows[i].regime.Some? <==> entries[i].Loaded?)
    ensures forall i :: 0 <= i < |entries| && entries[i].Loaded? ==>
      rows[i].clp == Some(entries[i].snap.clp) && rows[i].regime == Some(entries[i].snap.regime)
    ensures forall i :: 0 <= i < |entries| && entries[i].Failed? ==> rows[i].clp == None
  {
    if |entries| == 0 then []
    else
      var e := entries[0];
      var row := if e.Loaded? then WatchRow(e.snap.symbol, Some(e.snap.clp), Some(e.snap.regime))
                 else WatchRow(e.symbol, None, None);
      [row] + WatchRows(entries[1..])
  }

  /** `str` of a label cell: an undefined label prints as "nan". */
  function LabelText(g: Option<Regime>): string {
    if g.Some? then RegimeName(g.value) else "nan"
  }

  /**
   * The flip test as written, on a row that may be undefined: NaN differs
   * from everything, itself included, so an undefined side always flips.
   */
  function FlipAtAsWritten(m: map<string, Option<Regime>>, row: WatchRow): seq<string> {
    if row.symbol in m && (m[row.symbol].None? || row.regime.None? || m[row.symbol] != row.regime)
    then [row.symbol + ": " + LabelText(m[row.symbol]) + " → " + LabelText(row.regime)]
    else []
  }

  function AfterAsWritten(m: map<string, Option<Regime>>, rows: seq<WatchRow>): map<string, Option<Regime>> {
    if |rows| == 0 then m
    else
      var last := rows[|rows| - 1];
      AfterAsWritten(m, rows[..|rows| - 1])[last.symbol := last.regime]
  }

  function FlipsAsWritten(m: map<string, Option<Regime>>, rows: seq<WatchRow>): seq<string> {
    if |rows| == 0 then []
    else
      var init := rows[..|rows| - 1];
      FlipsAsWritten(m, init) + FlipAtAsWritten(AfterAsWritten(m, init), rows[|rows| - 1])
  }

  /**
   * As written, a symbol that stays down logs label changes although no
   * label was computed: "Normal → nan" on the first failed refresh and
   * "nan → nan" on every one after it.
   */
  lemma FailedSymbolLogsFlipsAsWritten()
    ensures var eth := Snapshot("ETHUSDT", 2500.0, 0.0001, 1000.0, 0.5, Normal, 0.8, 1.8);
      var entries := [Loaded(eth), Failed("BTCUSDT", "timeout")];
      var m0: map<string, Option<Regime>> := map["BTCUSDT" := Some(Normal), "ETHUSDT" := Some(Normal)];
      var rows := WatchRows(entries);
      var m1 := AfterAsWritten(m0, rows);
      && FlipsAsWritten(m0, rows) == ["BTCUSDT: Normal → nan"]
      && FlipsAsWritten(m1, rows) == ["BTCUSDT: nan → nan"]
  {
    var eth := Snapshot("ETHUSDT", 2500.0, 0.0001, 1000.0, 0.5, Normal, 0.8, 1.8);
    var entries := [Loaded(eth), Failed("BTCUSDT", "timeout")];
    var rows := WatchRows(entries);
    var m0: map<string, Option<Regime>> := map["BTCUSDT" := Some(Normal), "ETHUSDT" := Some(Normal)];
    assert entries[1..] == [Failed("BTCUSDT", "timeout")] && entries[1..][1..] == [];
    assert WatchRows(entries[1..][1..]) == [];
    assert WatchRows(entries[1..]) == [WatchRow("BTCUSDT", None, None)];
    assert rows == [WatchRow("ETHUSDT", Some(0.5), Some(Normal)), WatchRow("BTCUSDT", None, None)];
    assert rows[..1] == [rows[0]] && rows[..1][..0] == [];
    assert AfterAsWritten(m0, rows[..1]) == m0;
    assert FlipsAsWritten(m0, rows[..1]) == [];
    var m1 := AfterAsWritten(m0, rows);
    assert m1 == map["BTCUSDT" := None, "ETHUSDT" := Some(Normal)];
    assert AfterAsWritten(m1, rows[..1]) == m1;
    assert FlipsAsWritten(m1, rows[..1]) == [];
    assert rows[1].symbol == "BTCUSDT" && rows[1].regime == None;
    assert LabelText(m0["BTCUSDT"]) == "Normal" && LabelText(m1["BTCUSDT"]) == "nan";
    assert "BTCUSDT" + ": " + "Normal" + " → " + "nan" == "BTCUSDT: Normal → nan";
    assert "BTCUSDT" + ": " + "nan" + " → " + "nan" == "BTCUSDT: nan → nan";
  }

  /**
   * Corrected: the tracker watches only the snapshots that loaded, so a
   * failed symbol logs nothing and keeps its last computed label; when no
   * loaded label changed, the refresh logs nothing at all.
   */
  lemma FailuresLogNothing(m: map<string, Regime>, entries: seq<Entry>)
    requires forall g :: Loaded(g) in entries ==> g.symbol in m && m[g.symbol] == g.regime
    ensures Flips(m, LoadedSnapshots(entries)) == []
    ensures After(m, LoadedSnapshots(entries)) == m
  {
    var good := LoadedSnapshots(entries);
    forall i | 0 <= i < |good| ensures good[i].symbol in m && m[good[i].symbol] == good[i].regime {
      assert good[i] in good;
    }
    StableRefresh(m, good);
  }

  /** A failed symbol is not touched by the corrected tracker: its last label survives. */
  lemma FailedSymbolKeepsLabel(m: map<string, Regime>, entries: seq<Entry>, sym: string)
    requires forall g :: Loaded(g) in entries ==> g.symbol != sym
    ensures (sym in After(m, LoadedSnapshots(entries)) <==> sym in m)
    ensures sym in m ==> After(m, LoadedSnapshots(entries))[sym] == m[sym]
  {
    var good := LoadedSnapshots(entries);
    forall i | 0 <= i < |good| ensures good[i].symbol != sym {
      assert good[i] in good;
    }
    AfterUntouched(m, good, sym);
  }

  datatype Component = Funding | OpenInterestChange | AbsReturn

  /** The component's position in the contribution table. */
  function ComponentIndex(c: Component): nat {
    match c
    case Funding => 0
    case OpenInterestChange => 1
    case AbsReturn => 2
  }

  /** Weight times z-score of each component, in the order Funding, OI change, |return|. */
  function Contributions(w: Weights, zf: real, zo: real, zr: real): seq<real> {
    [w.funding * zf, w.oi * zo, w.absret * zr]
  }

  /** `abs().argmax()`: the first position of the largest magnitude. */
  function ArgMaxAbs(xs: seq<real>): (k: nat)
    requires |xs| > 0
    ensures k < |xs|
    ensures forall i :: 0 <= i < |xs| ==> Abs(xs[i]) <= Abs(xs[k])
    ensures forall i :: 0 <= i < k ==> Abs(xs[i]) < Abs(xs[k])
  {
    if |xs| == 1 then 0
    else
      var k := ArgMaxAbs(xs[..|xs| - 1]);
      assert forall i :: 0 <= i < |xs| - 1 ==> xs[..|xs| - 1][i] == xs[i];
      if Abs(xs[|xs| - 1]) > Abs(xs[k]) then |xs| - 1 else k
  }

  /**
   * The main driver: the component whose contribution has the largest
   * magnitude, the earliest one on a tie.
   */
  function TopContributor(w: Weights, zf: real, zo: real, zr: real): (c: Component)
    ensures var cs := Contributions(w, zf, zo, zr);
      var k := ComponentIndex(c);
      && (forall i :: 0 <= i < 3 ==> Abs(cs[i]) <= Abs(cs[k]))
      && (forall i :: 0 <= i < k ==> Abs(cs[i]) < Abs(cs[k]))
  {
    [Funding, OpenInterestChange, AbsReturn][ArgMaxAbs(Contributions(w, zf, zo, zr))]
  }

  /** A defined score is the sum of its three contributions. */
  lemma CombineIsContributionSum(w: Weights, zf: Option<real>, zo: Option<real>, zr: Option<real>)
    requires zf.Some? && zo.Some? && zr.Some?
    ensures var cs := Contributions(w, zf.value, zo.value, zr.value);
      Combine(w, zf, zo, zr) == Some(cs[0] + cs[1] + cs[2])
  {
  }

  /** The driver of the focus symbol, from the z-scores of its last complete row. */
  function FocusDriver(df: Frame, w: Weights): (c: Component)
    requires df.Valid() && df.rows > 0 && AllCellsDefined(df)
    requires ZFunding in df.cols && ZOi in df.cols && ZAbsret in df.cols
    ensures var cs := LastContributions(df, w);
      var k := ComponentIndex(c);
      && (forall i :: 0 <= i < 3 ==> Abs(cs[i]) <= Abs(cs[k]))
      && (forall i :: 0 <= i < k ==> Abs(cs[i]) < Abs(cs[k]))
  {
    var last := df.rows - 1;
    TopContributor(w, df.cols[ZFunding][last].value, df.cols[ZOi][last].value, df.cols[ZAbsret][last].value)
  }

  /** The z-score cells of the last row of a frame whose cells are all defined. */
  function LastContributions(df: Frame, w: Weights): seq<real>
    requires df.Valid() && df.rows > 0 && AllCellsDefined(df)
    requires ZFunding in df.cols && ZOi in df.cols && ZAbsret in df.cols
  {
    var last := df.rows - 1;
    Contributions(w, df.cols[ZFunding][last].value, df.cols[ZOi][last].value, df.cols[ZAbsret][last].value)
  }

  /** On the complete rows, the reported score is the sum of the last row's contributions. */
  lemma ReportContributions(symbol: string, d: Frame, th: Thresholds, w: Weights)
    requires d.Valid() && HasMarketColumns(d) && Clp in d.cols && d.rows > 0 && AllCellsDefined(d)
    requires ZFunding in d.cols && ZOi in d.cols && ZAbsret in d.cols
    requires d.cols[Clp][d.rows - 1] == Combine(w, d.cols[ZFunding][d.rows - 1], d.cols[ZOi][d.rows - 1], d.cols[ZAbsret][d.rows - 1])
    ensures var c := Report(symbol, d, th);
      var cs := LastContributions(c.frame, w);
      cs[0] + cs[1] + cs[2] == c.snap.clp
  {
    var last := d.rows - 1;
    CombineIsContributionSum(w, d.cols[ZFunding][last], d.cols[ZOi][last], d.cols[ZAbsret][last]);
  }

  /**
   * The three contributions shown for the focus symbol add up to the
   * score in its snapshot (`f` is the derived frame, whose score column is
   * the weighted sum of its z-score columns).
   */
  lemma ContributionsAddUpToScore(symbol: string, f: Frame, s: Settings, sqrt: real -> real, out: Computed)
    requires f.Valid() && HasMarketColumns(f) && Clp in f.cols && SettingsOk(s)
    requires ZFunding in f.cols && ZOi in f.cols && ZAbsret in f.cols
    requires forall t :: 0 <= t < f.rows ==>
      f.cols[Clp][t] == Combine(s.weights, f.cols[ZFunding][t], f.cols[ZOi][t], f.cols[ZAbsret][t])
    requires Finish(symbol, f, s, sqrt) == Ok(out)
    ensures out.frame.Valid() && out.frame.rows > 0 && AllCellsDefined(out.frame)
    ensures ZFunding in out.frame.cols && ZOi in out.frame.cols && ZAbsret in out.frame.cols
    ensures var cs := LastContributions(out.frame, s.weights);
      cs[0] + cs[1] + cs[2] == out.snap.clp
  {
    var d := DropIncomplete(f);
    var th := PipelineThresholds(d, s, sqrt);
    assert out == Report(symbol, d, th);
    var last := d.rows - 1;
    var t := CompleteRows(f, f.rows)[last];
    assert d.cols[Clp][last] == f.cols[Clp][t];
    assert d.cols[ZFunding][last] == f.cols[ZFunding][t];
    assert d.cols[ZOi][last] == f.cols[ZOi][t];
    assert d.cols[ZAbsret][last] == f.cols[ZAbsret][t];
    ReportContributions(symbol, d, th, s.weights);
  }
}
