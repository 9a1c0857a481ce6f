/**
 * The per-instrument table the pipeline works on: a number of aligned rows,
 * numeric columns by name (a missing value is None, pandas' NaN), and the
 * regime label column once one has been assigned. Every stage returns a new
 * frame that adds or overwrites its own columns and keeps the rest.
 */
module Frames {
  import opened Stats

  /** Column names the pipeline reads or writes; `Other` stands for the rest (time, Open, High, ...). */
  datatype Column =
    | Close | FundingRate | OpenInterest
    | Ret | AbsRet | OiChgPct
    | ZFunding | ZOi | ZAbsret
    | Clp
    | Other(name: string)

  datatype Regime = Normal | Stress | Extreme

  function RegimeName(r: Regime): string {
    match r
    case Normal => "Normal"
    case Stress => "Stress"
    case Extreme => "Extreme"
  }

  datatype Frame = Frame(rows: nat, cols: map<Column, seq<Option<real>>>, regime: Option<seq<Regime>>)
  {
    /** Every column, the regime column included, has one cell per row. */
    predicate Valid() {
      && (forall c :: c in cols ==> |cols[c]| == rows)
      && (regime.Some? ==> |regime.value| == rows)
    }

    /** Assigns a whole column, adding it or replacing it. */
    function WithColumn(c: Column, s: seq<Option<real>>): (r: Frame)
      requires Valid() && |s| == rows
      ensures r.Valid()
    {
      this.(cols := cols[c := s])
    }
  }

  /**
   * `after` is `before` with the columns in `written` added or overwritten:
   * same rows, same regime column, every other column unchanged.
   */
  ghost predicate KeepsOtherColumns(before: Frame, after: Frame, written: set<Column>) {
    && after.rows == before.rows
    && after.regime == before.regime
    && after.cols.Keys == before.cols.Keys + written
    && (forall c :: c in before.cols && c !in written ==> after.cols[c] == before.cols[c])
  }

  /** The columns the market-data merge delivers and the feature stages read. */
  predicate HasMarketColumns(df: Frame) {
    Close in df.cols && FundingRate in df.cols && OpenInterest in df.cols
  }

  /** Both frames carry the market columns, with the same cells. */
  predicate SameMarket(a: Frame, b: Frame) {
    && HasMarketColumns(a) && HasMarketColumns(b)
    && a.cols[Close] == b.cols[Close]
    && a.cols[FundingRate] == b.cols[FundingRate]
    && a.cols[OpenInterest] == b.cols[OpenInterest]
  }

  /** A stage that writes none of the market columns leaves them as they were. */
  lemma KeepsMarket(before: Frame, after: Frame, written: set<Column>)
    requires HasMarketColumns(before) && KeepsOtherColumns(before, after, written)
    requires Close !in written && FundingRate !in written && OpenInterest !in written
    ensures SameMarket(before, after)
  {
  }
}
