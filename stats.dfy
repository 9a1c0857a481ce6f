/**
 * Shared numeric vocabulary of the CLP monitor: an undefined-or-real cell
 * (pandas NaN as None), dropping undefined cells, sums, means and the
 * population variance (divisor n, pandas `ddof=0`).
 *
 * The square root is not given a definition here: every member that needs
 * one takes it as a parameter and requires only the laws below.
 */
module Stats {

  datatype Option<+T> = None | Some(value: T)

  datatype Result<+T> = Ok(value: T) | Err(msg: string)

  /** The only facts about the square root that the model relies on. */
  ghost predicate SqrtLaw(sqrt: real -> real) {
    forall v :: v >= 0.0 ==> sqrt(v) >= 0.0 && (sqrt(v) == 0.0 <==> v == 0.0)
  }

  function Abs(x: real): real {
    if x < 0.0 then -x else x
  }

  predicate AllDefined(s: seq<Option<real>>) {
    forall i :: 0 <= i < |s| ==> s[i].Some?
  }

  /** `Series.dropna()`: the defined cells, in order. */
  function Values(s: seq<Option<real>>): (r: seq<real>)
    ensures |r| <= |s|
    ensures AllDefined(s) ==> |r| == |s| && forall i :: 0 <= i < |s| ==> r[i] == s[i].value
    ensures forall v :: v in r <==> Some(v) in s
  {
    if |s| == 0 then []
    else (if s[0].Some? then [s[0].value] else []) + Values(s[1..])
  }

  /**
   * `dropna` keeps every defined value as often as it occurs, so the length
   * of the result is the number of defined cells.
   */
  lemma {:induction false} ValuesCount(s: seq<Option<real>>)
    ensures forall v :: multiset(Values(s))[v] == multiset(s)[Some(v)]
    ensures |Values(s)| == |s| - multiset(s)[None]
  {
    if |s| > 0 {
      ValuesCount(s[1..]);
      assert s == [s[0]] + s[1..];
    }
  }

  function Sum(xs: seq<real>): real {
    if |xs| == 0 then 0.0 else xs[0] + Sum(xs[1..])
  }

  function Mean(xs: seq<real>): real
    requires |xs| > 0
  {
    Sum(xs) / |xs| as real
  }

  /** Sum of squared deviations from `m`. */
  function SquaredDeviation(xs: seq<real>, m: real): real {
    if |xs| == 0 then 0.0 else Square(xs[0] - m) + SquaredDeviation(xs[1..], m)
  }

  /** Population variance, `std(ddof=0)` squared. */
  function PopVariance(xs: seq<real>): real
    requires |xs| > 0
  {
    SquaredDeviation(xs, Mean(xs)) / |xs| as real
  }

  /** Population standard deviation. */
  function PopStd(xs: seq<real>, sqrt: real -> real): real
    requires |xs| > 0
  {
    sqrt(PopVariance(xs))
  }

  predicate Constant(xs: seq<real>) {
    forall i :: 0 <= i < |xs| ==> xs[i] == xs[0]
  }

  lemma {:induction false} SumConstant(xs: seq<real>, c: real)
    requires forall i :: 0 <= i < |xs| ==> xs[i] == c
    ensures Sum(xs) == |xs| as real * c
  {
    if |xs| > 0 {
      SumConstant(xs[1..], c);
    }
  }

  lemma MeanConstant(xs: seq<real>)
    requires |xs| > 0 && Constant(xs)
    ensures Mean(xs) == xs[0]
  {
    SumConstant(xs, xs[0]);
  }

  function Square(d: real): real {
    d * d
  }

  /**
   * The same value as its argument. Multiplying by it keeps the solver from
   * rewriting `d * d`, about which it reasons poorly, into a power of `d`.
   */
  function Copy(x: real): real {
    x
  }

  lemma MulNonNegative(a: real, b: real)
    requires a >= 0.0 && b >= 0.0
    ensures a * b >= 0.0
  {
  }

  lemma MulPositive(a: real, b: real)
    requires a > 0.0 && b > 0.0
    ensures a * b > 0.0
  {
  }

  lemma SquareOfPositive(d: real)
    requires d > 0.0
    ensures Square(d) > 0.0
  {
    var e := Copy(d);
    MulPositive(d, e);
    assert d * e == Square(d);
  }

  lemma SquareOfNegation(d: real)
    ensures Square(-d) == Square(d)
  {
  }

  lemma SquarePositive(d: real)
    ensures Square(d) >= 0.0
    ensures d != 0.0 ==> Square(d) > 0.0
  {
    if d > 0.0 {
      SquareOfPositive(d);
    } else if d < 0.0 {
      SquareOfPositive(-d);
      SquareOfNegation(d);
    } else {
      assert Square(d) == 0.0 * 0.0;
    }
  }

  lemma {:induction false} SquaredDeviationZero(xs: seq<real>, m: real)
    ensures SquaredDeviation(xs, m) >= 0.0
    ensures (forall i :: 0 <= i < |xs| ==> xs[i] == m) ==> SquaredDeviation(xs, m) == 0.0
    ensures (exists i :: 0 <= i < |xs| && xs[i] != m) ==> SquaredDeviation(xs, m) > 0.0
  {
    if |xs| > 0 {
      SquaredDeviationZero(xs[1..], m);
      SquarePositive(xs[0] - m);
      if exists i :: 0 <= i < |xs| && xs[i] != m {
        var i :| 0 <= i < |xs| && xs[i] != m;
        if i > 0 {
          assert xs[1..][i - 1] != m;
        }
      }
    }
  }

  /** The population variance is never negative, and is zero exactly on a constant sample. */
  lemma VarianceZeroIffConstant(xs: seq<real>)
    requires |xs| > 0
    ensures PopVariance(xs) >= 0.0
    ensures PopVariance(xs) == 0.0 <==> Constant(xs)
  {
    SquaredDeviationZero(xs, Mean(xs));
    if Constant(xs) {
      MeanConstant(xs);
    } else {
      var i :| 0 <= i < |xs| && xs[i] != xs[0];
      assert xs[i] != Mean(xs) || xs[0] != Mean(xs);
    }
  }

  /** Given the square-root laws, the standard deviation is zero exactly on a constant sample. */
  lemma StdZeroIffConstant(xs: seq<real>, sqrt: real -> real)
    requires |xs| > 0 && SqrtLaw(sqrt)
    ensures PopStd(xs, sqrt) >= 0.0
    ensures PopStd(xs, sqrt) == 0.0 <==> Constant(xs)
  {
    VarianceZeroIffConstant(xs);
  }

  lemma {:induction false} SumAppend(a: seq<real>, b: seq<real>)
    ensures Sum(a + b) == Sum(a) + Sum(b)
  {
    if |a| == 0 {
      assert a + b == b;
    } else {
      assert (a + b)[1..] == a[1..] + b;
      SumAppend(a[1..], b);
    }
  }
}
