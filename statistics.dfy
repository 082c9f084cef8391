/**
 * The four figures shown for a price column: percentage variation from the
 * first to the last row, maximum, minimum and spread (sample variance, the
 * square of the volatility figure).
 */
module Statistics {
  import opened Wrappers

  /**
   * A quotient as the float division yields it: a finite value, or the
   * infinities and NaN produced by dividing by a zero first price.
   */
  datatype Ratio = Finite(value: real) | PosInf | NegInf | NaN

  /** Float division of `num` by `den`, with IEEE results for a zero divisor. */
  function Divide(num: real, den: real): (r: Ratio)
    ensures den != 0.0 ==> r.Finite? && r.value * den == num
    ensures den == 0.0 ==>
              (r == PosInf <==> num > 0.0) && (r == NegInf <==> num < 0.0) && (r == NaN <==> num == 0.0)
  {
    if den != 0.0 then Finite(num / den)
    else if num > 0.0 then PosInf
    else if num < 0.0 then NegInf
    else NaN
  }

  /**
   * `100 * (last - first) / first` over a non-empty price column: finite
   * exactly when the first price is non-zero, and then it gives back the last price.
   */
  function Variation(p: seq<real>): (r: Ratio)
    requires |p| > 0
    ensures r.Finite? <==> p[0] != 0.0
    ensures r.Finite? ==> p[0] + p[0] * r.value / 100.0 == p[|p| - 1]
  {
    Divide(100.0 * (p[|p| - 1] - p[0]), p[0])
  }

  /** Largest price of the column. */
  function MaxPrice(p: seq<real>): (r: real)
    requires |p| > 0
    ensures r in p
    ensures forall i :: 0 <= i < |p| ==> p[i] <= r
  {
    if |p| == 1 then p[0]
    else
      var m := MaxPrice(p[1..]);
      if p[0] >= m then p[0] else m
  }

  /** Smallest price of the column. */
  function MinPrice(p: seq<real>): (r: real)
    requires |p| > 0
    ensures r in p
    ensures forall i :: 0 <= i < |p| ==> r <= p[i]
  {
    if |p| == 1 then p[0]
    else
      var m := MinPrice(p[1..]);
      if p[0] <= m then p[0] else m
  }

  function Sum(p: seq<real>): real
  {
    if p == [] then 0.0 else p[0] + Sum(p[1..])
  }

  function Mean(p: seq<real>): real
    requires |p| > 0
  {
    Sum(p) / (|p| as real)
  }

  function Square(x: real): real
  {
    x * x
  }

  /** Sum of the squared distances of the prices to `m`. */
  function SquaredDeviations(p: seq<real>, m: real): real
  {
    if p == [] then 0.0 else Square(p[0] - m) + SquaredDeviations(p[1..], m)
  }

  /**
   * Bessel-corrected variance, dividing by n - 1; None (the NaN of the source)
   * below two rows.
   */
  function SampleVariance(p: seq<real>): (r: Option<real>)
    ensures r.Some? <==> |p| >= 2
  {
    if |p| < 2 then None
    else Some(SquaredDeviations(p, Mean(p)) / ((|p| - 1) as real))
  }

  /** The figures of one statistics panel. */
  datatype Stats = Stats(variation: Ratio, max: real, min: real, variance: Option<real>)

  /** The panel for a non-empty price column. */
  function Summarize(p: seq<real>): (st: Stats)
    requires |p| > 0
    ensures st.min <= st.max
    ensures st.max in p && st.min in p
    ensures forall i :: 0 <= i < |p| ==> st.min <= p[i] <= st.max
    ensures st.variation == Variation(p) && st.variance == SampleVariance(p)
  {
    Stats(Variation(p), MaxPrice(p), MinPrice(p), SampleVariance(p))
  }

  /** Colour of the variation figure: red when it compares below zero. */
  datatype Colour = Red | Green

  function VariationColour(v: Ratio): (c: Colour)
    ensures c == Red <==> (v.Finite? && v.value < 0.0) || v == NegInf
  {
    match v
    case Finite(x) => if x < 0.0 then Red else Green
    case NegInf => Red
    case PosInf => Green
    case NaN => Green
  }

  // ---- Properties of the variation ------------------------------------

  /** A one-row column, or one whose last price equals its first, varies by 0 %. */
  lemma VariationZeroWhenUnchanged(p: seq<real>)
    requires |p| > 0 && p[0] != 0.0
    requires |p| == 1 || p[|p| - 1] == p[0]
    ensures Variation(p) == Finite(0.0)
  {
  }

  /** With a positive first price the variation is negative exactly when the price fell. */
  lemma VariationNegativeIffFell(p: seq<real>)
    requires |p| > 0 && p[0] > 0.0
    ensures Variation(p).Finite?
    ensures Variation(p).value < 0.0 <==> p[|p| - 1] < p[0]
  {
  }

  /**
   * The red/green rule for non-negative first prices, zero included (where the
   * figure is an infinity or NaN): red exactly when the last price is below the first.
   */
  lemma RedIffFell(p: seq<real>)
    requires |p| > 0 && p[0] >= 0.0
    ensures VariationColour(Variation(p)) == Red <==> p[|p| - 1] < p[0]
  {
  }

  /** For a negative first price the rule flips: red exactly when the price rose. */
  lemma RedIffRoseForNegativeFirst(p: seq<real>)
    requires |p| > 0 && p[0] < 0.0
    ensures VariationColour(Variation(p)) == Red <==> p[|p| - 1] > p[0]
  {
  }

  // ---- Properties of the spread ----------------------------------------

  lemma {:induction false} SquaredDeviationsNonNegative(p: seq<real>, m: real)
    ensures SquaredDeviations(p, m) >= 0.0
  {
    if p != [] {
      SquaredDeviationsNonNegative(p[1..], m);
      SquareNonNegative(p[0] - m);
    }
  }

  lemma SquareOfPositive(e: real)
    requires e > 0.0
    ensures Square(e) > 0.0
  {
    calc {
      Square(e);
      e * e;
    >
      0.0 * e;
    ==
      0.0;
    }
  }

  lemma SquareNonNegative(d: real)
    ensures Square(d) >= 0.0
    ensures d != 0.0 ==> Square(d) > 0.0
  {
    if d > 0.0 {
      SquareOfPositive(d);
    } else if d < 0.0 {
      SquareOfPositive(-d);
      assert Square(d) == Square(-d);
    }
  }

  /** The squared deviations vanish exactly when every price equals `m`. */
  lemma {:induction false} SquaredDeviationsZeroIff(p: seq<real>, m: real)
    ensures SquaredDeviations(p, m) == 0.0 <==> forall i :: 0 <= i < |p| ==> p[i] == m
  {
    if p != [] {
      var rest := p[1..];
      SquaredDeviationsZeroIff(rest, m);
      SquaredDeviationsNonNegative(rest, m);
      var d := p[0] - m;
      SquareNonNegative(d);
      assert SquaredDeviations(p, m) == Square(d) + SquaredDeviations(rest, m);
      if d == 0.0 {
        assert Square(d) == 0.0;
      }
      assert (forall i :: 0 <= i < |p| ==> p[i] == m)
         <==> p[0] == m && forall i :: 0 <= i < |rest| ==> rest[i] == m
      by {
        forall i | 0 < i < |p| ensures p[i] == rest[i - 1] { }
      }
    }
  }

  lemma {:induction false} SumOfConstant(p: seq<real>, c: real)
    requires forall i :: 0 <= i < |p| ==> p[i] == c
    ensures Sum(p) == (|p| as real) * c
  {
    if p != [] {
      SumOfConstant(p[1..], c);
    }
  }

  /** The spread is never negative. */
  lemma SampleVarianceNonNegative(p: seq<real>)
    requires |p| >= 2
    ensures SampleVariance(p).value >= 0.0
  {
    SquaredDeviationsNonNegative(p, Mean(p));
  }

  /** With two rows or more, the spread is zero exactly when all prices are equal. */
  lemma SampleVarianceZeroIffConstant(p: seq<real>)
    requires |p| >= 2
    ensures SampleVariance(p).value == 0.0 <==> forall i :: 0 <= i < |p| ==> p[i] == p[0]
  {
    var m := Mean(p);
    var n := (|p| - 1) as real;
    SquaredDeviationsZeroIff(p, m);
    if forall i :: 0 <= i < |p| ==> p[i] == p[0] {
      SumOfConstant(p, p[0]);
      assert m == p[0];
    }
  }

  /** Prices 100, 110, 90: variation -10 %, max 110, min 90, spread 100 (volatility 10). */
  lemma ThreePointExample()
    ensures Summarize([100.0, 110.0, 90.0]) == Stats(Finite(-10.0), 110.0, 90.0, Some(100.0))
  {
  }
}
