/** The numbers `injectMetrics` derives from the reduced table and the
    portfolio value, before any of them is formatted. */
module Metrics {
  import opened Positions
  import opened Versions

  /** `arr.reduce((a, b) => a + b, 0)`. */
  function Sum(xs: seq<real>): real {
    if xs == [] then 0.0 else Sum(xs[..|xs| - 1]) + xs[|xs| - 1]
  }

  /** `avg(arr)`: the arithmetic mean, and 0 for an empty list. */
  function Mean(xs: seq<real>): (r: real)
    ensures xs == [] ==> r == 0.0
    ensures xs != [] ==> r * |xs| as real == Sum(xs)
  {
    if xs == [] then 0.0 else Sum(xs) / |xs| as real
  }

  lemma {:induction false} SumBounds(xs: seq<real>, lo: real, hi: real)
    requires forall i :: 0 <= i < |xs| ==> lo <= xs[i] <= hi
    ensures |xs| as real * lo <= Sum(xs) <= |xs| as real * hi
  {
    if xs != [] {
      SumBounds(xs[..|xs| - 1], lo, hi);
    }
  }

  /** The mean of a non-empty list lies between its bounds. */
  lemma MeanBounds(xs: seq<real>, lo: real, hi: real)
    requires xs != []
    requires forall i :: 0 <= i < |xs| ==> lo <= xs[i] <= hi
    ensures lo <= Mean(xs) <= hi
  {
    SumBounds(xs, lo, hi);
    var n := |xs| as real;
    FactorOrder(lo, Mean(xs), n);
    FactorOrder(Mean(xs), hi, n);
  }

  /** Cancelling a positive factor keeps an inequality. */
  lemma FactorOrder(a: real, b: real, c: real)
    requires c > 0.0 && a * c <= b * c
    ensures a <= b
  {
  }

  lemma FactorStrict(a: real, b: real, c: real)
    requires c > 0.0 && a * c < b * c
    ensures a < b
  {
  }

  /** The mean of a list of positive numbers is positive. */
  lemma {:induction false} MeanPositive(xs: seq<real>)
    requires xs != []
    requires forall i :: 0 <= i < |xs| ==> xs[i] > 0.0
    ensures Mean(xs) > 0.0
  {
    SumPositive(xs);
  }

  lemma {:induction false} SumPositive(xs: seq<real>)
    requires xs != []
    requires forall i :: 0 <= i < |xs| ==> xs[i] > 0.0
    ensures Sum(xs) > 0.0
  {
    if |xs| > 1 {
      SumPositive(xs[..|xs| - 1]);
    }
  }

  /** `portVal ? x / portVal : 0`: a multiple of the portfolio value; the
      test is truthiness, so any non-zero value divides, a negative one
      included. */
  function PerPortfolio(x: real, portVal: real): (r: real)
    ensures portVal == 0.0 ==> r == 0.0
    ensures portVal != 0.0 ==> r * portVal == x
  {
    if portVal != 0.0 then x / portVal else 0.0
  }

  /** The L/S ratio before formatting. */
  datatype LsRatio =
    | Zero            // both sums are zero: "0.00"
    | Inf             // no short exposure: the infinity token
    | NegInf          // no long exposure against a positive short sum: -shortSum / 0
    | Ratio(value: real)

  /** The four-case L/S ratio policy: long over short when long is at
      least short, minus short over long otherwise. */
  function LongShortRatio(long: real, short: real): (r: LsRatio)
    ensures r == Zero <==> long == 0.0 && short == 0.0
    ensures r == Inf <==> short == 0.0 && long != 0.0
    ensures r == NegInf <==> long == 0.0 && short > 0.0
    ensures r.Ratio? <==> short != 0.0 && (long != 0.0 || short < 0.0)
    ensures r.Ratio? && long >= short ==> r.value * short == long
    ensures r.Ratio? && long < short ==> r.value * long == -short
  {
    if long == 0.0 && short == 0.0 then Zero
    else if short == 0.0 then Inf
    else if long >= short then Ratio(long / short)
    else if long == 0.0 then NegInf
    else Ratio(-short / long)
  }

  /** With both sides positive the ratio says how many times the larger
      side is the smaller one, positive when longs dominate and negative
      when shorts do. */
  lemma RatioDominance(long: real, short: real)
    requires long > 0.0 && short > 0.0
    ensures LongShortRatio(long, short).Ratio?
    ensures long >= short ==> LongShortRatio(long, short).value >= 1.0
    ensures long < short ==> LongShortRatio(long, short).value < -1.0
  {
    if long >= short {
      QuotientAtLeastOne(long, short);
    } else {
      QuotientBelowMinusOne(long, short);
    }
  }

  lemma QuotientAtLeastOne(a: real, b: real)
    requires a >= b > 0.0
    ensures a / b >= 1.0
  {
    var q := a / b;
    assert q * b == a;
    FactorOrder(1.0, q, b);
  }

  lemma QuotientBelowMinusOne(a: real, b: real)
    requires 0.0 < a < b
    ensures -b / a < -1.0
  {
    var q := -b / a;
    assert q * a == -b;
    FactorStrict(q, -1.0, a);
  }

  /** The four cases of volatility.js:375-379. */
  lemma RatioPolicyExamples()
    ensures LongShortRatio(0.0, 0.0) == Zero
    ensures LongShortRatio(100.0, 0.0) == Inf
    ensures LongShortRatio(100.0, 50.0) == Ratio(2.0)
    ensures LongShortRatio(50.0, 100.0) == Ratio(-2.0)
  {
  }

  /** `total > 0 ? longSum / total : 0`: the long share of the total. */
  function LongShare(long: real, short: real): (r: real)
    ensures long + short <= 0.0 ==> r == 0.0
    ensures long + short > 0.0 ==> r * (long + short) == long
  {
    var total := long + short;
    if total > 0.0 then long / total else 0.0
  }

  /** With no negative sum the long share is a fraction. */
  lemma LongShareFraction(long: real, short: real)
    requires long >= 0.0 && short >= 0.0
    ensures 0.0 <= LongShare(long, short) <= 1.0
  {
    if long + short > 0.0 {
      DivAtMostOne(long, long + short);
    }
  }

  lemma DivAtMostOne(a: real, c: real)
    requires 0.0 <= a <= c && c > 0.0
    ensures 0.0 <= a / c <= 1.0
  {
    var q := a / c;
    assert q * c == a;
    assert 0.0 * c <= q * c <= 1.0 * c;
    FactorOrder(0.0, q, c);
    FactorOrder(q, 1.0, c);
  }

  /** The figures of one metrics pass. */
  datatype Figures = Figures(
    longSum: real, shortSum: real,
    longCount: nat, shortCount: nat,
    longAvgLev: real, shortAvgLev: real,
    longPVx: real, shortPVx: real,
    lsRatio: LsRatio, longShare: real,
    netExposure: real, netLeverage: real)

  /** The figures derived from the accumulators and the portfolio value. */
  function Derive(tally: Tally, portVal: real): (f: Figures)
    ensures f.longSum == tally.longSum && f.shortSum == tally.shortSum
    ensures f.longCount == tally.longCount && f.shortCount == tally.shortCount
    ensures f.netExposure == f.longSum - f.shortSum
    ensures portVal == 0.0 ==> f.longPVx == 0.0 && f.shortPVx == 0.0 && f.netLeverage == 0.0
    ensures portVal != 0.0 ==> f.longPVx * portVal == f.longSum && f.shortPVx * portVal == f.shortSum
                               && f.netLeverage * portVal == f.netExposure
    ensures f.longPVx == PerPortfolio(f.longSum, portVal) && f.shortPVx == PerPortfolio(f.shortSum, portVal)
    ensures f.netLeverage == PerPortfolio(f.netExposure, portVal)
    ensures f.longAvgLev == Mean(tally.longLevs) && f.shortAvgLev == Mean(tally.shortLevs)
    ensures tally.longLevs == [] ==> f.longAvgLev == 0.0
    ensures tally.shortLevs == [] ==> f.shortAvgLev == 0.0
    ensures f.lsRatio == LongShortRatio(f.longSum, f.shortSum)
    ensures f.longShare == LongShare(f.longSum, f.shortSum)
  {
    var net := tally.longSum - tally.shortSum;
    Figures(tally.longSum, tally.shortSum, tally.longCount, tally.shortCount,
            Mean(tally.longLevs), Mean(tally.shortLevs),
            PerPortfolio(tally.longSum, portVal), PerPortfolio(tally.shortSum, portVal),
            LongShortRatio(tally.longSum, tally.shortSum), LongShare(tally.longSum, tally.shortSum),
            net, PerPortfolio(net, portVal))
  }

  /** Net leverage is the long multiple less the short multiple. */
  lemma NetLeverageSplits(tally: Tally, portVal: real)
    ensures var f := Derive(tally, portVal); f.netLeverage == f.longPVx - f.shortPVx
  {
    PerPortfolioSubtracts(tally.longSum, tally.shortSum, portVal);
  }

  lemma PerPortfolioSubtracts(a: real, b: real, portVal: real)
    ensures PerPortfolio(a - b, portVal) == PerPortfolio(a, portVal) - PerPortfolio(b, portVal)
  {
    if portVal != 0.0 {
      assert (a - b) / portVal == a / portVal - b / portVal;
    }
  }

  /** The metrics pass over a table: the reduction, then the derived
      figures. */
  method ComputeFigures(t: Table, portVal: real) returns (f: Figures)
    ensures f.longSum == SideSum(Extract(t), Long) && f.shortSum == SideSum(Extract(t), Short)
    ensures f.longCount == SideCount(Extract(t), Long) && f.shortCount == SideCount(Extract(t), Short)
    ensures f.longCount + f.shortCount == |Extract(t)|
    ensures f.netExposure == f.longSum - f.shortSum
    ensures f.lsRatio == LongShortRatio(f.longSum, f.shortSum)
    ensures f.longShare == LongShare(f.longSum, f.shortSum)
    ensures f.longAvgLev == Mean(SideLeverages(Extract(t), Long))
    ensures f.shortAvgLev == Mean(SideLeverages(Extract(t), Short))
    ensures f.longAvgLev >= 0.0 && f.shortAvgLev >= 0.0
    ensures f.longAvgLev > 0.0 <==> SideLeverages(Extract(t), Long) != []
    ensures f.shortAvgLev > 0.0 <==> SideLeverages(Extract(t), Short) != []
    ensures portVal == 0.0 ==> f.longPVx == 0.0 && f.shortPVx == 0.0 && f.netLeverage == 0.0
    ensures f.longPVx == PerPortfolio(f.longSum, portVal) && f.shortPVx == PerPortfolio(f.shortSum, portVal)
    ensures f.netLeverage == PerPortfolio(f.netExposure, portVal)
    ensures f.netLeverage == f.longPVx - f.shortPVx
  {
    var tally := Aggregate(t);
    f := Derive(tally, portVal);
    NetLeverageSplits(tally, portVal);
    var ps := Extract(t);
    CountsCoverPositions(ps);
    ExtractLeverages(t);
    LeveragesPositive(ps, Long);
    LeveragesPositive(ps, Short);
    if tally.longLevs != [] {
      MeanPositive(tally.longLevs);
    }
    if tally.shortLevs != [] {
      MeanPositive(tally.shortLevs);
    }
  }

  /** The ratio as the row shows it. `toFixed(2)` is left abstract as
      `fixed2`; a negative infinity prints as `-Infinity`. */
  function RatioText(v: Version, r: LsRatio, fixed2: real -> string): string {
    match r
    case Zero => "0.00"
    case Inf => InfinityToken(v)
    case NegInf => "-Infinity"
    case Ratio(x) => fixed2(x)
  }

  /** The two releases print the same ratio text except for an infinite
      ratio. */
  lemma RatioTextAcrossVersions(r: LsRatio, fixed2: real -> string)
    ensures RatioText(V1_3, r, fixed2) == RatioText(V1_8, r, fixed2) <==> r != Inf
  {
    if r == Inf {
      assert |RatioText(V1_3, r, fixed2)| != |RatioText(V1_8, r, fixed2)|;
    }
  }
}
