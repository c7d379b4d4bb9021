/**
  The piecewise headway model `headway_j`: a target flow rate (vehicles/hour)
  becomes a time gap (seconds) to the next arrival. Seven reference rates each
  carry a fitted Johnson distribution. Below the lowest rate the lowest
  distribution's sample is stretched, above the highest the highest one's
  sample is compressed, and in between the two neighbouring samples are
  interpolated linearly.

  Sampling is not modelled: `s[i]` is the value the distribution of reference
  rate `FRates[i]` produced in this call. Arithmetic is on exact reals.
 */
module Headway {
  import opened Common

  /** Reference flow rates (vehicles/hour) with a fitted headway distribution. */
  const FRates: seq<real> := [60.0, 200.0, 500.0, 800.0, 1100.0, 1400.0, 1700.0]

  /** Longest headway the stretched low-rate branch may return: one 900 s measurement period. */
  const MaxHeadway: real := 900.0

  datatype Family = JohnsonSB | JohnsonSU

  /** A fitted distribution: family, the two shape parameters, location and scale. */
  datatype Dist = Dist(family: Family, a: real, b: real, loc: real, scale: real)

  /** The distribution bound to each reference rate, index for index with `FRates`. */
  const Dists: seq<Dist> := [
    Dist(JohnsonSB, 0.3, 1.8, 0.85, 130.0),
    Dist(JohnsonSB, 0.9, 0.71, 0.85, 60.0),
    Dist(JohnsonSB, 2.49, 0.71, 0.85, 104.57),
    Dist(JohnsonSB, 3.71, 0.98, 0.85, 104.57),
    Dist(JohnsonSU, -2.18, 1.15, 0.8, 0.52),
    Dist(JohnsonSU, -2.54, 1.31, 0.47, 0.46),
    Dist(JohnsonSU, -2.49, 1.49, 0.55, 0.49)
  ]

  /** Johnson SB samples lie strictly inside (loc, loc + scale); Johnson SU samples are unbounded. */
  predicate InSupport(d: Dist, x: real) {
    d.family == JohnsonSU || (d.loc < x < d.loc + d.scale)
  }

  /** Every sample was drawn from the support of the distribution it stands for. */
  predicate SamplesInSupport(s: seq<real>)
    requires |s| == |Dists|
  {
    forall i :: 0 <= i < |s| ==> InSupport(Dists[i], s[i])
  }

  /** `r[i-1] < fr <= r[i]`: bin `i` of the interpolation table holds `fr`. */
  predicate Brackets(i: nat, fr: real) {
    1 <= i < |FRates| && FRates[i - 1] < fr <= FRates[i]
  }

  /**
    The `for i in range(1, len(F_RATES))` search, continued from index `i`:
    the first index `k >= i` with `fr <= FRates[k]`, or `|FRates|` when none.
   */
  function FirstBinFrom(fr: real, i: nat): (k: nat)
    requires 1 <= i <= |FRates|
    ensures i <= k <= |FRates|
    ensures k < |FRates| ==> fr <= FRates[k]
    ensures forall j :: i <= j < k ==> FRates[j] < fr
    decreases |FRates| - i
  {
    if i == |FRates| then i
    else if fr <= FRates[i] then i
    else FirstBinFrom(fr, i + 1)
  }

  /** Position of `fr` between the bin's end points: 0 at the lower rate, 1 at the upper. */
  function Ratio(i: nat, fr: real): real
    requires 1 <= i < |FRates|
  {
    (fr - FRates[i - 1]) / (FRates[i] - FRates[i - 1])
  }

  /** Linear interpolation between two samples. */
  function Lerp(ratio: real, lo: real, hi: real): real {
    (1.0 - ratio) * lo + ratio * hi
  }

  /**
    `headway_j(flow_rate)`. A rate below half the lowest reference rate fails
    the source's assertion; every other rate yields a headway.
   */
  function HeadwayJ(fr: real, s: seq<real>): (r: Result<real, Error>)
    requires |s| == |FRates|
    ensures r.Failure? <==> fr < FRates[0] / 2.0
    ensures r.Failure? ==> r.error == FlowRateTooLow(fr)
  {
    if fr < FRates[0] / 2.0 then Failure(FlowRateTooLow(fr))
    else if fr <= FRates[0] then Success(Min(MaxHeadway, s[0] * FRates[0] / fr))
    else
      var k := FirstBinFrom(fr, 1);
      if k < |FRates| then Success(Max(Lerp(Ratio(k, fr), s[k - 1], s[k]), 0.0))
      else Success(Max(s[|FRates| - 1] * FRates[|FRates| - 1] / fr, 0.0))
  }

  /** The reference rates strictly increase, so the table's bins do not overlap. */
  lemma FRatesIncreasing(a: nat, b: nat)
    requires a < b < |FRates|
    ensures FRates[a] < FRates[b]
  {
  }

  /** At most one bin holds any rate. */
  lemma BracketUnique(i: nat, j: nat, fr: real)
    requires Brackets(i, fr) && Brackets(j, fr)
    ensures i == j
  {
    if i < j {
      FRatesIncreasing(i, j - 1);
    } else if j < i {
      FRatesIncreasing(j, i - 1);
    }
  }

  /** Every rate strictly between the lowest and the highest reference rate (upper end included) lies in some bin. */
  lemma BracketExists(fr: real) returns (i: nat)
    requires FRates[0] < fr <= FRates[|FRates| - 1]
    ensures Brackets(i, fr)
  {
    i := FirstBinFrom(fr, 1);
    assert i < |FRates|;
  }

  /** The first-match loop finds exactly the bracketing bin. */
  lemma FirstBinIsBracket(i: nat, fr: real)
    requires Brackets(i, fr)
    ensures FirstBinFrom(fr, 1) == i
  {
    var k := FirstBinFrom(fr, 1);
    if k < i {
      FRatesIncreasing(k, i - 1);
    }
  }

  /** Inside a bin the interpolation weight lies in (0, 1]. */
  lemma RatioInUnitInterval(i: nat, fr: real)
    requires Brackets(i, fr)
    ensures 0.0 < Ratio(i, fr) <= 1.0
  {
    var lo, hi := FRates[i - 1], FRates[i];
    FRatesIncreasing(i - 1, i);
    assert 0.0 < fr - lo <= hi - lo;
  }

  /** Lower branch: the lowest distribution's sample, stretched by 60/fr and capped at 900 s. */
  lemma HeadwayLowRates(fr: real, s: seq<real>)
    requires |s| == |FRates|
    requires FRates[0] / 2.0 <= fr <= FRates[0]
    ensures HeadwayJ(fr, s) == Success(Min(MaxHeadway, s[0] * FRates[0] / fr))
    ensures HeadwayJ(fr, s).value <= MaxHeadway
  {
  }

  /** Upper branch: the highest distribution's sample, compressed by 1700/fr and floored at 0. */
  lemma HeadwayHighRates(fr: real, s: seq<real>)
    requires |s| == |FRates|
    requires fr > FRates[|FRates| - 1]
    ensures HeadwayJ(fr, s) == Success(Max(s[6] * FRates[6] / fr, 0.0))
    ensures HeadwayJ(fr, s).value >= 0.0
  {
    assert FirstBinFrom(fr, 1) == |FRates|;
  }

  /**
    Interpolation branch: for a rate in bin `i` the headway is the floored
    interpolation between the samples of the bin's two end points.
   */
  lemma HeadwayInterpolates(i: nat, fr: real, s: seq<real>)
    requires |s| == |FRates|
    requires Brackets(i, fr)
    ensures HeadwayJ(fr, s) == Success(Max(Lerp(Ratio(i, fr), s[i - 1], s[i]), 0.0))
    ensures HeadwayJ(fr, s).value >= 0.0
  {
    FirstBinIsBracket(i, fr);
  }

  /** At a reference rate the interpolation collapses onto that rate's own sample. */
  lemma HeadwayAtReferenceRate(i: nat, s: seq<real>)
    requires |s| == |FRates|
    requires 1 <= i < |FRates|
    ensures HeadwayJ(FRates[i], s) == Success(Max(s[i], 0.0))
  {
    FRatesIncreasing(i - 1, i);
    assert Brackets(i, FRates[i]);
    HeadwayInterpolates(i, FRates[i], s);
    assert Ratio(i, FRates[i]) == 1.0;
  }

  /** At the lowest reference rate the stretch factor is 1 and only the 900 s cap remains. */
  lemma HeadwayAtLowestRate(s: seq<real>)
    requires |s| == |FRates|
    ensures HeadwayJ(FRates[0], s) == Success(Min(MaxHeadway, s[0]))
  {
  }

  lemma MulNonNegative(a: real, b: real)
    requires a >= 0.0 && b >= 0.0
    ensures a * b >= 0.0
  {
  }

  /** An interpolated headway lies between the two samples it interpolates. */
  lemma LerpBetween(ratio: real, lo: real, hi: real)
    requires 0.0 <= ratio <= 1.0
    ensures Min(lo, hi) <= Lerp(ratio, lo, hi) <= Max(lo, hi)
  {
    var d := hi - lo;
    assert Lerp(ratio, lo, hi) == lo + ratio * d;
    assert ratio * d + (1.0 - ratio) * d == d;
    if lo <= hi {
      MulNonNegative(ratio, d);
      MulNonNegative(1.0 - ratio, d);
    } else {
      MulNonNegative(ratio, -d);
      MulNonNegative(1.0 - ratio, -d);
    }
  }

  /**
    Whenever the samples come from their distributions' supports, every rate
    up to the fourth reference rate (800 v/h, the last bin bounded by two
    Johnson SB fits) gets a strictly positive headway: the floor at 0 never bites.
   */
  lemma HeadwayPositiveOnBoundedFits(fr: real, s: seq<real>)
    requires |s| == |FRates|
    requires SamplesInSupport(s)
    requires FRates[0] / 2.0 <= fr <= FRates[3]
    ensures HeadwayJ(fr, s).Success?
    ensures HeadwayJ(fr, s).value > 0.0
  {
    assert InSupport(Dists[0], s[0]);
    if fr > FRates[0] {
      var i := BracketExists(fr);
      assert InSupport(Dists[i - 1], s[i - 1]) && InSupport(Dists[i], s[i]);
      HeadwayInterpolates(i, fr, s);
      RatioInUnitInterval(i, fr);
      LerpBetween(Ratio(i, fr), s[i - 1], s[i]);
    } else {
      assert s[0] * FRates[0] / fr > 0.0;
    }
  }
}
