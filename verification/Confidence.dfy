/** A confidence distribution over [0, 1], updated one observation at a time. */
module Confidence {
  import opened Common
  import opened Moments

  const U64_MAX: nat := 0xFFFF_FFFF_FFFF_FFFF

  datatype Snapshot = Snapshot(mean: real, variance: real, observations: nat)

  predicate AllInUnit(xs: seq<real>) {
    forall i :: 0 <= i < |xs| ==> InUnit(xs[i])
  }

  function Clamp(x: real): real {
    if x < 0.0 then 0.0 else if x > 1.0 then 1.0 else x
  }

  /** Of all points in range, clamping takes the nearest. */
  lemma ClampIsNearest(x: real, y: real)
    requires InUnit(y)
    ensures InUnit(Clamp(x)) && (InUnit(x) ==> Clamp(x) == x)
    ensures (x <= Clamp(x) <= y) || (y <= Clamp(x) <= x)
  {
  }

  /** The count saturates. */
  function Counted(d: Snapshot): nat {
    if d.observations < U64_MAX then d.observations + 1 else U64_MAX
  }

  function NewMean(d: Snapshot, value: real): real {
    MeanAfter(Counted(d) - 1, d.mean, value)
  }

  function NewVariance(n: nat, before: real, spread: real): real {
    (n as real * before + spread) / (n + 1) as real
  }

  function Observed(d: Snapshot, value: real): Snapshot {
    var mean := NewMean(d, value);
    Snapshot(Clamp(mean), NewVariance(Counted(d) - 1, d.variance, Spread(value, d.mean, mean)), Counted(d))
  }

  function ObservedAll(d: Snapshot, values: seq<real>): Snapshot {
    if values == [] then d else Observed(ObservedAll(d, values[..|values| - 1]), values[|values| - 1])
  }

  lemma ProductIsNonNegative(a: real, b: real)
    requires a >= 0.0 && b >= 0.0
    ensures a * b >= 0.0
  {
  }

  lemma SquareBelow(x: real)
    requires InUnit(x)
    ensures Square(x) <= x
  {
    ProductIsNonNegative(x, 1.0 - x);
    assert x * (1.0 - x) == x - x * x;
  }

  lemma {:induction false} SumsInUnit(xs: seq<real>)
    requires AllInUnit(xs)
    ensures 0.0 <= SumOfSquares(xs) <= Sum(xs) <= |xs| as real
  {
    if xs != [] {
      var most, x := xs[..|xs| - 1], xs[|xs| - 1];
      SumsInUnit(most);
      SquareBelow(x);
      hide Square;
      assert SumOfSquares(xs) == SumOfSquares(most) + Square(x) && Sum(xs) == Sum(most) + x;
    }
  }

  lemma MeanInUnit(xs: seq<real>, mean: real)
    requires AllInUnit(xs) && xs != [] && IsMean(mean, xs)
    ensures InUnit(mean)
  {
    SumsInUnit(xs);
  }

  /** The mean and population variance of the values themselves. */
  predicate IsTrue(d: Snapshot, values: seq<real>) {
    && d.observations == |values|
    && IsMean(d.mean, values)
    && Total(|values|, d.variance) == Deviation(values, d.mean)
  }

  /** The first value is taken as it is: the prior has no weight. */
  lemma FirstIsTrue(d: Snapshot, value: real)
    requires d.observations == 0 && InUnit(value)
    ensures NewMean(d, value) == value && Observed(d, value) == Snapshot(value, 0.0, 1)
    ensures IsTrue(Snapshot(value, 0.0, 1), [value])
  {
    assert [value][..0] == [] && Sum([]) == 0.0 && Deviation([], value) == 0.0;
    assert Sum([value]) == value && Deviation([value], value) == 0.0;
  }

  lemma VarianceTotals(n: nat, before: real, spread: real)
    ensures Total(n + 1, NewVariance(n, before, spread)) == Total(n, before) + spread
  {
  }

  lemma NextIsTrue(d: Snapshot, values: seq<real>, value: real)
    requires values != [] && |values| < U64_MAX && AllInUnit(values) && InUnit(value) && IsTrue(d, values)
    ensures IsTrue(Observed(d, value), values + [value])
    ensures InUnit(NewMean(d, value)) && Observed(d, value).mean == NewMean(d, value)
  {
    hide IsMean, Total, MeanAfter, Spread, NewVariance, Deviation;
    var mean := NewMean(d, value);
    OneMoreValue(values, value, d.mean);
    MeanInUnit(values + [value], mean);
    VarianceTotals(|values|, d.variance, Spread(value, d.mean, mean));
  }

  /** From no observations the distribution is the true mean and variance of what was observed, whatever the prior. */
  lemma {:induction false} ObservedIsTrue(prior: Snapshot, values: seq<real>)
    requires prior.observations == 0 && AllInUnit(values) && 1 <= |values| <= U64_MAX
    ensures IsTrue(ObservedAll(prior, values), values)
  {
    var most, value := values[..|values| - 1], values[|values| - 1];
    hide Observed;
    assert most + [value] == values;
    if most == [] {
      FirstIsTrue(prior, value);
    } else {
      ObservedIsTrue(prior, most);
      NextIsTrue(ObservedAll(prior, most), most, value);
    }
  }

  lemma MeanMoves(n: nat, mean: real, x: real)
    requires InUnit(mean) && InUnit(x)
    ensures InUnit(MeanAfter(n, mean, x))
    ensures (n + 1) as real * (MeanAfter(n, mean, x) - mean) == x - mean
  {
    var k, step := (n + 1) as real, (x - mean) / (n + 1) as real;
    assert k * step == x - mean;
    if x >= mean {
      Between(k, step, x - mean);
    } else {
      assert k * (-step) == mean - x;
      Between(k, -step, mean - x);
    }
  }

  /** A share of a distance is no longer than the distance. */
  lemma Between(k: real, step: real, way: real)
    requires k >= 1.0 && k * step == way >= 0.0
    ensures 0.0 <= step <= way
  {
    if step < 0.0 { ProductIsNonNegative(k, -step); }
    if step >= 0.0 { ProductIsNonNegative(k - 1.0, step); }
  }

  /**
   One observation in numbers, whatever the distribution: the count goes up to its limit, and at the limit stays; the
   mean moves the n-th part of the way to the value, n being the new count, and so never leaves the range; and n times
   the variance grows by the product of the distances to the old and the new mean, less one old variance.
   */
  lemma ObservedIs(d: Snapshot, value: real)
    requires InUnit(d.mean) && InUnit(value) && d.observations <= U64_MAX
    ensures var r := Observed(d, value);
            && r.observations == (if d.observations == U64_MAX then U64_MAX else d.observations + 1)
            && InUnit(r.mean) && r.observations as real * (r.mean - d.mean) == value - d.mean
            && r.observations as real * r.variance
               == (r.observations - 1) as real * d.variance + (value - d.mean) * (value - r.mean)
  {
    var r, n := Observed(d, value), Counted(d) - 1;
    MeanMoves(n, d.mean, value);
    hide MeanAfter;
    assert r.mean == NewMean(d, value);
    VarianceTimes(n, d.variance, Spread(value, d.mean, r.mean));
  }

  lemma VarianceTimes(n: nat, before: real, spread: real)
    ensures (n + 1) as real * NewVariance(n, before, spread) == n as real * before + spread
  {
  }

  lemma QuarterBound(n: nat, mean: real)
    ensures Total(n, mean) - Mass(n, mean) <= Total(n, 0.25)
  {
    Squares(0, 0.0, mean, 0.5);
    var k, gap := n as real, 0.25 - (mean - mean * mean);
    assert gap >= 0.0 by { assert Square(mean - 0.5) == gap; }
    ProductIsNonNegative(k, gap);
    assert k * gap == k * 0.25 - (k * mean - k * (mean * mean));
  }

  lemma TotalsCompare(n: nat, a: real, b: real)
    requires n > 0 && Total(n, a) <= Total(n, b)
    ensures a <= b
  {
  }

  /** The variance of values in [0, 1] is never more than a quarter. */
  lemma VarianceAtMostQuarter(d: Snapshot, values: seq<real>)
    requires IsTrue(d, values) && AllInUnit(values) && values != []
    ensures 0.0 <= d.variance <= 0.25
  {
    var n := |values|;
    assert Total(n, 0.0) == 0.0;
    hide Total, Mass;
    DeviationIsNonNegative(values, d.mean);
    DeviationFromMean(values, d.mean);
    SumsInUnit(values);
    QuarterBound(n, d.mean);
    TotalsCompare(n, 0.0, d.variance);
    TotalsCompare(n, d.variance, 0.25);
  }

  class Distribution {
    var mean: real
    var variance: real
    var observations: nat

    ghost function Value(): Snapshot
      reads this
    {
      Snapshot(mean, variance, observations)
    }

    /** The source asserts the ranges of a new distribution. */
    constructor (mean: real, variance: real)
      requires InUnit(mean) && variance >= 0.0
      ensures Value() == Snapshot(mean, variance, 0)
    {
      this.mean, this.variance, observations := mean, variance, 0;
    }

    method Observe(value: real)
      requires InUnit(value) && observations <= U64_MAX
      modifies this
      ensures Value() == Observed(old(Value()), value)
    {
      if observations < U64_MAX {
        observations := observations + 1;
      }
      var n := observations as real;
      var oldMean := mean;
      mean := mean + (value - oldMean) / n;
      variance := ((n - 1.0) * variance + (value - oldMean) * (value - mean)) / n;
      mean := Clamp(mean);
    }
  }

  /** Observing a whole sequence on a fresh distribution. */
  method ObserveEach(d: Distribution, values: seq<real>)
    requires d.observations == 0 && AllInUnit(values) && 1 <= |values| <= U64_MAX
    modifies d
    ensures IsTrue(d.Value(), values) && 0.0 <= d.variance <= 0.25
  {
    ghost var prior := d.Value();
    for i := 0 to |values|
      invariant d.Value() == ObservedAll(prior, values[..i])
      invariant d.observations <= U64_MAX
    {
      assert values[..i + 1][..i] == values[..i];
      d.Observe(values[i]);
    }
    assert values[..|values|] == values;
    ObservedIsTrue(prior, values);
    VarianceAtMostQuarter(d.Value(), values);
  }
}
