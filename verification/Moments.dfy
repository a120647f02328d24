/** Sums and squared deviations of a sequence of reals: what the online trackers are meant to compute. */
module Moments {
  function Sum(xs: seq<real>): real {
    if xs == [] then 0.0 else Sum(xs[..|xs| - 1]) + xs[|xs| - 1]
  }

  function Square(x: real): (r: real)
    ensures r >= 0.0
  {
    x * x
  }

  function SumOfSquares(xs: seq<real>): real {
    if xs == [] then 0.0 else SumOfSquares(xs[..|xs| - 1]) + Square(xs[|xs| - 1])
  }

  /** The sum of squared deviations from c. */
  function Deviation(xs: seq<real>, c: real): real {
    if xs == [] then 0.0 else Deviation(xs[..|xs| - 1], c) + Square(xs[|xs| - 1] - c)
  }

  lemma {:induction false} DeviationIsNonNegative(xs: seq<real>, c: real)
    ensures Deviation(xs, c) >= 0.0
  {
    if xs != [] { DeviationIsNonNegative(xs[..|xs| - 1], c); }
  }

  function Cross(c: real, x: real): real {
    2.0 * c * x
  }

  /** n times the mean. */
  function Total(n: nat, mean: real): real {
    n as real * mean
  }

  function Mass(n: nat, mean: real): real {
    n as real * (mean * mean)
  }

  /** The mean once x is the value after the first n. */
  function MeanAfter(n: nat, mean: real, x: real): real {
    mean + (x - mean) / (n + 1) as real
  }

  /** How far x is from the old mean times how far it is from the new one. */
  function Spread(x: real, mean: real, mean': real): real {
    (x - mean) * (x - mean')
  }

  predicate IsMean(mean: real, xs: seq<real>) {
    Total(|xs|, mean) == Sum(xs)
  }

  lemma Squares(n: nat, sum: real, x: real, c: real)
    ensures Square(x - c) == Square(x) - Cross(c, x) + Square(c)
    ensures Cross(c, sum + x) == Cross(c, sum) + Cross(c, x)
    ensures Mass(n + 1, c) == Mass(n, c) + Square(c)
  {
  }

  /** Deviations from any centre, from the sums alone. */
  lemma {:induction false} DeviationFromSums(xs: seq<real>, c: real)
    ensures Deviation(xs, c) == SumOfSquares(xs) - Cross(c, Sum(xs)) + Mass(|xs|, c)
  {
    if xs == [] {
    } else {
      hide Square, Cross, Mass;
      var most, x := xs[..|xs| - 1], xs[|xs| - 1];
      DeviationFromSums(most, c);
      Squares(|most|, Sum(most), x, c);
    }
  }

  lemma DeviationFromMean(xs: seq<real>, mean: real)
    requires IsMean(mean, xs)
    ensures Deviation(xs, mean) == SumOfSquares(xs) - Mass(|xs|, mean)
  {
    hide Square, Cross, Mass, Total;
    DeviationFromSums(xs, mean);
    CrossOfTotal(|xs|, mean);
  }

  lemma CrossOfTotal(n: nat, mean: real)
    ensures Cross(mean, Total(n, mean)) == 2.0 * Mass(n, mean)
  {
  }

  lemma TotalMoves(n: nat, mean: real, x: real)
    ensures Total(n + 1, MeanAfter(n, mean, x)) == Total(n, mean) + x
    ensures (n as real + 1.0) * MeanAfter(n, mean, x) == n as real * mean + x
  {
    var k, mean' := n as real, MeanAfter(n, mean, x);
    assert (k + 1.0) * mean' == (k + 1.0) * mean + (x - mean);
  }

  lemma MeanMoves(xs: seq<real>, x: real, mean: real)
    requires IsMean(mean, xs)
    ensures IsMean(MeanAfter(|xs|, mean, x), xs + [x])
    ensures (|xs| as real + 1.0) * MeanAfter(|xs|, mean, x) == |xs| as real * mean + x
  {
    assert (xs + [x])[..|xs|] == xs;
    TotalMoves(|xs|, mean, x);
    hide Total, MeanAfter;
  }

  /** The step every online tracker takes: a new value moves the mean, and adds its spread to the deviation. */
  lemma OneMoreValue(xs: seq<real>, x: real, mean: real)
    requires IsMean(mean, xs)
    ensures IsMean(MeanAfter(|xs|, mean, x), xs + [x])
    ensures Deviation(xs + [x], MeanAfter(|xs|, mean, x))
              == Deviation(xs, mean) + Spread(x, mean, MeanAfter(|xs|, mean, x))
  {
    hide Square, Mass, Spread, MeanAfter, IsMean, Deviation;
    var all, mean' := xs + [x], MeanAfter(|xs|, mean, x);
    assert all[..|xs|] == xs;
    MeanMoves(xs, x, mean);
    MeanSquares(|xs|, mean, mean', x);
    DeviationFromMean(xs, mean);
    DeviationFromMean(all, mean');
    assert SumOfSquares(all) == SumOfSquares(xs) + Square(x);
  }

  lemma MeanSquares(n: nat, m: real, m': real, x: real)
    requires (n as real + 1.0) * m' == n as real * m + x
    ensures Square(x) + Mass(n, m) - Mass(n + 1, m') == Spread(x, m, m')
  {
    var k := n as real;
    assert (k + 1.0) * (m' * m') == (k * m + x) * m';
    assert ((k + 1.0) * m') * m == (k * m + x) * m;
  }
}
