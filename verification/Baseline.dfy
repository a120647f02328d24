/** The baseline tracker of the cell-agents: an online mean and sum of squared deviations. */
module Baseline {
  import opened Moments

  datatype Snapshot = Snapshot(n: nat, mean: real, m2: real)

  const EMPTY := Snapshot(0, 0.0, 0.0)

  function Observed(s: Snapshot, x: real): Snapshot {
    var mean := MeanAfter(s.n, s.mean, x);
    Snapshot(s.n + 1, mean, s.m2 + Spread(x, s.mean, mean))
  }

  function ObservedAll(s: Snapshot, xs: seq<real>): Snapshot {
    if xs == [] then s else Observed(ObservedAll(s, xs[..|xs| - 1]), xs[|xs| - 1])
  }

  /** The snapshot describes these values exactly. */
  predicate Describes(s: Snapshot, xs: seq<real>) {
    s.n == |xs| && IsMean(s.mean, xs) && s.m2 == Deviation(xs, s.mean)
  }

  lemma ObservedDescribes(s: Snapshot, xs: seq<real>, x: real)
    requires Describes(s, xs)
    ensures Describes(Observed(s, x), xs + [x])
  {
    hide IsMean, MeanAfter, Spread, Deviation;
    OneMoreValue(xs, x, s.mean);
  }

  /** From a snapshot of some values, observing more describes all of them, as if never interrupted. */
  lemma {:induction false} ContinuesExactly(s: Snapshot, xs: seq<real>, ys: seq<real>)
    requires Describes(s, xs)
    ensures Describes(ObservedAll(s, ys), xs + ys)
  {
    if ys == [] {
      assert xs + ys == xs;
    } else {
      var most, y := ys[..|ys| - 1], ys[|ys| - 1];
      ContinuesExactly(s, xs, most);
      ObservedDescribes(ObservedAll(s, most), xs + most, y);
      assert xs + most + [y] == xs + ys;
    }
  }

  /** A tracker restored from a snapshot is the tracker that never stopped. */
  lemma RestoredIsTheSame(xs: seq<real>, ys: seq<real>)
    ensures Describes(ObservedAll(EMPTY, xs), xs)
    ensures ObservedAll(ObservedAll(EMPTY, xs), ys) == ObservedAll(EMPTY, xs + ys)
  {
    ContinuesExactly(EMPTY, [], xs);
    assert [] + xs == xs;
    Continued(EMPTY, xs, ys);
  }

  lemma {:induction false} Continued(s: Snapshot, xs: seq<real>, ys: seq<real>)
    ensures ObservedAll(ObservedAll(s, xs), ys) == ObservedAll(s, xs + ys)
  {
    if ys == [] {
      assert xs + ys == xs;
    } else {
      Continued(s, xs, ys[..|ys| - 1]);
      assert (xs + ys)[..|xs + ys| - 1] == xs + ys[..|ys| - 1];
    }
  }

  lemma ObservedRaw(s: Snapshot, x: real)
    ensures var r := Observed(s, x);
            && Total(r.n, r.mean) == Total(s.n, s.mean) + x
            && r.m2 + Mass(r.n, r.mean) == s.m2 + Mass(s.n, s.mean) + Square(x)
  {
    hide Mass, Square, Spread;
    var r := Observed(s, x);
    TotalMoves(s.n, s.mean, x);
    MeanSquares(s.n, s.mean, r.mean, x);
  }

  /** Continuing from any three numbers adds the sum of the values and the sum of their squares, and nothing else. */
  lemma {:induction false} ContinuesFromAnything(s: Snapshot, ys: seq<real>)
    ensures var r := ObservedAll(s, ys);
            && r.n == s.n + |ys| && Total(r.n, r.mean) == Total(s.n, s.mean) + Sum(ys)
            && r.m2 + Mass(r.n, r.mean) == s.m2 + Mass(s.n, s.mean) + SumOfSquares(ys)
  {
    if ys == [] {
    } else {
      hide Total, Mass, Square, Observed;
      var most, y := ys[..|ys| - 1], ys[|ys| - 1];
      ContinuesFromAnything(s, most);
      ObservedRaw(ObservedAll(s, most), y);
      CountsOne(ObservedAll(s, most), y);
    }
  }

  lemma CountsOne(s: Snapshot, x: real)
    ensures Observed(s, x).n == s.n + 1
  {
  }

  lemma ObservedOn(s: Snapshot, xs: seq<real>, x: real)
    ensures ObservedAll(s, xs + [x]) == Observed(ObservedAll(s, xs), x)
  {
    hide Observed;
    assert (xs + [x])[..|xs|] == xs;
  }

  class WelfordTracker {
    var n: nat
    var mean: real
    var m2: real
    ghost var origin: Snapshot
    ghost var seen: seq<real>

    ghost function Value(): Snapshot
      reads this
    {
      Snapshot(n, mean, m2)
    }

    /** The fields are the snapshot the tracker began with, continued by the values seen since. */
    ghost predicate Valid()
      reads this
    {
      Value() == ObservedAll(origin, seen)
    }

    constructor ()
      ensures Valid() && origin == EMPTY && seen == []
    {
      n, mean, m2, origin, seen := 0, 0.0, 0.0, EMPTY, [];
    }

    /** Any three numbers are taken. */
    constructor FromSnapshot(s: Snapshot)
      ensures Valid() && origin == s && seen == []
    {
      n, mean, m2, origin, seen := s.n, s.mean, s.m2, s, [];
    }

    method TakeSnapshot() returns (s: Snapshot)
      requires Valid()
      ensures s == ObservedAll(origin, seen)
    {
      s := Snapshot(n, mean, m2);
    }

    method Reset()
      modifies this
      ensures Valid() && origin == EMPTY && seen == []
    {
      n, mean, m2, origin, seen := 0, 0.0, 0.0, EMPTY, [];
    }

    method Observe(x: real)
      requires Valid()
      modifies this
      ensures Valid() && origin == old(origin) && seen == old(seen) + [x]
    {
      ghost var after := Observed(Value(), x);
      ObservedOn(origin, seen, x);
      n := n + 1;
      var delta := x - mean;
      mean := mean + delta / n as real;
      var delta2 := x - mean;
      m2 := m2 + delta * delta2;
      assert Value() == after;
      hide Observed;
      seen := seen + [x];
    }

    /** Of whatever values the fields describe, the mean of the squared deviations from the mean. */
    method Variance() returns (v: real)
      ensures forall values :: Describes(Value(), values) ==>
                v >= 0.0 && |values| as real * v == Deviation(values, mean)
      ensures n == 0 ==> v == 0.0
    {
      NoneNegative(mean);
      if n == 0 {
        v := 0.0;
      } else {
        v := m2 / n as real;
      }
    }

    method SampleVariance() returns (v: real)
      ensures forall values :: Describes(Value(), values) && |values| >= 2 ==>
                v >= 0.0 && (|values| - 1) as real * v == Deviation(values, mean)
      ensures n < 2 ==> v == 0.0
    {
      NoneNegative(mean);
      if n < 2 {
        v := 0.0;
      } else {
        v := m2 / (n - 1) as real;
      }
    }
  }

  lemma NoneNegative(c: real)
    ensures forall xs :: Deviation(xs, c) >= 0.0
  {
    forall xs ensures Deviation(xs, c) >= 0.0 {
      DeviationIsNonNegative(xs, c);
    }
  }

  /** A tracker over a whole sequence, stopped in the middle and restored from its snapshot. */
  method TrackWithPause(xs: seq<real>, ys: seq<real>) returns (t: WelfordTracker)
    ensures Describes(t.Value(), xs + ys)
  {
    t := new WelfordTracker();
    for i := 0 to |xs|
      invariant t.Valid() && t.origin == EMPTY && t.seen == xs[..i] && fresh(t)
    {
      t.Observe(xs[i]);
    }
    assert xs[..|xs|] == xs;
    var s := t.TakeSnapshot();
    t := new WelfordTracker.FromSnapshot(s);
    for i := 0 to |ys|
      invariant t.Valid() && t.origin == s && t.seen == ys[..i] && fresh(t)
    {
      t.Observe(ys[i]);
    }
    assert ys[..|ys|] == ys;
    RestoredIsTheSame(xs, ys);
    ContinuesExactly(ObservedAll(EMPTY, xs), xs, ys);
  }
}
