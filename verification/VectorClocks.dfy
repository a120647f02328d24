/** Vector clocks: one counter per replica, compared component by component. */
module VectorClocks {
  import opened Common

  datatype ReplicaId = ReplicaId(uuid: nat)

  datatype Ordering = Less | Equal | Greater

  type Clock = map<ReplicaId, nat>

  /** A replica without an entry counts zero. */
  function Get(c: Clock, r: ReplicaId): nat {
    if r in c then c[r] else 0
  }

  ghost predicate Leq(c: Clock, d: Clock) {
    forall r :: Get(c, r) <= Get(d, r)
  }

  function Tick(c: Clock, r: ReplicaId): Clock {
    c[r := Get(c, r) + 1]
  }

  function Max(a: nat, b: nat): nat {
    if a < b then b else a
  }

  function Merge(c: Clock, d: Clock): Clock {
    map r | r in c.Keys + d.Keys :: Max(Get(c, r), Get(d, r))
  }

  /** The order of two things, given whether each is below the other. */
  function Order(below: bool, above: bool): Option<Ordering> {
    if below && above then Some(Equal)
    else if below then Some(Less)
    else if above then Some(Greater)
    else None
  }

  ghost function Compare(c: Clock, d: Clock): Option<Ordering> {
    Order(Leq(c, d), Leq(d, c))
  }

  /** Merging gives the least clock above both. */
  lemma MergeIsLub(c: Clock, d: Clock, e: Clock)
    ensures Leq(Merge(c, d), e) <==> Leq(c, e) && Leq(d, e)
  {
    forall r
      ensures Get(Merge(c, d), r) == Max(Get(c, r), Get(d, r))
    {
    }
    if Leq(c, e) && Leq(d, e) {
      forall r
        ensures Get(Merge(c, d), r) <= Get(e, r)
      {
        assert Get(c, r) <= Get(e, r) && Get(d, r) <= Get(e, r);
      }
    }
    if Leq(Merge(c, d), e) {
      forall r
        ensures Get(c, r) <= Get(e, r) && Get(d, r) <= Get(e, r)
      {
        assert Get(Merge(c, d), r) <= Get(e, r);
      }
    }
  }

  class VectorClock {
    var counters: Clock

    constructor ()
      ensures counters == map[]
    {
      counters := map[];
    }

    method DoTick(r: ReplicaId) returns (count: nat)
      modifies this
      ensures counters == Tick(old(counters), r) && count == Get(counters, r)
    {
      if r !in counters {
        counters := counters[r := 0];
      }
      counters := counters[r := counters[r] + 1];
      count := counters[r];
    }

    /** The entries of the other clock are visited in any order. */
    method DoMerge(other: Clock)
      modifies this
      ensures counters == Merge(old(counters), other)
    {
      var todo := other.Keys;
      while todo != {}
        invariant todo <= other.Keys
        invariant counters.Keys == old(counters).Keys + (other.Keys - todo)
        invariant forall r :: r in counters ==>
                    counters[r]
                      == if r in todo then Get(old(counters), r) else Max(Get(old(counters), r), Get(other, r))
        decreases todo
      {
        var r :| r in todo;
        if r !in counters {
          counters := counters[r := 0];
        }
        counters := counters[r := Max(counters[r], other[r])];
        todo := todo - {r};
      }
    }

    /** The replicas are visited in any order, stopping at the first sign of concurrency. */
    method PartialCmp(other: Clock) returns (o: Option<Ordering>)
      ensures o == Compare(counters, other)
    {
      var all := counters.Keys + other.Keys;
      var todo := all;
      var hasLess, hasGreater := false, false;
      while todo != {}
        invariant todo <= all
        invariant hasLess <==> exists r :: r in all - todo && Get(counters, r) < Get(other, r)
        invariant hasGreater <==> exists r :: r in all - todo && Get(counters, r) > Get(other, r)
        decreases todo
      {
        var r :| r in todo;
        var seen := all - todo;
        todo := todo - {r};
        assert all - todo == seen + {r};
        if Get(counters, r) < Get(other, r) {
          hasLess := true;
        } else if Get(counters, r) > Get(other, r) {
          hasGreater := true;
        }
        if hasLess && hasGreater {
          assert exists r' :: r' in all - todo && Get(counters, r') < Get(other, r');
          assert exists r' :: r' in all - todo && Get(counters, r') > Get(other, r');
          return None;
        }
      }
      assert all - todo == all;
      assert hasGreater <==> !Leq(counters, other);
      assert hasLess <==> !Leq(other, counters);
      o := if !hasLess && !hasGreater then Some(Equal)
           else if !hasGreater then Some(Less)
           else if !hasLess then Some(Greater)
           else None;
    }
  }
}
