/**
 Whole runs of the aggregation layer. The layer forgets: it evicts what left its windows and clears what
 a convergence or an escalation consumed. An evaluator that forgets nothing answers the same.
 */
module AggregationRuns {
  import opened Common
  import opened Aggregation

  datatype Event =
    | ModeSet(region: Region, mode: Mode, at: nat)
    | Observed(region: Region, o: Observation, k: Readings)

  function Begin(e: Event): nat {
    if e.ModeSet? then e.at else e.k.entry
  }

  function End(e: Event): nat {
    if e.ModeSet? then e.at else e.k.prune
  }

  predicate Forward(e: Event) {
    e.Observed? ==> e.k.entry <= e.k.evict <= e.k.converge <= e.k.prune
  }

  /** Calls on one region follow each other; calls on different regions may overlap. */
  ghost predicate Ordered(es: seq<Event>) {
    && (forall e <- es :: Forward(e))
    && (forall i, j :: 0 <= i < j < |es| && es[i].region == es[j].region ==> End(es[i]) <= Begin(es[j]))
  }

  function Step(c: Config, states: map<Region, RegionState>, e: Event): map<Region, RegionState> {
    var s := StateOf(states, e.region);
    states[e.region := match e
                       case ModeSet(_, mode, at) => SetMode(s, mode, at)
                       case Observed(_, o, k) => After(c, s, o, k)]
  }

  function States(c: Config, es: seq<Event>): map<Region, RegionState> {
    if es == [] then map[] else Step(c, States(c, es[..|es| - 1]), es[|es| - 1])
  }

  /** What the layer answers to an observation after a run. */
  function Reply(c: Config, es: seq<Event>, region: Region, o: Observation, k: Readings): Outcome {
    Answer(c, region, StateOf(States(c, es), region), o, k)
  }

  // ----- the evaluator that keeps everything -----

  /** Every observation and every convergence of one region, and how many of each have been consumed. */
  datatype Full = Full(
    observations: seq<Observation>,
    spent: nat,
    convergences: seq<Convergence>,
    used: nat,
    mode: Option<Mode>,
    disabledAt: Option<nat>)

  predicate Bounded(f: Full) {
    f.spent <= |f.observations| && f.used <= |f.convergences|
  }

  /** Observations since the last convergence, inside the convergence window. */
  function Live(c: Config, f: Full, o: Observation, k: Readings): seq<Observation>
    requires Bounded(f)
  {
    Retain(f.observations[f.spent..] + [o], c.convergenceWindow, k.evict)
  }

  /** Convergences since the last escalation, inside the escalation window. */
  function Recent(c: Config, f: Full, o: Observation, k: Readings): seq<Convergence>
    requires Bounded(f)
  {
    Retain(f.convergences[f.used..] + [Stamped(k.converge, FindingOf(Live(c, f, o, k)))], c.escalationWindow, k.prune)
  }

  predicate FullConverges(c: Config, f: Full, o: Observation, k: Readings)
    requires Bounded(f)
  {
    EffectiveMode(c, f.mode, f.disabledAt, k.entry) != Disabled && |Specs(Live(c, f, o, k))| >= c.convergenceN
  }

  function FullAnswer(c: Config, region: Region, f: Full, o: Observation, k: Readings): Outcome
    requires Bounded(f)
  {
    if !FullConverges(c, f, o, k) then Quiet
    else
      var recent := Recent(c, f, o, k);
      if Qualifies(c, recent)
      then
        EscalateP53Region(
          region, AllSources(recent), AllSpecs(recent), EffectiveMode(c, f.mode, f.disabledAt, k.entry))
      else ConvergedAnomaly(region, FindingOf(Live(c, f, o, k)))
  }

  function FullAfter(c: Config, f: Full, o: Observation, k: Readings): (r: Full)
    requires Bounded(f)
    ensures Bounded(r)
  {
    var all := f.observations + [o];
    if !FullConverges(c, f, o, k) then f.(observations := all)
    else
      var convergences := f.convergences + [Stamped(k.converge, FindingOf(Live(c, f, o, k)))];
      f.(observations := all, spent := |all|, convergences := convergences,
         used := if Qualifies(c, Recent(c, f, o, k)) then |convergences| else f.used)
  }

  /** Only the region's own events count. */
  function History(c: Config, es: seq<Event>, region: Region): (f: Full)
    ensures Bounded(f)
  {
    if es == [] then Full([], 0, [], 0, None, None)
    else
      var f := History(c, es[..|es| - 1], region);
      match es[|es| - 1]
      case ModeSet(r, mode, at) =>
        if r == region then f.(mode := Some(mode), disabledAt := if mode == Disabled then Some(at) else None) else f
      case Observed(r, o, k) =>
        if r == region then FullAfter(c, f, o, k) else f
  }

  // ----- the two agree -----

  lemma {:induction false} RetainOn<T>(xs: seq<Stamped<T>>, ys: seq<Stamped<T>>, window: nat, now: nat)
    ensures Retain(xs + ys, window, now) == Retain(xs, window, now) + Retain(ys, window, now)
  {
    if ys == [] {
      assert xs + ys == xs;
    } else {
      var most := ys[..|ys| - 1];
      RetainOn(xs, most, window, now);
      assert (xs + ys)[..|xs + ys| - 1] == xs + most;
    }
  }

  /** Evicting early loses nothing that a later window would keep. */
  lemma {:induction false} RetainLater<T>(xs: seq<Stamped<T>>, window: nat, now: nat, later: nat)
    requires now <= later
    ensures Retain(Retain(xs, window, now), window, later) == Retain(xs, window, later)
  {
    if xs == [] {
    } else {
      var most, last := xs[..|xs| - 1], xs[|xs| - 1];
      RetainLater(most, window, now, later);
      var kept := if now < window || last.at >= now - window then [last] else [];
      RetainOn(Retain(most, window, now), kept, window, later);
      RetainOne(last, window, later);
    }
  }

  lemma RetainOne<T>(x: Stamped<T>, window: nat, now: nat)
    ensures Retain([x], window, now) == if now < window || x.at >= now - window then [x] else []
    ensures Retain<T>([], window, now) == []
  {
    assert [x][..0] == [];
  }

  /** From now on no window can tell what is held from the full record. */
  ghost predicate SameLater<T(!new)>(held: seq<Stamped<T>>, all: seq<Stamped<T>>, window: nat, now: nat) {
    forall t: nat :: t >= now ==> Retain(held, window, t) == Retain(all, window, t)
  }

  lemma SameOnceEvicted<T(!new)>(
    held: seq<Stamped<T>>, all: seq<Stamped<T>>, x: Stamped<T>, window: nat, now: nat, evict: nat)
    requires SameLater(held, all, window, now) && now <= evict
    ensures Retain(held + [x], window, evict) == Retain(all + [x], window, evict)
    ensures SameLater(Retain(held + [x], window, evict), all + [x], window, evict)
  {
    RetainOn(held, [x], window, evict);
    RetainOn(all, [x], window, evict);
    forall t: nat | t >= evict
      ensures Retain(Retain(held + [x], window, evict), window, t) == Retain(all + [x], window, t)
    {
      RetainLater(all + [x], window, evict, t);
    }
  }

  ghost predicate Agrees(c: Config, s: RegionState, f: Full, now: nat)
    requires Bounded(f)
  {
    && SameLater(s.observations, f.observations[f.spent..], c.convergenceWindow, now)
    && SameLater(s.converged, f.convergences[f.used..], c.escalationWindow, now)
    && s.mode == f.mode && s.disabledAt == f.disabledAt
  }

  lemma AgreesLater(c: Config, s: RegionState, f: Full, now: nat, later: nat)
    requires Bounded(f) && Agrees(c, s, f, now) && now <= later
    ensures Agrees(c, s, f, later)
  {
  }

  lemma ObserveAgrees(c: Config, region: Region, s: RegionState, f: Full, o: Observation, k: Readings)
    requires Bounded(f) && Agrees(c, s, f, k.entry) && k.entry <= k.evict <= k.converge <= k.prune
    ensures Answer(c, region, s, o, k) == FullAnswer(c, region, f, o, k)
    ensures Agrees(c, After(c, s, o, k), FullAfter(c, f, o, k), k.prune)
  {
    hide Retain, EffectiveMode, Specs, Sources, Damage, AllSources, AllSpecs, Qualifies;
    var live, f' := f.observations[f.spent..], FullAfter(c, f, o, k);
    SameOnceEvicted(s.observations, live, o, c.convergenceWindow, k.entry, k.evict);
    assert Windowed(c, s, o, k) == Live(c, f, o, k);
    if !FullConverges(c, f, o, k) {
      assert f'.observations[f'.spent..] == live + [o];
    } else {
      var found := Stamped(k.converge, FindingOf(Live(c, f, o, k)));
      var recent := f.convergences[f.used..];
      SameOnceEvicted(s.converged, recent, found, c.escalationWindow, k.entry, k.prune);
      assert Held(c, s, o, k) == Recent(c, f, o, k);
      assert f'.observations[f'.spent..] == [];
      assert f'.convergences[f'.used..] == if Qualifies(c, Recent(c, f, o, k)) then [] else recent + [found];
    }
  }

  lemma {:induction false} RunAgrees(c: Config, es: seq<Event>, region: Region, now: nat)
    requires Ordered(es) && forall e <- es :: e.region == region ==> End(e) <= now
    ensures Agrees(c, StateOf(States(c, es), region), History(c, es, region), now)
  {
    hide Agrees, After, FullAfter;
    if es == [] {
      assert Agrees(c, NEW_REGION, Full([], 0, [], 0, None, None), now) by { AgreesAtStart(c, now); }
    } else {
      var most, e := es[..|es| - 1], es[|es| - 1];
      assert e in es;
      forall x | x in most ensures x in es && (x.region == e.region ==> End(x) <= Begin(e)) {
        var i :| 0 <= i < |most| && most[i] == x;
        assert es[i] == x;
      }
      if e.region != region {
        RunAgrees(c, most, region, now);
      } else {
        RunAgrees(c, most, region, Begin(e));
        var s, f := StateOf(States(c, most), region), History(c, most, region);
        match e
        case ModeSet(_, mode, at) =>
          ModeAgrees(c, s, f, mode, at, now);
        case Observed(_, o, k) =>
          ObserveAgrees(c, region, s, f, o, k);
          AgreesLater(c, After(c, s, o, k), FullAfter(c, f, o, k), k.prune, now);
      }
    }
  }

  lemma AgreesAtStart(c: Config, now: nat)
    ensures Agrees(c, NEW_REGION, Full([], 0, [], 0, None, None), now)
  {
  }

  lemma ModeAgrees(c: Config, s: RegionState, f: Full, mode: Mode, at: nat, now: nat)
    requires Bounded(f) && Agrees(c, s, f, at) && at <= now
    ensures var f' := f.(mode := Some(mode), disabledAt := if mode == Disabled then Some(at) else None);
            Agrees(c, SetMode(s, mode, at), f', now)
  {
    hide Retain;
  }

  /** Windowing and clearing change no answer: the layer replies as if nothing had ever been dropped. */
  lemma ForgettingIsHarmless(c: Config, es: seq<Event>, region: Region, o: Observation, k: Readings)
    requires Ordered(es + [Observed(region, o, k)])
    ensures Reply(c, es, region, o, k) == FullAnswer(c, region, History(c, es, region), o, k)
  {
    hide Retain, Agrees, Answer, FullAnswer;
    var all := es + [Observed(region, o, k)];
    assert all[|es|] == Observed(region, o, k);
    forall e | e in es ensures e in all && (e.region == region ==> End(e) <= k.entry) {
      var i :| 0 <= i < |es| && es[i] == e;
      assert all[i] == e;
    }
    assert Ordered(es) by {
      forall i, j | 0 <= i < j < |es| && es[i].region == es[j].region ensures End(es[i]) <= Begin(es[j]) {
        assert all[i] == es[i] && all[j] == es[j];
      }
    }
    assert Forward(all[|es|]);
    RunAgrees(c, es, region, k.entry);
    ObserveAgrees(c, region, StateOf(States(c, es), region), History(c, es, region), o, k);
  }

  function Only(es: seq<Event>, region: Region): seq<Event> {
    if es == [] then []
    else Only(es[..|es| - 1], region) + if es[|es| - 1].region == region then [es[|es| - 1]] else []
  }

  /** Calls on other regions change no reply. */
  lemma {:induction false} RegionsAreApart(c: Config, es: seq<Event>, region: Region)
    ensures StateOf(States(c, es), region) == StateOf(States(c, Only(es, region)), region)
  {
    if es == [] {
    } else {
      var most, e := es[..|es| - 1], es[|es| - 1];
      RegionsAreApart(c, most, region);
      if e.region == region {
        assert Only(es, region)[..|Only(es, region)| - 1] == Only(most, region);
      } else {
        assert Only(es, region) == Only(most, region);
      }
    }
  }

  // ----- conservation over a run -----

  predicate IsObservation(e: Event, region: Region) {
    e.Observed? && e.region == region
  }

  predicate ConvergedAt(c: Config, es: seq<Event>, region: Region, e: Event) {
    IsObservation(e, region) && Reply(c, es, region, e.o, e.k) != Quiet
  }

  predicate EscalatedAt(c: Config, es: seq<Event>, region: Region, e: Event) {
    IsObservation(e, region) && Reply(c, es, region, e.o, e.k).EscalateP53Region?
  }

  function ObservationCount(es: seq<Event>, region: Region): nat {
    if es == [] then 0
    else ObservationCount(es[..|es| - 1], region) + if IsObservation(es[|es| - 1], region) then 1 else 0
  }

  function ConvergenceCount(c: Config, es: seq<Event>, region: Region): nat {
    if es == [] then 0
    else
      ConvergenceCount(c, es[..|es| - 1], region)
        + if ConvergedAt(c, es[..|es| - 1], region, es[|es| - 1]) then 1 else 0
  }

  function EscalationCount(c: Config, es: seq<Event>, region: Region): nat {
    if es == [] then 0
    else
      EscalationCount(c, es[..|es| - 1], region)
        + if EscalatedAt(c, es[..|es| - 1], region, es[|es| - 1]) then 1 else 0
  }

  /** The source nodes of every observation made on the region. */
  function Recorded(es: seq<Event>, region: Region): multiset<LineageId> {
    if es == [] then multiset{}
    else
      Recorded(es[..|es| - 1], region)
        + if IsObservation(es[|es| - 1], region) then multiset{es[|es| - 1].o.what.source} else multiset{}
  }

  /** The sources of every convergence found on the region. */
  function Consumed(c: Config, es: seq<Event>, region: Region): multiset<LineageId> {
    if es == [] then multiset{}
    else
      var most, e := es[..|es| - 1], es[|es| - 1];
      Consumed(c, most, region)
        + if ConvergedAt(c, most, region, e)
          then multiset(Sources(Windowed(c, StateOf(States(c, most), region), e.o, e.k))) else multiset{}
  }

  /** The sources reported by every escalation of the region. */
  function Escalated(c: Config, es: seq<Event>, region: Region): multiset<LineageId> {
    if es == [] then multiset{}
    else
      var most, e := es[..|es| - 1], es[|es| - 1];
      Escalated(c, most, region)
        + if EscalatedAt(c, most, region, e) then multiset(Reply(c, most, region, e.o, e.k).sources) else multiset{}
  }

  lemma {:induction false} RetainSources(xs: seq<Observation>, window: nat, now: nat)
    ensures multiset(Sources(Retain(xs, window, now))) <= multiset(Sources(xs))
  {
    if xs == [] {
    } else {
      RetainSources(xs[..|xs| - 1], window, now);
      SourcesOn(Retain(xs[..|xs| - 1], window, now), xs[|xs| - 1]);
      assert Retain(xs[..|xs| - 1], window, now) + [] == Retain(xs[..|xs| - 1], window, now);
    }
  }

  lemma SourcesOn(xs: seq<Observation>, x: Observation)
    ensures Sources(xs + [x]) == Sources(xs) + [x.what.source]
  {
    assert (xs + [x])[..|xs|] == xs;
  }

  lemma {:induction false} RetainAllSources(xs: seq<Convergence>, window: nat, now: nat)
    ensures multiset(AllSources(Retain(xs, window, now))) <= multiset(AllSources(xs))
  {
    if xs == [] {
    } else {
      RetainAllSources(xs[..|xs| - 1], window, now);
      AllSourcesOn(Retain(xs[..|xs| - 1], window, now), xs[|xs| - 1]);
      assert Retain(xs[..|xs| - 1], window, now) + [] == Retain(xs[..|xs| - 1], window, now);
    }
  }

  lemma AllSourcesOn(xs: seq<Convergence>, x: Convergence)
    ensures AllSources(xs + [x]) == AllSources(xs) + x.what.sources
  {
    assert (xs + [x])[..|xs|] == xs;
  }

  /** There are at most as many specializations as observations. */
  lemma {:induction false} SpecsBounded(obs: seq<Observation>)
    ensures |Specs(obs)| <= |obs|
  {
    if obs == [] {
      assert Specs(obs) == {};
    } else {
      var n := |obs| - 1;
      SpecsBounded(obs[..n]);
      OneMore(obs, n);
      assert obs[..n + 1] == obs;
    }
  }

  /** One observation is spent on one convergence at most, and on none of the later ones. */
  lemma ObserveConserves(c: Config, s: RegionState, o: Observation, k: Readings)
    ensures var s', live := After(c, s, o, k), Windowed(c, s, o, k);
            && multiset(Sources(live)) <= multiset(Sources(s.observations)) + multiset{o.what.source}
            && if Converges(c, s, o, k)
               then c.convergenceN + |s'.observations| <= |s.observations| + 1 && s'.observations == []
               else |s'.observations| <= |s.observations| + 1 && s'.observations == live && s'.converged == s.converged
  {
    var live := Windowed(c, s, o, k);
    SpecsBounded(live);
    RetainSources(s.observations + [o], c.convergenceWindow, k.evict);
    SourcesOn(s.observations, o);
  }

  lemma ConvergeConserves(c: Config, s: RegionState, o: Observation, k: Readings)
    requires Converges(c, s, o, k)
    ensures var s', held, live := After(c, s, o, k), Held(c, s, o, k), Windowed(c, s, o, k);
            && multiset(AllSources(held)) <= multiset(AllSources(s.converged)) + multiset(Sources(live))
            && if Qualifies(c, held)
               then c.escalationM + |s'.converged| <= |s.converged| + 1 && s'.converged == []
               else |s'.converged| <= |s.converged| + 1 && s'.converged == held
  {
    hide Retain, AnyDamage, Damage, Specs, AllSources, Sources, EffectiveMode;
    var found := Stamped(k.converge, FindingOf(Windowed(c, s, o, k)));
    RetainAllSources(s.converged + [found], c.escalationWindow, k.prune);
    AllSourcesOn(s.converged, found);
  }

  /** What the last call of a run did to the region. */
  lemma LastCall(c: Config, es: seq<Event>, region: Region)
    requires es != []
    ensures var most, e := es[..|es| - 1], es[|es| - 1];
            var s := StateOf(States(c, most), region);
            if IsObservation(e, region) then
              && StateOf(States(c, es), region) == After(c, s, e.o, e.k)
              && (ConvergedAt(c, most, region, e) <==> Converges(c, s, e.o, e.k))
              && (EscalatedAt(c, most, region, e) <==> Converges(c, s, e.o, e.k) && Qualifies(c, Held(c, s, e.o, e.k)))
              && (EscalatedAt(c, most, region, e) ==>
                    Reply(c, most, region, e.o, e.k).sources == AllSources(Held(c, s, e.o, e.k)))
            else
              && !ConvergedAt(c, most, region, e) && !EscalatedAt(c, most, region, e)
              && StateOf(States(c, es), region).observations == s.observations
              && StateOf(States(c, es), region).converged == s.converged
  {
    hide Converges, Qualifies, Held, AllSources, AllSpecs, Windowed;
  }

  /** A ledger where each withdrawal takes n: paid out so far and still held never exceed what came in. */
  lemma Balance(n: nat, paid: nat, paid': nat, held: nat, held': nat, total: nat, total': nat)
    requires n * paid + held <= total
    requires || (paid' == paid && held' <= held + total' - total)
             || (paid' == paid + 1 && n + held' <= held + total' - total)
    ensures n * paid' + held' <= total'
  {
    assert n * (paid + 1) == n * paid + n;
  }

  /** N observations are spent per convergence. */
  lemma {:induction false} ObservationsSpent(c: Config, es: seq<Event>, region: Region)
    ensures c.convergenceN * ConvergenceCount(c, es, region) + |StateOf(States(c, es), region).observations|
              <= ObservationCount(es, region)
  {
    if es == [] {
    } else {
      var most, e := es[..|es| - 1], es[|es| - 1];
      var s := StateOf(States(c, most), region);
      ObservationsSpent(c, most, region);
      LastCall(c, es, region);
      hide States, After, ConvergedAt, EscalatedAt, Converges, Windowed, Held, Qualifies, Sources, AllSources, Reply;
      if IsObservation(e, region) { ObserveConserves(c, s, e.o, e.k); }
      Balance(c.convergenceN, ConvergenceCount(c, most, region), ConvergenceCount(c, es, region),
        |s.observations|, |StateOf(States(c, es), region).observations|,
        ObservationCount(most, region), ObservationCount(es, region));
    }
  }

  /** M convergences are spent per escalation. */
  lemma {:induction false} ConvergencesSpent(c: Config, es: seq<Event>, region: Region)
    ensures c.escalationM * EscalationCount(c, es, region) + |StateOf(States(c, es), region).converged|
              <= ConvergenceCount(c, es, region)
  {
    if es == [] {
    } else {
      var most, e := es[..|es| - 1], es[|es| - 1];
      var s := StateOf(States(c, most), region);
      ConvergencesSpent(c, most, region);
      LastCall(c, es, region);
      hide States, After, ConvergedAt, EscalatedAt, Converges, Windowed, Held, Qualifies, Sources, AllSources, Reply;
      if IsObservation(e, region) {
        ObserveConserves(c, s, e.o, e.k);
        if Converges(c, s, e.o, e.k) { ConvergeConserves(c, s, e.o, e.k); }
      }
      Balance(c.escalationM, EscalationCount(c, most, region), EscalationCount(c, es, region),
        |s.converged|, |StateOf(States(c, es), region).converged|,
        ConvergenceCount(c, most, region), ConvergenceCount(c, es, region));
    }
  }

  /**
   No observation feeds two convergences, no convergence feeds two escalations: what has been consumed and what
   is still held never exceed what came in, each source counted as often as it was recorded.
   */
  lemma {:induction false} SourcesConserved(c: Config, es: seq<Event>, region: Region)
    ensures var s := StateOf(States(c, es), region);
            && Consumed(c, es, region) + multiset(Sources(s.observations)) <= Recorded(es, region)
            && Escalated(c, es, region) + multiset(AllSources(s.converged)) <= Consumed(c, es, region)
  {
    assert Sources([]) == [] && AllSources([]) == [];
    if es == [] {
    } else {
      var most, e := es[..|es| - 1], es[|es| - 1];
      var s := StateOf(States(c, most), region);
      SourcesConserved(c, most, region);
      LastCall(c, es, region);
      hide States, After, ConvergedAt, EscalatedAt, Converges, Windowed, Held, Qualifies, Sources, AllSources, Reply;
      if IsObservation(e, region) {
        ObserveConserves(c, s, e.o, e.k);
        if Converges(c, s, e.o, e.k) { ConvergeConserves(c, s, e.o, e.k); }
      }
    }
  }

  /** Between calls, too few convergences are held to escalate, or none of them saw damage. */
  lemma {:induction false} NothingPending(c: Config, es: seq<Event>, region: Region)
    ensures var held := StateOf(States(c, es), region).converged;
            |held| < c.escalationM || forall v <- held :: !v.what.hadDamage
  {
    if es == [] {
      assert !AnyDamage([]);
    } else {
      NothingPending(c, es[..|es| - 1], region);
      assert !AnyDamage([]);
    }
  }

  /** This source is that of a damage observation made on the region. */
  ghost predicate IsDamage(es: seq<Event>, region: Region, source: LineageId) {
    exists e <- es :: IsObservation(e, region) && e.o.what.isDamage && e.o.what.source == source
  }

  ghost predicate Grounded(es: seq<Event>, region: Region, f: Finding) {
    f.hadDamage ==> exists x <- f.sources :: IsDamage(es, region, x)
  }

  ghost predicate AllGrounded(es: seq<Event>, region: Region, s: RegionState) {
    && (forall o <- s.observations :: o.what.isDamage ==> IsDamage(es, region, o.what.source))
    && (forall v <- s.converged :: Grounded(es, region, v.what))
  }

  lemma {:induction false} Kept<T>(xs: seq<Stamped<T>>, window: nat, now: nat)
    ensures forall x :: x in Retain(xs, window, now) <==> x in xs && (now < window || x.at >= now - window)
  {
    if xs != [] { Kept(xs[..|xs| - 1], window, now); }
  }

  lemma {:induction false} SourceIn(obs: seq<Observation>, o: Observation)
    requires o in obs
    ensures o.what.source in Sources(obs)
  {
    if o != obs[|obs| - 1] { SourceIn(obs[..|obs| - 1], o); }
  }

  lemma {:induction false} AllSourcesIn(cs: seq<Convergence>, v: Convergence, x: LineageId)
    requires v in cs && x in v.what.sources
    ensures x in AllSources(cs)
  {
    if v != cs[|cs| - 1] { AllSourcesIn(cs[..|cs| - 1], v, x); }
  }

  lemma FindingGrounded(es: seq<Event>, region: Region, obs: seq<Observation>)
    requires forall o <- obs :: o.what.isDamage ==> IsDamage(es, region, o.what.source)
    ensures Grounded(es, region, FindingOf(obs))
  {
    if Damage(obs) {
      var o :| o in obs && o.what.isDamage;
      SourceIn(obs, o);
    }
  }

  lemma DamageStays(es: seq<Event>, e: Event, region: Region, x: LineageId)
    requires IsDamage(es, region, x)
    ensures IsDamage(es + [e], region, x)
  {
    var d :| d in es && IsObservation(d, region) && d.o.what.isDamage && d.o.what.source == x;
    assert d in es + [e];
  }

  lemma ObserveGrounds(c: Config, es: seq<Event>, region: Region, s: RegionState, o: Observation, k: Readings)
    requires AllGrounded(es, region, s)
    ensures var es' := es + [Observed(region, o, k)];
            && (forall x <- Windowed(c, s, o, k) :: x.what.isDamage ==> IsDamage(es', region, x.what.source))
            && (forall v <- Held(c, s, o, k) :: Grounded(es', region, v.what))
            && AllGrounded(es', region, After(c, s, o, k))
  {
    var e := Observed(region, o, k);
    var es' := es + [e];
    assert e in es';
    hide IsDamage, Retain, Damage, AnyDamage, Specs, Sources, EffectiveMode;
    forall x | x in s.observations + [o] && x.what.isDamage ensures IsDamage(es', region, x.what.source) {
      if x in s.observations { DamageStays(es, e, region, x.what.source); } else { DamageNow(es, e); }
    }
    forall v | v in s.converged ensures Grounded(es', region, v.what) {
      if v.what.hadDamage {
        var x :| x in v.what.sources && IsDamage(es, region, x);
        DamageStays(es, e, region, x);
      }
    }
    Kept(s.observations + [o], c.convergenceWindow, k.evict);
    FindingGrounded(es', region, Windowed(c, s, o, k));
    Kept(s.converged + [Stamped(k.converge, FindingOf(Windowed(c, s, o, k)))], c.escalationWindow, k.prune);
  }

  lemma DamageNow(es: seq<Event>, e: Event)
    requires e.Observed? && e.o.what.isDamage
    ensures IsDamage(es + [e], e.region, e.o.what.source)
  {
    assert e in es + [e];
  }

  lemma {:induction false} RunGrounded(c: Config, es: seq<Event>, region: Region)
    ensures AllGrounded(es, region, StateOf(States(c, es), region))
  {
    if es == [] {
    } else {
      var most, e := es[..|es| - 1], es[|es| - 1];
      RunGrounded(c, most, region);
      assert most + [e] == es;
      LastCall(c, es, region);
      hide After, States, IsDamage, Grounded, Converges, Windowed, Held, Qualifies, Sources, AllSources, Reply;
      if IsObservation(e, region) {
        ObserveGrounds(c, most, region, StateOf(States(c, most), region), e.o, e.k);
      } else {
        GroundsStay(c, most, e, region);
      }
    }
  }

  lemma GroundsStay(c: Config, es: seq<Event>, e: Event, region: Region)
    requires AllGrounded(es, region, StateOf(States(c, es), region))
    ensures AllGrounded(es + [e], region, StateOf(States(c, es), region))
  {
    hide IsDamage;
    var s := StateOf(States(c, es), region);
    forall o | o in s.observations && o.what.isDamage ensures IsDamage(es + [e], region, o.what.source) {
      DamageStays(es, e, region, o.what.source);
    }
    forall v | v in s.converged && v.what.hadDamage ensures Grounded(es + [e], region, v.what) {
      var x :| x in v.what.sources && IsDamage(es, region, x);
      DamageStays(es, e, region, x);
    }
  }

  /** Among an escalation's sources is a damage observation of the region. */
  lemma EscalationHasDamage(c: Config, es: seq<Event>, region: Region, o: Observation, k: Readings)
    requires Reply(c, es, region, o, k).EscalateP53Region?
    ensures exists x <- Reply(c, es, region, o, k).sources :: IsDamage(es + [Observed(region, o, k)], region, x)
    ensures Reply(c, es, region, o, k).mode != Disabled
  {
    hide IsDamage, Retain, Damage, Specs, Sources, EffectiveMode;
    var s := StateOf(States(c, es), region);
    RunGrounded(c, es, region);
    ObserveGrounds(c, es, region, s, o, k);
    var held := Held(c, s, o, k);
    var v :| v in held && v.what.hadDamage;
    assert Grounded(es + [Observed(region, o, k)], region, v.what);
    var x :| x in v.what.sources && IsDamage(es + [Observed(region, o, k)], region, x);
    AllSourcesIn(held, v, x);
  }
}
