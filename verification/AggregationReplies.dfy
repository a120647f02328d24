/**
 When the aggregation layer answers what, over whole runs, counted out: how many specializations, how many
 convergences and what damage it takes, and which mode is in force.
 */
module AggregationReplies {
  import opened Common
  import opened Aggregation
  import opened AggregationRuns

  /** Not older than the window. */
  predicate Inside<T>(x: Stamped<T>, window: nat, now: nat) {
    now <= x.at + window
  }

  lemma RetainInside<T>(xs: seq<Stamped<T>>, window: nat, now: nat)
    ensures forall x :: x in Retain(xs, window, now) <==> x in xs && Inside(x, window, now)
  {
    Kept(xs, window, now);
  }

  function InsideFrom<T>(xs: seq<Stamped<T>>, from: nat, window: nat, now: nat): set<nat> {
    set i | from <= i < |xs| && Inside(xs[i], window, now)
  }

  lemma {:induction false} RetainCount<T>(xs: seq<Stamped<T>>, window: nat, now: nat)
    ensures |Retain(xs, window, now)| == |InsideFrom(xs, 0, window, now)|
  {
    if xs == [] {
      assert InsideFrom(xs, 0, window, now) == {};
    } else {
      var most, n := xs[..|xs| - 1], |xs| - 1;
      RetainCount(most, window, now);
      assert InsideFrom(xs, 0, window, now)
          == InsideFrom(most, 0, window, now) + if Inside(xs[n], window, now) then {n} else {};
    }
  }

  /** The same count of a suffix, by indices of the whole. */
  lemma SuffixCount<T>(xs: seq<Stamped<T>>, from: nat, window: nat, now: nat)
    requires from <= |xs|
    ensures |Retain(xs[from..], window, now)| == |InsideFrom(xs, from, window, now)|
  {
    RetainOn(xs[..from], xs[from..], window, now);
    assert xs[..from] + xs[from..] == xs;
    RetainCount(xs, window, now);
    RetainCount(xs[..from], window, now);
    hide Retain, Inside;
    assert InsideFrom(xs, 0, window, now)
        == InsideFrom(xs[..from], 0, window, now) + InsideFrom(xs, from, window, now);
    assert InsideFrom(xs[..from], 0, window, now) !! InsideFrom(xs, from, window, now);
  }

  // ----- which mode is in force -----

  /** Disabled, and not for so long that it has lapsed. */
  predicate Silenced(c: Config, f: Full, now: nat) {
    f.mode == Some(Disabled) && (f.disabledAt.Some? ==> Elapsed(f.disabledAt.value, now) < c.disabledRevertAfter)
  }

  ghost predicate SaysWhat(s: RegionState, e: Event) {
    e.ModeSet? && s.mode == Some(e.mode) && s.disabledAt == if e.mode == Disabled then Some(e.at) else None
  }

  /** What the state says of the mode is what the last call that set it said. */
  ghost predicate SaysLast(s: RegionState, es: seq<Event>, region: Region) {
    if forall i :: 0 <= i < |es| ==> !SetsMode(es[i], region) then s.mode == None && s.disabledAt == None
    else exists i :: 0 <= i < |es| && LastSet(es, region, i) && SaysWhat(s, es[i])
  }

  lemma SaysNext(s: RegionState, s': RegionState, es: seq<Event>, e: Event, region: Region)
    requires SaysLast(s, es, region)
    requires if SetsMode(e, region) then SaysWhat(s', e) else s'.mode == s.mode && s'.disabledAt == s.disabledAt
    ensures SaysLast(s', es + [e], region)
  {
    var all, n := es + [e], |es|;
    assert all[n] == e && forall i :: 0 <= i < n ==> all[i] == es[i];
    hide SetsMode;
    if SetsMode(e, region) {
      assert LastSet(all, region, n);
    } else if i :| 0 <= i < n && LastSet(es, region, i) && SaysWhat(s, es[i]) {
      assert LastSet(all, region, i) && SaysWhat(s', all[i]);
    }
  }

  lemma {:induction false} ModeRecorded(c: Config, es: seq<Event>, region: Region)
    ensures SaysLast(StateOf(States(c, es), region), es, region)
  {
    if es != [] {
      var most, e := es[..|es| - 1], es[|es| - 1];
      ModeRecorded(c, most, region);
      ModeStep(c, es, region);
      assert most + [e] == es;
      hide States, SaysLast;
      SaysNext(StateOf(States(c, most), region), StateOf(States(c, es), region), most, e, region);
    }
  }

  predicate SetsMode(e: Event, region: Region) {
    e.ModeSet? && e.region == region
  }

  /** The last mode set on the region is in force; before any it is Active, and a lapsed Disabled is AlertOnly. */
  lemma ModeInForce(c: Config, es: seq<Event>, region: Region, now: nat)
    ensures var s := StateOf(States(c, es), region);
            var mode := EffectiveMode(c, s.mode, s.disabledAt, now);
            if forall i :: 0 <= i < |es| ==> !SetsMode(es[i], region) then mode == Active
            else
              exists i :: 0 <= i < |es| && LastSet(es, region, i)
                && mode == if es[i].mode != Disabled then es[i].mode
                           else if Elapsed(es[i].at, now) < c.disabledRevertAfter then Disabled else AlertOnly
  {
    ModeRecorded(c, es, region);
    hide States, Elapsed, LastSet;
  }

  ghost predicate LastSet(es: seq<Event>, region: Region, i: nat)
    requires i < |es|
  {
    SetsMode(es[i], region) && forall j :: i < j < |es| ==> !SetsMode(es[j], region)
  }

  lemma ModeStep(c: Config, es: seq<Event>, region: Region)
    requires es != []
    ensures var e := es[|es| - 1];
            var was, s := StateOf(States(c, es[..|es| - 1]), region), StateOf(States(c, es), region);
            if e.ModeSet? && e.region == region
            then s.mode == Some(e.mode) && s.disabledAt == if e.mode == Disabled then Some(e.at) else None
            else s.mode == was.mode && s.disabledAt == was.disabledAt
  {
    hide Converges, Windowed, Held, Qualifies;
  }

  // ----- when a reply converges, and when it escalates -----

  /** Observations of the region since its last convergence, this one included. */
  function Unspent(c: Config, es: seq<Event>, region: Region, o: Observation): seq<Observation> {
    var f := History(c, es, region);
    f.observations[f.spent..] + [o]
  }

  function SpecsInside(obs: seq<Observation>, window: nat, now: nat): set<Specialization> {
    set x: Observation | x in obs && Inside(x, window, now) :: x.what.specialization
  }

  /**
   An observation completes a convergence if and only if the region is not silenced and the observations since its
   last convergence that are inside the window, this one included, come from at least N specializations.
   */
  lemma ConvergesIff(c: Config, es: seq<Event>, region: Region, o: Observation, k: Readings)
    requires Ordered(es + [Observed(region, o, k)])
    ensures Reply(c, es, region, o, k) != Quiet <==>
              && !Silenced(c, History(c, es, region), k.entry)
              && |SpecsInside(Unspent(c, es, region, o), c.convergenceWindow, k.evict)| >= c.convergenceN
  {
    hide Reply, Silenced, Unspent, History;
    ForgettingIsHarmless(c, es, region, o, k);
    FullConvergesIff(c, region, History(c, es, region), o, k);
    UnspentIs(c, es, region, o);
  }

  lemma UnspentIs(c: Config, es: seq<Event>, region: Region, o: Observation)
    ensures Unspent(c, es, region, o)
         == History(c, es, region).observations[History(c, es, region).spent..] + [o]
  {
  }

  lemma FullConvergesIff(c: Config, region: Region, f: Full, o: Observation, k: Readings)
    requires Bounded(f)
    ensures FullAnswer(c, region, f, o, k) != Quiet <==>
              && !Silenced(c, f, k.entry)
              && |SpecsInside(f.observations[f.spent..] + [o], c.convergenceWindow, k.evict)| >= c.convergenceN
  {
    var all := f.observations[f.spent..] + [o];
    RetainInside(all, c.convergenceWindow, k.evict);
    assert Specs(Live(c, f, o, k)) == SpecsInside(all, c.convergenceWindow, k.evict);
    hide Retain, Specs, Qualifies, SpecsInside, Recent, FindingOf, AllSources, AllSpecs;
  }

  /** The convergences of the region since its last escalation that are inside the window. */
  function Unescalated(c: Config, es: seq<Event>, region: Region, now: nat): set<nat> {
    var f := History(c, es, region);
    InsideFrom(f.convergences, f.used, c.escalationWindow, now)
  }

  /** This convergence is still inside the window when the count is taken. */
  predicate StillInside(c: Config, k: Readings) {
    k.prune <= k.converge + c.escalationWindow
  }

  /**
   A reply escalates if and only if it completes a convergence, the convergences since the last escalation that
   are inside the window, this one included, are at least M, and one of them had damage.
   */
  lemma EscalatesIff(c: Config, es: seq<Event>, region: Region, o: Observation, k: Readings)
    requires Ordered(es + [Observed(region, o, k)])
    ensures var f, earlier := History(c, es, region), Unescalated(c, es, region, k.prune);
            Reply(c, es, region, o, k).EscalateP53Region? <==>
              && Reply(c, es, region, o, k) != Quiet
              && |earlier| + (if StillInside(c, k) then 1 else 0) >= c.escalationM
              && ((exists i <- earlier :: f.convergences[i].what.hadDamage)
                  || (StillInside(c, k)
                      && exists x <- Unspent(c, es, region, o) ::
                           Inside(x, c.convergenceWindow, k.evict) && x.what.isDamage))
  {
    ForgettingIsHarmless(c, es, region, o, k);
    var f, earlier := History(c, es, region), Unescalated(c, es, region, k.prune);
    var latest := Stamped(k.converge, FindingOf(Live(c, f, o, k)));
    var recent := f.convergences[f.used..];
    RecentCount(c, f, latest, k);
    RetainInside(Unspent(c, es, region, o), c.convergenceWindow, k.evict);
    RetainInside(recent + [latest], c.escalationWindow, k.prune);
    assert latest.what.hadDamage <==> exists x <- Unspent(c, es, region, o) ::
        Inside(x, c.convergenceWindow, k.evict) && x.what.isDamage;
    hide Reply, History, Retain, Specs, FindingOf;
    DamageAmong(c, f, latest, k);
  }

  lemma RecentCount(c: Config, f: Full, latest: Convergence, k: Readings)
    requires Bounded(f)
    ensures |Retain(f.convergences[f.used..] + [latest], c.escalationWindow, k.prune)|
         == |InsideFrom(f.convergences, f.used, c.escalationWindow, k.prune)|
            + if Inside(latest, c.escalationWindow, k.prune) then 1 else 0
  {
    var recent := f.convergences[f.used..];
    RetainOn(recent, [latest], c.escalationWindow, k.prune);
    RetainOne(latest, c.escalationWindow, k.prune);
    SuffixCount(f.convergences, f.used, c.escalationWindow, k.prune);
  }

  lemma DamageAmong(c: Config, f: Full, latest: Convergence, k: Readings)
    requires Bounded(f)
    ensures AnyDamage(Retain(f.convergences[f.used..] + [latest], c.escalationWindow, k.prune)) <==>
              || (exists i <- InsideFrom(f.convergences, f.used, c.escalationWindow, k.prune) ::
                    f.convergences[i].what.hadDamage)
              || (Inside(latest, c.escalationWindow, k.prune) && latest.what.hadDamage)
  {
    assert f.used <= |f.convergences|;
    hide *;
    DamageIn(f.convergences[f.used..], latest, c.escalationWindow, k.prune);
    DamageFrom(f.convergences, f.used, c.escalationWindow, k.prune);
  }

  lemma DamageFrom(cs: seq<Convergence>, from: nat, window: nat, now: nat)
    requires from <= |cs|
    ensures (exists v: Convergence :: v in cs[from..] && Inside(v, window, now) && v.what.hadDamage)
       <==> (exists i <- InsideFrom(cs, from, window, now) :: cs[i].what.hadDamage)
  {
    if i :| i in InsideFrom(cs, from, window, now) && cs[i].what.hadDamage {
      assert cs[from..][i - from] == cs[i];
    }
    if v: Convergence :| v in cs[from..] && Inside(v, window, now) && v.what.hadDamage {
      var i :| 0 <= i < |cs[from..]| && cs[from..][i] == v;
      assert cs[from + i] == v;
      assert from + i in InsideFrom(cs, from, window, now);
    }
  }

  lemma DamageIn(recent: seq<Convergence>, latest: Convergence, window: nat, now: nat)
    ensures AnyDamage(Retain(recent + [latest], window, now)) <==>
              || (exists v: Convergence :: v in recent && Inside(v, window, now) && v.what.hadDamage)
              || (Inside(latest, window, now) && latest.what.hadDamage)
  {
    RetainInside(recent + [latest], window, now);
    hide Retain, Inside;
    var held := Retain(recent + [latest], window, now);
    if v: Convergence :| v in recent && Inside(v, window, now) && v.what.hadDamage { assert v in held; }
    if Inside(latest, window, now) { assert latest in held; }
  }

  /**
   What the full record is: every observation, and for every reply that was not quiet a convergence at its moment;
   spent up to the last of those replies, used up to the last that escalated.
   */
  lemma RecordIs(c: Config, es: seq<Event>, region: Region, o: Observation, k: Readings)
    requires Ordered(es + [Observed(region, o, k)])
    ensures var was, f := History(c, es, region), History(c, es + [Observed(region, o, k)], region);
            var reply := Reply(c, es, region, o, k);
            && f.observations == was.observations + [o]
            && f.spent == (if reply != Quiet then |f.observations| else was.spent)
            && f.used == (if reply.EscalateP53Region? then |f.convergences| else was.used)
            && was.convergences <= f.convergences
            && |f.convergences| == |was.convergences| + (if reply != Quiet then 1 else 0)
            && (reply != Quiet ==> f.convergences[|was.convergences|].at == k.converge)
            && (reply.ConvergedAnomaly? ==> f.convergences[|was.convergences|].what == reply.finding)
  {
    ForgettingIsHarmless(c, es, region, o, k);
    var all := es + [Observed(region, o, k)];
    assert all[..|all| - 1] == es && all[|all| - 1] == Observed(region, o, k);
    hide Reply, Live, Specs, FindingOf, Qualifies, AllSources, AllSpecs, Recent;
  }

  // ----- what a reply carries -----

  /**
   A convergence names its region, and the sources, the specializations and the damage of the observations in its
   window; an escalation its region and the mode in force when the call began.
   */
  lemma ReplyCarries(c: Config, es: seq<Event>, region: Region, o: Observation, k: Readings)
    requires Ordered(es + [Observed(region, o, k)])
    ensures var reply, f := Reply(c, es, region, o, k), History(c, es, region);
            && (reply.ConvergedAnomaly? ==>
                  && reply.region == region
                  && Reports(reply.finding, Unspent(c, es, region, o), c.convergenceWindow, k.evict))
            && (reply.EscalateP53Region? ==> reply.region == region && reply.mode == ModeNow(c, f, k.entry))
  {
    ForgettingIsHarmless(c, es, region, o, k);
    FindingReports(Unspent(c, es, region, o), c.convergenceWindow, k.evict);
    hide Reports, Retain, FindingOf;
    FullAnswerIs(c, region, History(c, es, region), o, k);
    hide Reply, FullAnswer, ModeNow, History;
  }

  /** The finding is what the observations inside the window say. */
  ghost predicate Reports(found: Finding, obs: seq<Observation>, window: nat, now: nat) {
    var inside := Retain(obs, window, now);
    && |found.sources| == |inside|
    && (forall i :: 0 <= i < |inside| ==> found.sources[i] == inside[i].what.source)
    && found.specializations == SpecsInside(obs, window, now)
    && (found.hadDamage <==> exists x <- inside :: x.what.isDamage)
  }

  lemma FindingReports(obs: seq<Observation>, window: nat, now: nat)
    ensures Reports(FindingOf(Retain(obs, window, now)), obs, window, now)
  {
    var inside := Retain(obs, window, now);
    RetainInside(obs, window, now);
    assert Specs(inside) == SpecsInside(obs, window, now);
    forall i | 0 <= i < |inside| ensures Sources(inside)[i] == inside[i].what.source {
      SourcesAt(inside, i);
    }
    hide Retain, Sources, SpecsInside;
  }

  lemma FullAnswerIs(c: Config, region: Region, f: Full, o: Observation, k: Readings)
    requires Bounded(f)
    ensures var reply := FullAnswer(c, region, f, o, k);
            && (reply.ConvergedAnomaly? ==>
                  && reply.region == region
                  && reply.finding == FindingOf(Retain(f.observations[f.spent..] + [o], c.convergenceWindow, k.evict)))
            && (reply.EscalateP53Region? ==> reply.region == region && reply.mode == ModeNow(c, f, k.entry))
  {
    hide Retain, FindingOf, AllSources, AllSpecs, Qualifies, Specs;
  }

  /** The mode in force, spelled out. */
  function ModeNow(c: Config, f: Full, now: nat): Mode {
    match f.mode
    case None => Active
    case Some(Active) => Active
    case Some(AlertOnly) => AlertOnly
    case Some(Disabled) => if Silenced(c, f, now) then Disabled else AlertOnly
  }

  /** The sources of a convergence are those of its observations, in order. */
  lemma {:induction false} SourcesAt(obs: seq<Observation>, i: nat)
    requires i < |obs|
    ensures Sources(obs)[i] == obs[i].what.source
  {
    if i < |obs| - 1 { SourcesAt(obs[..|obs| - 1], i); }
  }

  /** The sources of an escalation are those of its convergences, one after another. */
  lemma {:induction false} AllSourcesConcat(cs: seq<Convergence>, ds: seq<Convergence>)
    ensures AllSources(cs + ds) == AllSources(cs) + AllSources(ds)
    ensures |cs| == 1 ==> AllSources(cs) == cs[0].what.sources
    decreases |ds|
  {
    if ds == [] {
      assert cs + ds == cs;
    } else {
      var n := |ds| - 1;
      AllSourcesConcat(cs, ds[..n]);
      assert (cs + ds)[..|cs + ds| - 1] == cs + ds[..n];
    }
  }

  /** An escalation names a specialization once for each of its convergences that had it. */
  lemma {:induction false} AllSpecsCount(cs: seq<Convergence>, x: Specialization)
    ensures AllSpecs(cs)[x] == |Having(cs, x)|
  {
    if cs == [] {
      assert Having(cs, x) == {};
    } else {
      var n := |cs| - 1;
      AllSpecsCount(cs[..n], x);
      assert Having(cs, x) == Having(cs[..n], x) + if x in cs[n].what.specializations then {n} else {};
    }
  }

  function Having(cs: seq<Convergence>, x: Specialization): set<nat> {
    set i | 0 <= i < |cs| && x in cs[i].what.specializations
  }
}
