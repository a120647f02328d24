/**
 The aggregation layer: per region, a window of observations that turns into a convergence once enough
 distinct specializations are in it, and a window of convergences that turns into an escalation.
 Each call runs under its region's mutex.
 */
module Aggregation {
  import opened Common

  datatype Mode = Active | AlertOnly | Disabled

  datatype Config = Config(
    convergenceN: nat,
    convergenceWindow: nat,
    escalationM: nat,
    escalationWindow: nat,
    disabledRevertAfter: nat)

  /** Something that happened at a moment on the monotonic clock. */
  datatype Stamped<+T> = Stamped(at: nat, what: T)

  datatype Signal = Signal(specialization: Specialization, source: LineageId, isDamage: bool)

  type Observation = Stamped<Signal>

  datatype Finding = Finding(sources: seq<LineageId>, specializations: set<Specialization>, hadDamage: bool)

  type Convergence = Stamped<Finding>

  datatype RegionState = RegionState(
    observations: seq<Observation>,
    converged: seq<Convergence>,
    mode: Option<Mode>,
    disabledAt: Option<nat>)

  const NEW_REGION := RegionState([], [], None, None)

  datatype Outcome =
    | Quiet
    | ConvergedAnomaly(region: Region, finding: Finding)
    | EscalateP53Region(region: Region, sources: seq<LineageId>, specializations: multiset<Specialization>, mode: Mode)

  /** The clock readings one `evaluate` takes, in order. */
  datatype Readings = Readings(entry: nat, evict: nat, converge: nat, prune: nat)

  /** What a window keeps. Before one window length has passed since the clock began, everything. */
  function Retain<T>(xs: seq<Stamped<T>>, window: nat, now: nat): (r: seq<Stamped<T>>)
    ensures |r| <= |xs|
  {
    if xs == [] then []
    else
      Retain(xs[..|xs| - 1], window, now)
        + (if now < window || xs[|xs| - 1].at >= now - window then [xs[|xs| - 1]] else [])
  }

  function EffectiveMode(c: Config, mode: Option<Mode>, disabledAt: Option<nat>, now: nat): Mode {
    match mode
    case None => Active
    case Some(Disabled) =>
      if disabledAt.Some? && Elapsed(disabledAt.value, now) >= c.disabledRevertAfter then AlertOnly else Disabled
    case Some(m) => m
  }

  function Specs(obs: seq<Observation>): set<Specialization> {
    set o | o in obs :: o.what.specialization
  }

  function Sources(obs: seq<Observation>): (r: seq<LineageId>)
    ensures |r| == |obs|
  {
    if obs == [] then [] else Sources(obs[..|obs| - 1]) + [obs[|obs| - 1].what.source]
  }

  predicate Damage(obs: seq<Observation>) {
    exists o <- obs :: o.what.isDamage
  }

  function FindingOf(obs: seq<Observation>): Finding {
    Finding(Sources(obs), Specs(obs), Damage(obs))
  }

  predicate AnyDamage(cs: seq<Convergence>) {
    exists c <- cs :: c.what.hadDamage
  }

  function AllSources(cs: seq<Convergence>): seq<LineageId> {
    if cs == [] then [] else AllSources(cs[..|cs| - 1]) + cs[|cs| - 1].what.sources
  }

  function AllSpecs(cs: seq<Convergence>): multiset<Specialization> {
    if cs == [] then multiset{} else AllSpecs(cs[..|cs| - 1]) + multiset(cs[|cs| - 1].what.specializations)
  }

  /** The observations in the window once this one is in. */
  function Windowed(c: Config, s: RegionState, o: Observation, k: Readings): seq<Observation> {
    Retain(s.observations + [o], c.convergenceWindow, k.evict)
  }

  /** Whether this observation completes a convergence. A disabled region never converges. */
  predicate Converges(c: Config, s: RegionState, o: Observation, k: Readings) {
    && EffectiveMode(c, s.mode, s.disabledAt, k.entry) != Disabled
    && |Specs(Windowed(c, s, o, k))| >= c.convergenceN
  }

  /** The convergences held once this one is recorded. */
  function Held(c: Config, s: RegionState, o: Observation, k: Readings): seq<Convergence> {
    Retain(s.converged + [Stamped(k.converge, FindingOf(Windowed(c, s, o, k)))], c.escalationWindow, k.prune)
  }

  /** Escalation needs enough convergences and damage in one of them. */
  predicate Qualifies(c: Config, held: seq<Convergence>) {
    |held| >= c.escalationM && AnyDamage(held)
  }

  function After(c: Config, s: RegionState, o: Observation, k: Readings): RegionState {
    if !Converges(c, s, o, k) then s.(observations := Windowed(c, s, o, k))
    else
      s.(observations := [],
         converged := if Qualifies(c, Held(c, s, o, k)) then [] else Held(c, s, o, k))
  }

  function Answer(c: Config, region: Region, s: RegionState, o: Observation, k: Readings): Outcome {
    if !Converges(c, s, o, k) then Quiet
    else
      var held := Held(c, s, o, k);
      if Qualifies(c, held)
      then EscalateP53Region(region, AllSources(held), AllSpecs(held), EffectiveMode(c, s.mode, s.disabledAt, k.entry))
      else ConvergedAnomaly(region, FindingOf(Windowed(c, s, o, k)))
  }

  function SetMode(s: RegionState, mode: Mode, now: nat): RegionState {
    s.(mode := Some(mode), disabledAt := if mode == Disabled then Some(now) else None)
  }

  function StateOf(states: map<Region, RegionState>, region: Region): RegionState {
    if region in states then states[region] else NEW_REGION
  }

  // ----- the layer itself -----

  class AggregationLayer {
    const config: Config
    var states: map<Region, RegionState>

    constructor (config: Config)
      ensures this.config == config && states == map[]
    {
      this.config := config;
      states := map[];
    }

    method RegionStateOf(region: Region) returns (s: RegionState)
      modifies this
      ensures s == StateOf(old(states), region) && states == old(states)[region := s]
    {
      if region !in states {
        states := states[region := NEW_REGION];
      }
      s := states[region];
    }

    method SetResponseMode(region: Region, mode: Mode, now: nat)
      modifies this
      ensures states == old(states)[region := SetMode(StateOf(old(states), region), mode, now)]
    {
      var s := RegionStateOf(region);
      s := s.(mode := Some(mode));
      s := s.(disabledAt := if mode == Disabled then Some(now) else None);
      states := states[region := s];
    }

    method ResponseMode(region: Region, now: nat) returns (mode: Mode)
      modifies this
      ensures var s := StateOf(old(states), region); mode == EffectiveMode(config, s.mode, s.disabledAt, now)
      ensures StateOf(states, region) == StateOf(old(states), region)
    {
      var s := RegionStateOf(region);
      mode := EffectiveMode(config, s.mode, s.disabledAt, now);
    }

    /** The list drops what has fallen out of the window, in place and in order. */
    static method Evict<T>(xs: seq<Stamped<T>>, window: nat, now: nat) returns (kept: seq<Stamped<T>>)
      ensures kept == Retain(xs, window, now)
    {
      kept := [];
      if now < window {
        KeepsAll(xs, window, now);
        return xs;
      }
      for i := 0 to |xs|
        invariant kept == Retain(xs[..i], window, now)
      {
        assert xs[..i + 1][..i] == xs[..i];
        if xs[i].at >= now - window {
          kept := kept + [xs[i]];
        }
      }
      assert xs[..|xs|] == xs;
    }

    static method Survey(obs: seq<Observation>)
      returns (specs: set<Specialization>, sources: seq<LineageId>, damage: bool)
      ensures specs == Specs(obs) && sources == Sources(obs) && damage == Damage(obs)
    {
      specs, sources, damage := {}, [], false;
      for i := 0 to |obs|
        invariant specs == Specs(obs[..i]) && sources == Sources(obs[..i]) && damage == Damage(obs[..i])
      {
        OneMore(obs, i);
        specs := specs + {obs[i].what.specialization};
        sources := sources + [obs[i].what.source];
        if obs[i].what.isDamage {
          damage := true;
        }
      }
      assert obs[..|obs|] == obs;
    }

    static method Gather(held: seq<Convergence>) returns (sources: seq<LineageId>, specs: multiset<Specialization>)
      ensures sources == AllSources(held) && specs == AllSpecs(held)
    {
      sources, specs := [], multiset{};
      for i := 0 to |held|
        invariant sources == AllSources(held[..i]) && specs == AllSpecs(held[..i])
      {
        assert held[..i + 1][..i] == held[..i];
        sources := sources + held[i].what.sources;
        specs := specs + multiset(held[i].what.specializations);
      }
      assert held[..|held|] == held;
    }

    method Evaluate(region: Region, o: Observation, k: Readings) returns (outcome: Outcome)
      modifies this
      ensures outcome == Answer(config, region, StateOf(old(states), region), o, k)
      ensures states == old(states)[region := After(config, StateOf(old(states), region), o, k)]
    {
      hide Retain, Specs, Sources, Damage, AllSources, AllSpecs, EffectiveMode, AnyDamage;
      var s := RegionStateOf(region);
      ghost var before := s;
      var mode := EffectiveMode(config, s.mode, s.disabledAt, k.entry);
      s := s.(observations := s.observations + [o]);
      var observations := Evict(s.observations, config.convergenceWindow, k.evict);
      s := s.(observations := observations);
      if mode == Disabled {
        states := states[region := s];
        return Quiet;
      }
      var specs, sources, damage := Survey(observations);
      if |specs| < config.convergenceN {
        states := states[region := s];
        return Quiet;
      }
      var finding := Finding(sources, specs, damage);
      var held := Evict(s.converged + [Stamped(k.converge, finding)], config.escalationWindow, k.prune);
      s := s.(observations := [], converged := held);
      assert held == Held(config, before, o, k);
      var anyDamage := AnyDamage(held);
      if |held| >= config.escalationM && anyDamage {
        var allSources, allSpecs := Gather(held);
        s := s.(converged := []);
        states := states[region := s];
        return EscalateP53Region(region, allSources, allSpecs, mode);
      }
      states := states[region := s];
      outcome := ConvergedAnomaly(region, finding);
    }
  }

  lemma {:induction false} KeepsAll<T>(xs: seq<Stamped<T>>, window: nat, now: nat)
    requires now < window
    ensures Retain(xs, window, now) == xs
  {
    if xs != [] { KeepsAll(xs[..|xs| - 1], window, now); }
  }

  lemma OneMore(obs: seq<Observation>, i: nat)
    requires i < |obs|
    ensures obs[..i + 1][..i] == obs[..i]
    ensures Specs(obs[..i + 1]) == Specs(obs[..i]) + {obs[i].what.specialization}
    ensures Damage(obs[..i + 1]) <==> Damage(obs[..i]) || obs[i].what.isDamage
  {
    assert obs[..i + 1] == obs[..i] + [obs[i]];
  }
}
