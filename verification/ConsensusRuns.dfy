/**
 Consensus rounds under arbitrary interleaving. Any number of threads run checkout, propose and
 finalize; each step below is one critical section of the table. A `finalize_proposal` that closes a
 round is two steps: it takes the snapshot lock and freezes the finalized set, and later, after it
 has looked its target up again and written the ConsensusSnapshot, it releases the lock. In between
 anything else may happen. The node a propose brings is its caller's and may be one proposed before;
 what holds of every run is told apart from what holds of the runs that propose no node twice.
 */
module ConsensusRuns {
  import opened Common
  import opened SemanticTable
  import opened ConsensusTargets

  /** A finalize call that holds a target's snapshot lock, with the set it is about to write. */
  datatype Call = Call(proposal: LineageId, target: LineageId, frozen: set<LineageId>)

  datatype Snapshot = Snapshot(id: LineageId, target: LineageId, proposals: set<LineageId>)

  /** Of the bridge's default region, which is fixed when the bridge is built. */
  datatype Sensitivity = Normal | High

  /** `leaked` are the targets whose lock holder failed before it could release. */
  datatype System = System(
    region: Sensitivity,
    table: Table,
    now: nat,
    used: set<LineageId>,
    calls: map<nat, Call>,
    written: seq<Snapshot>,
    leaked: set<LineageId>)

  datatype Step =
    | Wait(time: nat)
    | SweepStep(target: LineageId)
    | CheckoutStep(id: LineageId, target: LineageId, openedAt: nat, ttl: nat)
    | ProposeStep(id: LineageId, target: LineageId, checkout: LineageId)
    | FinalizeStep(call: nat, target: LineageId, proposal: LineageId)
    | CommitStep(call: nat, id: LineageId, target: LineageId)
    | FailStep(call: nat)

  function Start(region: Sensitivity): System {
    System(region, map[], 0, {}, map[], [], {})
  }

  /**
   Checkout and snapshot nodes are made by the bridge, with ids never used before; a proposed node has whatever
   id its caller gave it. A finalize works on some target that hosts the proposal, and so does the look-up
   before the commit. Checkouts and proposals are signed, but the ConsensusSnapshot is not: a High region
   refuses it, and a Normal one takes it.
   */
  predicate Enabled(s: System, e: Step) {
    match e
    case Wait(_) => true
    case SweepStep(_) => true
    case CheckoutStep(id, _, openedAt, _) => id !in s.used && openedAt <= s.now
    case ProposeStep(_, _, _) => true
    case FinalizeStep(call, target, proposal) => call !in s.calls && Hosts(s.table, target, proposal)
    case CommitStep(call, id, target) =>
      s.region == Normal && call in s.calls && id !in s.used && Hosts(s.table, target, s.calls[call].proposal)
    case FailStep(call) => s.region == High && call in s.calls
  }

  function Next(s: System, e: Step): System
    requires Enabled(s, e)
  {
    match e
    case Wait(time) => s.(now := s.now + time)
    case SweepStep(target) => s.(table := Sweep(s.table, target, s.now))
    case CheckoutStep(id, target, openedAt, ttl) =>
      s.(table := TryRegister(s.table, target, id, Checkout(openedAt, ttl, Open)), used := s.used + {id})
    case ProposeStep(id, target, checkout) =>
      s.(table := RegisterProposal(s.table, target, checkout, id), used := s.used + {id})
    case FinalizeStep(call, target, proposal) =>
      var t := RecordFinalize(s.table, target, proposal, s.now);
      if OutcomeOf(s.table[target], proposal, s.now) == SnapshotReady
      then s.(table := t, calls := s.calls[call := Call(proposal, target, FinalizedIn(t[target]))])
      else s.(table := t)
    case CommitStep(call, id, target) =>
      s.(table := Release(s.table, target, id),
         used := s.used + {id},
         calls := s.calls - {call},
         written := s.written + [Snapshot(id, target, s.calls[call].frozen)])
    case FailStep(call) =>
      s.(calls := s.calls - {call}, leaked := s.leaked + {s.calls[call].target})
  }

  // ----- the whole table -----

  /** What holds of every target whatever is proposed; an id in use is never a new checkout's. */
  ghost predicate TablesSound(s: System) {
    forall a <- s.table.Keys :: Sound(s.table[a]) && s.table[a].checkouts.Keys <= s.used
  }

  ghost predicate TablesOk(s: System) {
    TablesSound(s) && forall a <- s.table.Keys :: Paired(s.table[a])
  }

  /** No proposal is hosted by two targets. */
  ghost predicate HostedOnce(t: Table) {
    forall a, b, p :: Hosts(t, a, p) && Hosts(t, b, p) ==> a == b
  }

  /** A propose that is refused, or brings a node no target has, or the checkout's own draft once more. */
  ghost predicate Orderly(s: System, e: Step) {
    e.ProposeStep? ==>
      || RegisterErrorOf(s.table, e.target, e.checkout).Some?
      || forall b :: Hosts(s.table, b, e.id) ==> b == e.target && Fits(s.table[b], e.checkout, e.id)
  }

  predicate Locked(t: Table, a: LineageId) {
    a in t && t[a].snapshotInProgress
  }

  /** The call holds its target's lock, and what it froze is still the finalized set. */
  ghost predicate CallOk(s: System, call: Call) {
    && Locked(s.table, call.target)
    && call.target !in s.leaked
    && Hosts(s.table, call.target, call.proposal)
    && call.frozen == FinalizedIn(s.table[call.target])
  }

  /** Every call in flight is in order, and no two are on one target. */
  ghost predicate CallsOk(s: System) {
    && (forall c <- s.calls.Keys :: CallOk(s, s.calls[c]))
    && (forall c, d :: c in s.calls && d in s.calls && c != d ==> s.calls[c].target != s.calls[d].target)
  }

  ghost predicate Held(s: System, a: LineageId) {
    exists c :: c in s.calls && s.calls[c].target == a
  }

  ghost predicate LocksOk(s: System) {
    forall a :: Locked(s.table, a) <==> (a in s.leaked || Held(s, a))
  }

  /** What was written is finalized still, later snapshots of a target strictly contain earlier ones. */
  ghost predicate ChainOk(s: System) {
    && (forall w <- s.written :: w.target in s.table && w.proposals <= FinalizedIn(s.table[w.target]))
    && (forall w, c :: w in s.written && c in s.calls && s.calls[c].target == w.target ==>
          w.proposals < s.calls[c].frozen)
    && (forall i, j :: 0 <= i < j < |s.written| && s.written[i].target == s.written[j].target ==>
          s.written[i].proposals < s.written[j].proposals)
  }

  ghost predicate Inv(s: System) {
    && TablesOk(s) && HostedOnce(s.table) && CallsOk(s) && LocksOk(s) && ChainOk(s)
    && (s.region == Normal ==> s.leaked == {})
  }

  ghost predicate Grown(t: Table, t': Table) {
    forall a <- t.Keys :: a in t' && Advances(t[a], t'[a])
  }

  /** What any step does to each target. */
  lemma TargetSound(s: System, e: Step, a: LineageId)
    requires TablesSound(s) && Enabled(s, e) && a in Next(s, e).table
    ensures Sound(Next(s, e).table[a])
    ensures a in s.table && !e.ProposeStep? ==> Advances(s.table[a], Next(s, e).table[a])
    ensures a in s.table ==> s.table[a].proposals.Keys <= Next(s, e).table[a].proposals.Keys
  {
    hide Placed, OneEach, SweepTarget, FinalizeIn, AnyOpen;
    FreshOk();
    match e
    case Wait(_) =>
    case SweepStep(target) =>
      if a == target && a in s.table { SweepSound(s.table[a], s.now); }
    case CheckoutStep(id, target, openedAt, ttl) =>
      if a == target && !StateOf(s.table, a).snapshotInProgress {
        OpenSound(StateOf(s.table, a), id, Checkout(openedAt, ttl, Open));
      }
    case ProposeStep(id, target, checkout) =>
      if a == target && RegisterErrorOf(s.table, target, checkout) == None {
        ProposeSound(s.table[a], checkout, id);
      }
    case FinalizeStep(call, target, proposal) =>
      if a == target && s.table[a].proposals[proposal].status == Draft {
        FinalizeSound(s.table[a], proposal, s.now);
        if !AnyOpen(FinalizeIn(s.table[a], proposal, s.now)) {
          LockKeeps(FinalizeIn(s.table[a], proposal, s.now));
        }
      }
    case CommitStep(call, id, target) =>
      if a == target { ReleaseKeeps(s.table[a], id); }
    case FailStep(_) =>
  }

  /** What an orderly step does to each target: it keeps it well formed and only moves it forward. */
  lemma TargetStep(s: System, e: Step, a: LineageId)
    requires TablesOk(s) && Enabled(s, e) && Orderly(s, e) && a in Next(s, e).table
    ensures TargetOk(Next(s, e).table[a])
    ensures a in s.table ==> Advances(s.table[a], Next(s, e).table[a])
  {
    hide Sound, Paired, SweepTarget, FinalizeIn, AnyOpen;
    FreshOk();
    match e
    case Wait(_) =>
    case SweepStep(target) =>
      if a == target && a in s.table { SweepTargetOk(s.table[a], s.now); }
    case CheckoutStep(id, target, openedAt, ttl) =>
      if a == target && !StateOf(s.table, a).snapshotInProgress {
        OpenOk(StateOf(s.table, a), id, Checkout(openedAt, ttl, Open));
      }
    case ProposeStep(id, target, checkout) =>
      if a == target && RegisterErrorOf(s.table, target, checkout) == None {
        assert id in s.table[a].proposals ==> Hosts(s.table, a, id);
        ProposeOkIff(s.table[a], checkout, id);
      }
    case FinalizeStep(call, target, proposal) =>
      if a == target && s.table[a].proposals[proposal].status == Draft {
        FinalizeOk(s.table[a], proposal, s.now);
        if !AnyOpen(FinalizeIn(s.table[a], proposal, s.now)) {
          LockKeeps(FinalizeIn(s.table[a], proposal, s.now));
        }
      }
    case CommitStep(call, id, target) =>
      if a == target { ReleaseKeeps(s.table[a], id); }
    case FailStep(_) =>
  }

  /** Checkouts stay accounted for. */
  lemma IdsStep(s: System, e: Step)
    requires TablesSound(s) && Enabled(s, e)
    ensures forall a <- Next(s, e).table.Keys :: Next(s, e).table[a].checkouts.Keys <= Next(s, e).used
  {
    hide Sound, AnyOpen;
  }

  lemma HostsStep(s: System, e: Step, a: LineageId, p: LineageId)
    requires Enabled(s, e)
    ensures Hosts(Next(s, e).table, a, p)
       <==> Hosts(s.table, a, p)
            || (e.ProposeStep? && a == e.target && p == e.id && RegisterErrorOf(s.table, a, e.checkout) == None)
  {
    hide AnyOpen;
  }

  /** No proposal gains a second host if and only if the step proposes no node another target has. */
  lemma HostedOnceIff(s: System, e: Step)
    requires HostedOnce(s.table) && Enabled(s, e)
    ensures HostedOnce(Next(s, e).table) <==>
              (e.ProposeStep? && RegisterErrorOf(s.table, e.target, e.checkout) == None ==>
                 forall b :: Hosts(s.table, b, e.id) ==> b == e.target)
  {
    hide Next, RegisterErrorOf, Hosts;
    var t := Next(s, e).table;
    forall a, b, p | Hosts(t, a, p) && Hosts(t, b, p)
      ensures (Hosts(s.table, a, p) && Hosts(s.table, b, p)) || a == b || (e.ProposeStep? && p == e.id)
    {
      HostsStep(s, e, a, p);
      HostsStep(s, e, b, p);
    }
    if e.ProposeStep? {
      HostsStep(s, e, e.target, e.id);
      forall b ensures Hosts(t, b, e.id) <==>
                         Hosts(s.table, b, e.id)
                         || (b == e.target && RegisterErrorOf(s.table, b, e.checkout) == None)
      {
        HostsStep(s, e, b, e.id);
      }
      if b :| Hosts(s.table, b, e.id) && b != e.target && RegisterErrorOf(s.table, e.target, e.checkout) == None {
        assert Hosts(t, b, e.id) && Hosts(t, e.target, e.id);
      }
    }
  }

  /** What a step does to the locks: only a finalize that closes the round takes one, only a commit lets go. */
  lemma LockStep(s: System, e: Step, a: LineageId)
    requires TablesSound(s) && Enabled(s, e)
    ensures Locked(Next(s, e).table, a) <==>
              || (Locked(s.table, a) && !(e.CommitStep? && e.target == a))
              || (e.FinalizeStep? && e.target == a && OutcomeOf(s.table[a], e.proposal, s.now) == SnapshotReady)
  {
    hide Sound, AnyOpen;
    if e.FinalizeStep? {
      SweepKeepsLock(s.table[e.target], s.now);
    }
  }

  /** A locked target stands still: it has no draft to finalize, no checkout to propose on or expire. */
  lemma LockedStands(s: System, e: Step, a: LineageId)
    requires TablesSound(s) && Enabled(s, e) && Locked(s.table, a)
    ensures a in Next(s, e).table
    ensures FinalizedIn(Next(s, e).table[a]) == FinalizedIn(s.table[a])
    ensures !(e.CommitStep? && e.target == a) ==> Next(s, e).table[a] == s.table[a]
    ensures e.FinalizeStep? && e.target == a ==> OutcomeOf(s.table[a], e.proposal, s.now).FinalizeRefused?
  {
    hide OneEach, FinalizeIn, SweepTarget;
    assert Sound(s.table[a]);
    match e
    case SweepStep(target) =>
      SweepSound(s.table[a], s.now);
    case ProposeStep(id, target, checkout) =>
    case FinalizeStep(call, target, proposal) =>
      if target == a { assert s.table[a].proposals[proposal].status != Draft; }
    case _ =>
  }

  /** The proposals finalized on a target are those finalized before and the one this step finalizes. */
  lemma FinalizedStep(s: System, e: Step, a: LineageId)
    requires TablesSound(s) && Enabled(s, e) && Orderly(s, e) && a in s.table && a in Next(s, e).table
    ensures FinalizedIn(s.table[a]) <= FinalizedIn(Next(s, e).table[a])
    ensures Closes(s, e) && e.target == a ==> FinalizedIn(s.table[a]) < FinalizedIn(Next(s, e).table[a])
  {
    hide OneEach, Placed, FinalizeIn, AnyOpen, Superseding;
    match e
    case FinalizeStep(call, target, proposal) =>
      if s.table[target].proposals[proposal].status == Draft {
        FinalizeSound(s.table[target], proposal, s.now);
        assert proposal !in FinalizedIn(s.table[target]);
      }
    case ProposeStep(id, target, checkout) =>
      if target == a && RegisterErrorOf(s.table, a, checkout) == None {
        assert id in s.table[a].proposals ==> Hosts(s.table, a, id);
        ProposeSound(s.table[a], checkout, id);
        assert id !in FinalizedIn(s.table[a]);
      }
    case SweepStep(target) =>
      if target == a { SweepSound(s.table[a], s.now); }
    case _ =>
  }

  /** The call this step starts, if it closes the round. */
  predicate Closes(s: System, e: Step)
    requires Enabled(s, e)
  {
    e.FinalizeStep? && OutcomeOf(s.table[e.target], e.proposal, s.now) == SnapshotReady
  }

  lemma CallsStep(s: System, e: Step)
    requires Inv(s) && Enabled(s, e)
    ensures CallsOk(Next(s, e))
  {
    hide Sound, Paired, LocksOk, ChainOk, HostedOnce, CallOk;
    var s' := Next(s, e);
    forall c | c in s'.calls
      ensures CallOk(s', s'.calls[c])
      ensures if c in s.calls then s'.calls[c] == s.calls[c] else Closes(s, e) && s'.calls[c].target == e.target
      ensures c in s.calls && Closes(s, e) ==> s.calls[c].target != e.target
    {
      if c in s.calls {
        CallStands(s, e, c);
      } else {
        NewCall(s, e);
      }
    }
  }

  /** A call in flight keeps its lock and finds its target as it left it. */
  lemma CallStands(s: System, e: Step, c: nat)
    requires Inv(s) && Enabled(s, e) && c in s.calls && c in Next(s, e).calls
    ensures CallOk(Next(s, e), s.calls[c]) && Next(s, e).calls[c] == s.calls[c]
    ensures Closes(s, e) ==> s.calls[c].target != e.target
  {
    hide LocksOk, ChainOk, HostedOnce, Sound, Paired, FinalizeIn, SweepTarget, AnyOpen, FinalizedIn;
    assert CallOk(s, s.calls[c]);
    LockedStands(s, e, s.calls[c].target);
    if e.CommitStep? { CommitsOwn(s, e); }
  }

  lemma NewCall(s: System, e: Step)
    requires TablesSound(s) && LocksOk(s) && Enabled(s, e) && Closes(s, e)
    ensures e.call in Next(s, e).calls
    ensures Next(s, e).calls[e.call].target == e.target && CallOk(Next(s, e), Next(s, e).calls[e.call])
  {
    hide Sound, LocksOk, FinalizeIn, SweepTarget, AnyOpen, FinalizedIn;
    LockStep(s, e, e.target);
    NotLeaked(s, e);
    HostsStep(s, e, e.target, e.proposal);
  }

  /** With one host for each proposal the look-up before a commit finds the target the call locked. */
  lemma CommitsOwn(s: System, e: Step)
    requires HostedOnce(s.table) && CallsOk(s) && Enabled(s, e) && e.CommitStep?
    ensures e.target == s.calls[e.call].target
  {
    hide Hosts, FinalizedIn, Locked;
  }

  /** A round closes only on a target that was not locked, so no failed call holds it. */
  lemma NotLeaked(s: System, e: Step)
    requires TablesSound(s) && LocksOk(s) && Enabled(s, e) && Closes(s, e)
    ensures !Locked(s.table, e.target) && e.target !in s.leaked
  {
    hide FinalizeIn, SweepTarget, AnyOpen, Sound;
    if Locked(s.table, e.target) { LockedStands(s, e, e.target); }
  }

  lemma LocksStep(s: System, e: Step)
    requires Inv(s) && Enabled(s, e)
    ensures LocksOk(Next(s, e))
  {
    hide ChainOk, FinalizeIn, SweepTarget, AnyOpen, FinalizedIn, Sound, Paired, HostedOnce;
    var s' := Next(s, e);
    if e.CommitStep? { CommitsOwn(s, e); }
    forall a ensures Locked(s'.table, a) <==> (a in s'.leaked || Held(s', a)) {
      LockStep(s, e, a);
      HeldStep(s, e, a);
      if e.CommitStep? && s.calls[e.call].target == a {
        assert Held(s, a);
      }
    }
  }

  lemma HeldStep(s: System, e: Step, a: LineageId)
    requires CallsOk(s) && Enabled(s, e)
    ensures Held(Next(s, e), a) <==>
              || (Held(s, a) && !((e.CommitStep? || e.FailStep?) && s.calls[e.call].target == a))
              || (Closes(s, e) && e.target == a)
  {
    hide FinalizeIn, SweepTarget, AnyOpen, FinalizedIn;
    var s' := Next(s, e);
    if Held(s, a) {
      var c :| c in s.calls && s.calls[c].target == a;
      assert !((e.CommitStep? || e.FailStep?) && e.call == c) ==> c in s'.calls && s'.calls[c].target == a;
    }
    if Closes(s, e) { assert s'.calls[e.call].target == e.target; }
  }

  lemma ChainStep(s: System, e: Step)
    requires Inv(s) && Enabled(s, e) && Orderly(s, e)
    ensures ChainOk(Next(s, e))
  {
    hide LocksOk, HostedOnce, Sound, Paired, Orderly, FinalizeIn, SweepTarget, AnyOpen, FinalizedIn;
    var s' := Next(s, e);
    NothingLeaves(s, e);
    if e.CommitStep? { CommitsOwn(s, e); }
    forall a | a in s.table ensures a in s'.table && FinalizedIn(s.table[a]) <= FinalizedIn(s'.table[a]) {
      FinalizedStep(s, e, a);
    }
    if Closes(s, e) {
      assert s'.calls[e.call].frozen == FinalizedIn(s'.table[e.target]);
      FinalizedStep(s, e, e.target);
    }
  }

  lemma TablesStep(s: System, e: Step)
    requires TablesOk(s) && Enabled(s, e) && Orderly(s, e)
    ensures TablesOk(Next(s, e)) && Grown(s.table, Next(s, e).table)
  {
    hide Sound, Paired, Advances, Next, Orderly;
    IdsStep(s, e);
    forall a | a in Next(s, e).table
      ensures TargetOk(Next(s, e).table[a]) && (a in s.table ==> Advances(s.table[a], Next(s, e).table[a]))
    {
      TargetStep(s, e, a);
    }
    NothingLeaves(s, e);
  }

  lemma NothingLeaves(s: System, e: Step)
    requires Enabled(s, e)
    ensures s.table.Keys <= Next(s, e).table.Keys
  {
    hide FinalizeIn, SweepTarget, AnyOpen;
  }

  lemma RegionStands(s: System, e: Step)
    requires Enabled(s, e) && (s.region == Normal ==> s.leaked == {})
    ensures Next(s, e).region == s.region && (s.region == Normal ==> Next(s, e).leaked == {})
  {
    hide Sweep, TryRegister, RegisterProposal, RecordFinalize, Release, OutcomeOf, FinalizedIn;
  }

  lemma StepKeeps(s: System, e: Step)
    requires Inv(s) && Enabled(s, e) && Orderly(s, e)
    ensures Inv(Next(s, e)) && Grown(s.table, Next(s, e).table)
  {
    hide TablesOk, LocksOk, ChainOk, Grown;
    RegionStands(s, e);
    HostedOnceIff(s, e);
    hide Next, HostedOnce;
    hide CallsOk;
    TablesStep(s, e);
    CallsStep(s, e);
    LocksStep(s, e);
    ChainStep(s, e);
  }

  /** A step that moves every target forward and gives no proposal a second host proposes nothing twice. */
  lemma KeptIsOrderly(s: System, e: Step)
    requires TablesOk(s) && HostedOnce(s.table) && Enabled(s, e)
    requires TablesOk(Next(s, e)) && HostedOnce(Next(s, e).table) && Grown(s.table, Next(s, e).table)
    ensures Orderly(s, e)
  {
    hide Sound, Paired, Advances, FinalizeIn, SweepTarget, AnyOpen;
    if e.ProposeStep? && RegisterErrorOf(s.table, e.target, e.checkout) == None {
      HostedOnceIff(s, e);
      ProposeOkIff(s.table[e.target], e.checkout, e.id);
      assert Next(s, e).table[e.target] == Proposed(s.table[e.target], e.checkout, e.id);
    }
  }

  /** A step keeps the invariant and moves every target only forward if and only if it is orderly. */
  lemma StepKeepsIff(s: System, e: Step)
    requires Inv(s) && Enabled(s, e)
    ensures Inv(Next(s, e)) && Grown(s.table, Next(s, e).table) <==> Orderly(s, e)
  {
    hide TablesOk, HostedOnce, LocksOk, ChainOk, CallsOk, Orderly, Grown, Next;
    if Orderly(s, e) {
      StepKeeps(s, e);
    }
    if Inv(Next(s, e)) && Grown(s.table, Next(s, e).table) {
      KeptIsOrderly(s, e);
    }
  }

  // ----- whole runs -----

  /** The steps can be taken one after another. */
  ghost predicate Possible(s: System, es: seq<Step>)
    decreases es
  {
    es == [] || (Enabled(s, es[0]) && Possible(Next(s, es[0]), es[1..]))
  }

  function Run(s: System, es: seq<Step>): System
    requires Possible(s, es)
    decreases es
  {
    if es == [] then s else Run(Next(s, es[0]), es[1..])
  }

  lemma RunNone(s: System)
    ensures Possible(s, []) && AllOrderly(s, []) && Run(s, []) == s
  {
  }

  lemma RunFirst(s: System, e: Step, es: seq<Step>)
    requires Enabled(s, e) && Possible(Next(s, e), es)
    ensures Possible(s, [e] + es) && Run(s, [e] + es) == Run(Next(s, e), es)
    ensures AllOrderly(s, [e] + es) <==> Orderly(s, e) && AllOrderly(Next(s, e), es)
  {
    assert ([e] + es)[1..] == es;
  }

  /** Every propose of the run is refused, or brings a node no target has, or its checkout's own draft. */
  ghost predicate AllOrderly(s: System, es: seq<Step>)
    requires Possible(s, es)
    decreases es
  {
    es == [] || (Orderly(s, es[0]) && AllOrderly(Next(s, es[0]), es[1..]))
  }

  /** The invariant holds in every state of the run, and every step moves every target only forward. */
  ghost predicate KeptThrough(s: System, es: seq<Step>)
    requires Possible(s, es)
    decreases es
  {
    Inv(s) && (es == [] || (Grown(s.table, Next(s, es[0]).table) && KeptThrough(Next(s, es[0]), es[1..])))
  }

  lemma {:induction false} RunKeepsIff(s: System, es: seq<Step>)
    requires Inv(s) && Possible(s, es)
    ensures KeptThrough(s, es) <==> AllOrderly(s, es)
    decreases es
  {
    if es != [] {
      hide Inv, Next, Grown, Orderly;
      StepKeepsIff(s, es[0]);
      if Inv(Next(s, es[0])) {
        RunKeepsIff(Next(s, es[0]), es[1..]);
      } else {
        NotKept(Next(s, es[0]), es[1..]);
      }
    }
  }

  lemma NotKept(s: System, es: seq<Step>)
    requires Possible(s, es) && !Inv(s)
    ensures !KeptThrough(s, es)
  {
  }

  /** The states runs of any kind reach. */
  ghost predicate Reachable(s: System) {
    exists region, es :: Possible(Start(region), es) && Run(Start(region), es) == s
  }

  /** The states orderly runs reach. */
  ghost predicate ReachedInOrder(s: System) {
    exists region, es :: Possible(Start(region), es) && AllOrderly(Start(region), es) && Run(Start(region), es) == s
  }

  lemma {:induction false} RunKeeps(s: System, es: seq<Step>)
    requires Inv(s) && Possible(s, es) && AllOrderly(s, es)
    ensures Inv(Run(s, es)) && Grown(s.table, Run(s, es).table)
    decreases es
  {
    if es == [] {
    } else {
      StepKeeps(s, es[0]);
      RunKeeps(Next(s, es[0]), es[1..]);
      hide Inv, Next, Grown;
      GrownOn(s.table, Next(s, es[0]).table, Run(s, es).table);
    }
  }

  lemma GrownOn(t: Table, u: Table, v: Table)
    requires Grown(t, u) && Grown(u, v)
    ensures Grown(t, v)
  {
    forall a | a in t ensures a in v && Advances(t[a], v[a]) {
      assert Advances(t[a], u[a]) && Advances(u[a], v[a]);
    }
  }

  lemma StartInv(region: Sensitivity)
    ensures Inv(Start(region)) && AnyInv(Start(region))
  {
    assert Start(region).written == [];
  }

  lemma InOrderInv(s: System)
    requires ReachedInOrder(s)
    ensures Inv(s)
  {
    var region, es :| Possible(Start(region), es) && AllOrderly(Start(region), es) && Run(Start(region), es) == s;
    hide Inv, AnyInv;
    StartInv(region);
    RunKeeps(Start(region), es);
  }

  // ----- what holds of every run -----

  /** Every call's proposal has a host, and only a High region leaks. */
  ghost predicate AnyInv(s: System) {
    && TablesSound(s)
    && (forall c <- s.calls.Keys :: Hosts(s.table, s.calls[c].target, s.calls[c].proposal))
    && (s.region == Normal ==> s.leaked == {})
  }

  lemma AnyStepKeeps(s: System, e: Step)
    requires AnyInv(s) && Enabled(s, e)
    ensures AnyInv(Next(s, e))
  {
    hide Sound, AnyOpen;
    RegionStands(s, e);
    IdsStep(s, e);
    forall a | a in Next(s, e).table ensures Sound(Next(s, e).table[a]) {
      TargetSound(s, e, a);
    }
    forall c | c in s.calls ensures Hosts(Next(s, e).table, s.calls[c].target, s.calls[c].proposal) {
      HostsStep(s, e, s.calls[c].target, s.calls[c].proposal);
    }
    if e.FinalizeStep? { HostsStep(s, e, e.target, e.proposal); }
  }

  lemma {:induction false} AnyRunKeeps(s: System, es: seq<Step>)
    requires AnyInv(s) && Possible(s, es)
    ensures AnyInv(Run(s, es)) && Run(s, es).region == s.region
    decreases es
  {
    if es != [] {
      AnyStepKeeps(s, es[0]);
      RegionStands(s, es[0]);
      hide AnyInv, Next;
      AnyRunKeeps(Next(s, es[0]), es[1..]);
    }
  }

  lemma ReachableAnyInv(s: System)
    requires Reachable(s)
    ensures AnyInv(s)
  {
    var region, es :| Possible(Start(region), es) && Run(Start(region), es) == s;
    hide Inv, AnyInv;
    StartInv(region);
    AnyRunKeeps(Start(region), es);
  }

  /** A draft's checkout is open and a finalized proposal's is closed, and no checkout has two of either. */
  lemma DraftsAreOpen(s: System, a: LineageId)
    requires Reachable(s) && a in s.table
    ensures OneEach(s.table[a], Finalized) && OneEach(s.table[a], Draft)
    ensures forall p <- s.table[a].proposals.Keys ::
              var c := s.table[a].proposals[p].checkout;
              && c in s.table[a].checkouts
              && (s.table[a].proposals[p].status == Draft ==> s.table[a].checkouts[c].status == Open)
              && (s.table[a].proposals[p].status == Finalized ==> s.table[a].checkouts[c].status == Closed)
  {
    ReachableAnyInv(s);
  }

  /** While the lock is held there is no open checkout and no draft, and no step but a release changes the target. */
  lemma LockedIsQuiet(s: System, e: Step, a: LineageId)
    requires Reachable(s) && Enabled(s, e) && Locked(s.table, a)
    ensures forall c <- s.table[a].checkouts.Keys :: s.table[a].checkouts[c].status != Open
    ensures forall p <- s.table[a].proposals.Keys :: s.table[a].proposals[p].status != Draft
    ensures a in Next(s, e).table
    ensures !(e.CommitStep? && e.target == a) ==> Next(s, e).table[a] == s.table[a]
    ensures FinalizedIn(Next(s, e).table[a]) == FinalizedIn(s.table[a])
  {
    ReachableAnyInv(s);
    assert Sound(s.table[a]);
    LockedStands(s, e, a);
  }

  /** The look-up after finalizing never comes back empty. */
  lemma TargetIsFound(s: System, call: nat)
    requires Reachable(s) && call in s.calls
    ensures Hosts(s.table, s.calls[call].target, s.calls[call].proposal)
  {
    ReachableAnyInv(s);
  }

  // ----- what holds of orderly runs -----

  /** Checkouts and finalized proposals pair off. */
  lemma RoundsPair(s: System, a: LineageId)
    requires ReachedInOrder(s) && a in s.table
    ensures forall c <- s.table[a].checkouts.Keys ::
              s.table[a].checkouts[c].status == Closed <==> HasFinalized(s.table[a], c)
    ensures OneEach(s.table[a], Finalized)
  {
    InOrderInv(s);
  }

  /** A snapshot carries exactly what is finalized on its target at the moment the lock is released. */
  lemma SnapshotIsTheFinalizedSet(s: System, e: Step)
    requires ReachedInOrder(s) && Enabled(s, e) && e.CommitStep?
    ensures var s' := Next(s, e);
            var w := s'.written[|s'.written| - 1];
            && w.target == e.target == s.calls[e.call].target
            && Locked(s.table, w.target) && !Locked(s'.table, w.target)
            && w.proposals == FinalizedIn(s.table[w.target]) == FinalizedIn(s'.table[w.target])
            && s'.table[w.target].lastSnapshot == Some(w.id)
  {
    InOrderInv(s);
    CommitsOwn(s, e);
  }

  /** Between taking the lock and releasing it the call's proposal still has its one host. */
  lemma TargetIsNotLost(s: System, call: nat, a: LineageId)
    requires ReachedInOrder(s) && call in s.calls
    ensures Hosts(s.table, a, s.calls[call].proposal) <==> a == s.calls[call].target
  {
    InOrderInv(s);
  }

  /**
   A target no call has leaked is locked exactly while one call is between its two critical sections. In a
   Normal region that is every target: no orderly run leaks a lock.
   */
  lemma LockedIffOneCall(s: System, a: LineageId)
    requires ReachedInOrder(s)
    ensures a !in s.leaked ==> (Locked(s.table, a) <==> exists c :: CallsOn(s, a) == {c})
    ensures |CallsOn(s, a)| <= 1
    ensures s.region == Normal ==> s.leaked == {}
  {
    InOrderInv(s);
    hide TablesOk, HostedOnce, ChainOk, ReachedInOrder;
    if Held(s, a) {
      var c :| c in s.calls && s.calls[c].target == a;
      assert CallsOn(s, a) == {c};
    } else {
      assert CallsOn(s, a) == {};
    }
    if c :| CallsOn(s, a) == {c} {
      assert c in CallsOn(s, a);
    }
  }

  function CallsOn(s: System, a: LineageId): set<nat> {
    set c | c in s.calls && s.calls[c].target == a
  }

  /** The snapshots of one target form a strictly increasing chain, and nothing in them is ever taken back. */
  lemma SnapshotsGrow(s: System, i: nat, j: nat)
    requires ReachedInOrder(s) && i < j < |s.written| && s.written[i].target == s.written[j].target
    ensures s.written[i].proposals < s.written[j].proposals <= FinalizedIn(StateOf(s.table, s.written[j].target))
  {
    InOrderInv(s);
    assert s.written[j] in s.written;
  }

  /** A terminal status is never left, however the run goes on in order. */
  lemma TerminalStays(s: System, es: seq<Step>)
    requires ReachedInOrder(s) && Possible(s, es) && AllOrderly(s, es)
    ensures Grown(s.table, Run(s, es).table)
  {
    InOrderInv(s);
    RunKeeps(s, es);
  }

  // ----- the lock that is not released -----

  lemma {:induction false} HighNeverReleases(s: System, es: seq<Step>, a: LineageId)
    requires AnyInv(s) && Possible(s, es) && s.region == High && Locked(s.table, a)
    ensures a in Run(s, es).table && Run(s, es).table[a] == s.table[a]
    decreases es
  {
    if es == [] {
    } else {
      var e := es[0];
      hide TablesSound, Next;
      LockedStands(s, e, a);
      RegionStands(s, e);
      AnyStepKeeps(s, e);
      HighNeverReleases(Next(s, e), es[1..], a);
    }
  }

  lemma {:induction false} FreshId(used: set<LineageId>, n: nat) returns (id: LineageId)
    ensures id !in used && id.uuid >= n
    decreases |used|
  {
    id := LineageId(n);
    if id in used {
      id := FreshId(used - {id}, n + 1);
    }
  }

  /**
   A call that closed a round leaves its target locked for good, in every continuation of any kind, if and only
   if the default region is High: the snapshot is unsigned, so writing it fails, and only a commit lets go.
   */
  lemma LockedForeverIffHigh(s: System, call: nat)
    requires ReachedInOrder(s) && call in s.calls
    ensures (forall es :: Possible(s, es) ==> Locked(Run(s, es).table, s.calls[call].target)) <==> s.region == High
  {
    InOrderInv(s);
    var a := s.calls[call].target;
    assert Locked(s.table, a) && AnyInv(s);
    hide AnyInv, Inv, Locked;
    if s.region == High {
      forall es | Possible(s, es) ensures Locked(Run(s, es).table, a) {
        HighNeverReleases(s, es, a);
      }
    } else {
      CommitReleases(s, call);
    }
  }

  lemma CommitReleases(s: System, call: nat)
    requires AnyInv(s) && s.region == Normal && call in s.calls
    ensures exists es :: Possible(s, es) && !Locked(Run(s, es).table, s.calls[call].target)
  {
    var id := FreshId(s.used, 0);
    var e := CommitStep(call, id, s.calls[call].target);
    RunFirst(s, e, []);
    assert [e] + [] == [e];
    assert !Locked(Run(s, [e]).table, s.calls[call].target);
  }

  /** In a High region a call that failed has left its target locked and unchanged in every continuation. */
  lemma LeakIsForever(s: System, es: seq<Step>, a: LineageId)
    requires ReachedInOrder(s) && Possible(s, es) && a in s.leaked
    ensures s.region == High && Locked(s.table, a)
    ensures a in Run(s, es).table && Run(s, es).table[a] == s.table[a]
  {
    InOrderInv(s);
    HighNeverReleases(s, es, a);
  }
}
