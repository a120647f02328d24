/**
 Rounds that end without a ConsensusSnapshot. A round is to close when the last outstanding checkout on its
 target finalizes or expires; a finalize that fails keeps the lock, and an expiry closes nothing, whether a
 sweep notices it or not.
 */
module UnclosedRounds {
  import opened Common
  import opened SemanticTable
  import opened ConsensusTargets
  import opened ConsensusRuns

  // ----- the leaked lock, from an empty table -----

  function OneOpen(c: LineageId): TargetState {
    TargetState(map[c := Checkout(0, 1, Open)], map[], false, None)
  }

  function OneDraft(c: LineageId, p: LineageId): TargetState {
    TargetState(map[c := Checkout(0, 1, Open)], map[p := Proposal(c, Draft)], false, None)
  }

  function OneDone(c: LineageId, p: LineageId, locked: bool): TargetState {
    TargetState(map[c := Checkout(0, 1, Closed)], map[p := Proposal(c, Finalized)], locked, None)
  }

  lemma StepCheckout(a: LineageId, c: LineageId)
    ensures var e := CheckoutStep(c, a, 0, 1);
            Enabled(Start(High), e) && Next(Start(High), e) == System(High, map[a := OneOpen(c)], 0, {c}, map[], [], {})
  {
  }

  lemma StepPropose(a: LineageId, c: LineageId, p: LineageId)
    requires c != p
    ensures var s, e := System(High, map[a := OneOpen(c)], 0, {c}, map[], [], {}), ProposeStep(p, a, c);
            Enabled(s, e) && Next(s, e) == System(High, map[a := OneDraft(c, p)], 0, {c, p}, map[], [], {})
  {
    assert Superseding(OneOpen(c), c) == map[];
    assert {c} + {p} == {c, p};
  }

  lemma StepFinalize(a: LineageId, c: LineageId, p: LineageId)
    ensures var s, e := System(High, map[a := OneDraft(c, p)], 0, {c, p}, map[], [], {}), FinalizeStep(0, a, p);
            Enabled(s, e)
            && Next(s, e) == System(High, map[a := OneDone(c, p, true)], 0, {c, p}, map[0 := Call(p, a, {p})], [], {})
  {
    var done := OneDone(c, p, false);
    assert FinalizeIn(OneDraft(c, p), p, 0) == done by {
      assert LapsedIds(done, 0) == {};
      NothingExpired(done);
    }
    assert !AnyOpen(done);
    assert FinalizedIn(OneDone(c, p, true)) == {p};
  }

  lemma StepFail(a: LineageId, c: LineageId, p: LineageId)
    ensures var s := System(High, map[a := OneDone(c, p, true)], 0, {c, p}, map[0 := Call(p, a, {p})], [], {});
            Enabled(s, FailStep(0))
            && Next(s, FailStep(0)) == System(High, map[a := OneDone(c, p, true)], 0, {c, p}, map[], [], {a})
  {
  }

  /** Check out, propose, finalize, fail: the lock is held, by nobody, and no snapshot was written. */
  lemma LeakHappens(a: LineageId, c: LineageId, p: LineageId)
    requires c != p
    ensures var es := [CheckoutStep(c, a, 0, 1), ProposeStep(p, a, c), FinalizeStep(0, a, p), FailStep(0)];
            && Possible(Start(High), es) && AllOrderly(Start(High), es)
            && var s := Run(Start(High), es);
               s.calls == map[] && s.written == [] && a in s.leaked && Locked(s.table, a)
  {
    var e1, e2, e3, e4 := CheckoutStep(c, a, 0, 1), ProposeStep(p, a, c), FinalizeStep(0, a, p), FailStep(0);
    var s1 := System(High, map[a := OneOpen(c)], 0, {c}, map[], [], {});
    var s2 := System(High, map[a := OneDraft(c, p)], 0, {c, p}, map[], [], {});
    var s3 := System(High, map[a := OneDone(c, p, true)], 0, {c, p}, map[0 := Call(p, a, {p})], [], {});
    var s4 := System(High, map[a := OneDone(c, p, true)], 0, {c, p}, map[], [], {a});
    StepCheckout(a, c);
    StepPropose(a, c, p);
    StepFinalize(a, c, p);
    StepFail(a, c, p);
    assert forall b :: !Hosts(s1.table, b, p);
    hide Next, Enabled, Run, Possible, AllOrderly;
    ThreeSteps(Start(High), e1, e2, e3, s1, s2, s3);
    LastStep(Start(High), [e1, e2, e3], s3, e4);
    assert [e1, e2, e3] + [e4] == [e1, e2, e3, e4];
  }

  // ----- the round whose last checkout runs out of time -----

  /** Something was finalized on the target and is in none of its snapshots. */
  ghost predicate Unwritten(s: System, a: LineageId) {
    a in s.table && exists p :: p in FinalizedIn(s.table[a]) && !Carried(s.written, a, p)
  }

  ghost predicate Carried(written: seq<Snapshot>, a: LineageId, p: LineageId) {
    exists w <- written :: w.target == a && p in w.proposals
  }

  /** A checkout on the target is outstanding: open, with time left. */
  ghost predicate Outstanding(ts: TargetState, now: nat) {
    exists c <- ts.checkouts.Keys :: ts.checkouts[c].status == Open && !TtlExpired(ts.checkouts[c], now)
  }

  /** No checkout is outstanding, nobody is about to write the round's snapshot, and there is something to write. */
  ghost predicate Overdue(s: System, a: LineageId) {
    a in s.table && !Outstanding(s.table[a], s.now) && !Locked(s.table, a) && Unwritten(s, a)
  }

  /** Overdue, and a sweep has noticed: no checkout is even open. */
  ghost predicate Stranded(s: System, a: LineageId) {
    a in s.table && !AnyOpen(s.table[a]) && !Locked(s.table, a) && Unwritten(s, a)
  }

  /** The last outstanding checkout runs out of time while something finalized waits for its snapshot. */
  ghost predicate RunsOut(s: System, e: Step, a: LineageId) {
    && e.Wait? && Unwritten(s, a) && !Locked(s.table, a)
    && Outstanding(s.table[a], s.now) && !Outstanding(s.table[a], s.now + e.time)
  }

  /** The step registers a checkout with time left, or finalizes a draft, on the target. */
  ghost predicate Revives(s: System, e: Step, a: LineageId) {
    || (e.CheckoutStep? && e.target == a && s.now < e.openedAt + e.ttl)
    || (e.FinalizeStep? && e.target == a && Hosts(s.table, a, e.proposal)
        && s.table[a].proposals[e.proposal].status == Draft)
  }

  /** The step sweeps the target, has a checkout to expire there, and leaves none open. */
  ghost predicate ExpiresLast(s: System, e: Step, a: LineageId) {
    e == SweepStep(a) && a in s.table && AnyOpen(s.table[a]) && !Outstanding(s.table[a], s.now)
  }

  /** What a sweep leaves open is what was outstanding, and that is outstanding still. */
  lemma SweptOpen(ts: TargetState, now: nat)
    ensures AnyOpen(SweepTarget(ts, now)) <==> Outstanding(ts, now)
    ensures Outstanding(SweepTarget(ts, now), now) <==> Outstanding(ts, now)
  {
    var r := SweepTarget(ts, now);
    if c :| c in ts.checkouts && ts.checkouts[c].status == Open && !TtlExpired(ts.checkouts[c], now) {
      assert r.checkouts[c].status == Open;
    }
    if c :| c in r.checkouts && r.checkouts[c].status == Open {
      assert ts.checkouts[c].status == Open && !TtlExpired(ts.checkouts[c], now);
    }
  }

  /** A swept round that is overdue is stranded, and a stranded one is overdue. */
  lemma StrandedIsOverdue(s: System, a: LineageId)
    ensures Stranded(s, a) ==> Overdue(s, a)
    ensures Overdue(s, a) && !AnyOpen(s.table[a]) ==> Stranded(s, a)
  {
    hide Unwritten;
  }

  predicate Touches(s: System, e: Step, a: LineageId)
    requires Enabled(s, e)
  {
    match e
    case SweepStep(b) => b == a
    case CheckoutStep(_, b, _, _) => b == a
    case ProposeStep(_, b, _) => b == a
    case FinalizeStep(_, b, _) => b == a
    case CommitStep(_, _, b) => b == a
    case _ => false
  }

  /** A step on another target changes neither this one nor what its snapshots carry. */
  lemma OtherTarget(s: System, e: Step, a: LineageId)
    requires Enabled(s, e) && !Touches(s, e, a)
    ensures a in Next(s, e).table <==> a in s.table
    ensures a in s.table ==> Next(s, e).table[a] == s.table[a]
    ensures Unwritten(Next(s, e), a) <==> Unwritten(s, a)
  {
    hide AnyOpen, FinalizeIn, SweepTarget, OutcomeOf;
    if e.CommitStep? { CommitElsewhere(s, e, a); }
  }

  lemma CommitElsewhere(s: System, e: Step, a: LineageId)
    requires Enabled(s, e) && e.CommitStep? && e.target != a
    ensures forall p :: Carried(Next(s, e).written, a, p) <==> Carried(s.written, a, p)
  {
    var w := Snapshot(e.id, e.target, s.calls[e.call].frozen);
    forall x ensures x in s.written + [w] <==> x in s.written || x == w {
    }
  }

  /**
   What becomes of a target's round in one step of an orderly run. It begins to be overdue exactly when time
   passes the end of its last outstanding checkout, and ceases to be exactly when somebody checks the target
   out again or finalizes a draft left on it.
   */
  lemma OverdueIff(s: System, e: Step, a: LineageId)
    requires ReachedInOrder(s) && Enabled(s, e) && Orderly(s, e)
    ensures !Overdue(s, a) && Overdue(Next(s, e), a) <==> RunsOut(s, e, a)
    ensures Overdue(s, a) && !Overdue(Next(s, e), a) <==> Overdue(s, a) && Revives(s, e, a)
  {
    InOrderInv(s);
    hide Inv, ReachedInOrder, Next, Overdue, RunsOut, Revives;
    if !Touches(s, e, a) {
      ElsewhereOverdue(s, e, a);
    } else {
      match e
      case SweepStep(_) => SweepOverdue(s, e, a);
      case CheckoutStep(_, _, _, _) => CheckoutOverdue(s, e, a);
      case ProposeStep(_, _, _) => ProposeOverdue(s, e, a);
      case FinalizeStep(_, _, _) => FinalizeOverdue(s, e, a);
      case CommitStep(_, _, _) => CommitOverdue(s, e, a);
    }
  }

  lemma ElsewhereOverdue(s: System, e: Step, a: LineageId)
    requires Enabled(s, e) && !Touches(s, e, a)
    ensures !Overdue(s, a) && Overdue(Next(s, e), a) <==> RunsOut(s, e, a)
    ensures Overdue(s, a) ==> Overdue(Next(s, e), a) && !Revives(s, e, a)
  {
    OtherTarget(s, e, a);
    hide Unwritten, AnyOpen, FinalizeIn, SweepTarget;
  }

  lemma SweepOverdue(s: System, e: Step, a: LineageId)
    requires Inv(s) && e == SweepStep(a)
    ensures Overdue(Next(s, e), a) <==> Overdue(s, a)
    ensures !RunsOut(s, e, a) && !Revives(s, e, a)
  {
    hide HostedOnce, LocksOk, ChainOk, CallsOk, SweepTarget, AnyOpen, Sound, Paired, FinalizedIn, Outstanding;
    if a in s.table {
      SweptOpen(s.table[a], s.now);
      SweepSound(s.table[a], s.now);
      SweepKeepsLock(s.table[a], s.now);
    }
  }

  lemma CheckoutOverdue(s: System, e: Step, a: LineageId)
    requires Inv(s) && Enabled(s, e) && e.CheckoutStep? && e.target == a
    ensures Overdue(Next(s, e), a) <==> Overdue(s, a) && !Revives(s, e, a)
    ensures !RunsOut(s, e, a)
  {
    hide HostedOnce, LocksOk, ChainOk, CallsOk, Sound, Paired;
    var ts, c := StateOf(s.table, a), Checkout(e.openedAt, e.ttl, Open);
    if !ts.snapshotInProgress {
      OneMoreOut(ts, e.id, c, s.now);
      hide Outstanding;
      assert FinalizedIn(Next(s, e).table[a]) == FinalizedIn(ts);
    }
  }

  lemma OneMoreOut(ts: TargetState, id: LineageId, c: Checkout, now: nat)
    requires id !in ts.checkouts && c.status == Open
    ensures Outstanding(ts.(checkouts := ts.checkouts[id := c]), now) <==> Outstanding(ts, now) || !TtlExpired(c, now)
  {
    var r := ts.(checkouts := ts.checkouts[id := c]);
    if d :| d in ts.checkouts && ts.checkouts[d].status == Open && !TtlExpired(ts.checkouts[d], now) {
      assert r.checkouts[d] == ts.checkouts[d];
    }
    assert r.checkouts[id] == c;
  }

  lemma ProposeOverdue(s: System, e: Step, a: LineageId)
    requires Inv(s) && Enabled(s, e) && Orderly(s, e) && e.ProposeStep? && e.target == a
    ensures Overdue(Next(s, e), a) <==> Overdue(s, a)
    ensures !RunsOut(s, e, a) && !Revives(s, e, a)
  {
    hide HostedOnce, LocksOk, ChainOk, CallsOk, Sound, Paired, AnyOpen;
    if RegisterErrorOf(s.table, a, e.checkout) == None {
      ProposeFinalized(s, e, a);
      SameOpen(s.table[a], Next(s, e).table[a], s.now);
      hide FinalizedIn, Outstanding;
    }
  }

  /** An orderly proposal changes neither the checkouts of its target nor what is finalized there. */
  lemma ProposeFinalized(s: System, e: Step, a: LineageId)
    requires TablesSound(s) && Enabled(s, e) && Orderly(s, e) && e.ProposeStep? && e.target == a
    requires RegisterErrorOf(s.table, a, e.checkout) == None
    ensures a in Next(s, e).table && Next(s, e).table[a].checkouts == s.table[a].checkouts
    ensures Next(s, e).table[a].snapshotInProgress == s.table[a].snapshotInProgress
    ensures FinalizedIn(Next(s, e).table[a]) == FinalizedIn(s.table[a])
  {
    hide Sound;
    assert e.id in s.table[a].proposals ==> Hosts(s.table, a, e.id);
    ProposeSound(s.table[a], e.checkout, e.id);
    assert Next(s, e).table[a] == Proposed(s.table[a], e.checkout, e.id);
    assert e.id !in FinalizedIn(s.table[a]);
  }

  lemma SameOpen(ts: TargetState, r: TargetState, now: nat)
    requires r.checkouts == ts.checkouts
    ensures AnyOpen(r) <==> AnyOpen(ts)
    ensures Outstanding(r, now) <==> Outstanding(ts, now)
  {
  }

  /** A finalize either leaves a checkout outstanding, or takes the lock, or is refused. */
  lemma FinalizeOverdue(s: System, e: Step, a: LineageId)
    requires Inv(s) && Enabled(s, e) && e.FinalizeStep? && e.target == a
    ensures if Revives(s, e, a) then !Overdue(Next(s, e), a) else Overdue(Next(s, e), a) <==> Overdue(s, a)
    ensures !RunsOut(s, e, a)
  {
    hide HostedOnce, LocksOk, ChainOk, CallsOk, Sound, Paired;
    hide AnyOpen, SweepTarget, Unwritten, Outstanding, FinalizedIn;
    if Revives(s, e, a) {
      SweptOpen(Marked(s.table[a], e.proposal), s.now);
    }
  }

  lemma CommitOverdue(s: System, e: Step, a: LineageId)
    requires Inv(s) && Enabled(s, e) && e.CommitStep? && e.target == a
    ensures !Overdue(s, a) && !Overdue(Next(s, e), a)
    ensures !RunsOut(s, e, a)
  {
    CommitWrites(s, e, a);
    hide Unwritten, TablesOk, HostedOnce, LocksOk, ChainOk, Outstanding;
  }

  /** After a commit nothing finalized on its target is left unwritten; before, the target was locked. */
  lemma CommitWrites(s: System, e: Step, a: LineageId)
    requires Inv(s) && Enabled(s, e) && e.CommitStep? && e.target == a
    ensures Locked(s.table, a) && !Unwritten(Next(s, e), a)
  {
    CommitsOwn(s, e);
    hide TablesOk, HostedOnce, LocksOk, ChainOk, AnyOpen;
    var s' := Next(s, e);
    var w := Snapshot(e.id, a, s.calls[e.call].frozen);
    assert s'.written[|s.written|] == w;
    assert w in s'.written;
    assert CallOk(s, s.calls[e.call]);
    assert FinalizedIn(s'.table[a]) == w.proposals;
  }

  // ----- the round a sweep leaves behind -----

  /**
   The part of an overdue round's life that a sweep has noticed: it begins exactly with a sweep that expires the
   last open checkouts, and lasts until somebody checks the target out again.
   */
  lemma StrandedIff(s: System, e: Step, a: LineageId)
    requires ReachedInOrder(s) && Enabled(s, e) && Orderly(s, e)
    ensures !Stranded(s, a) && Stranded(Next(s, e), a) <==> ExpiresLast(s, e, a) && Unwritten(s, a)
    ensures Stranded(s, a) && !Stranded(Next(s, e), a) <==> Stranded(s, a) && e.CheckoutStep? && e.target == a
  {
    InOrderInv(s);
    hide Inv, ReachedInOrder, Next, Stranded, ExpiresLast;
    if !Touches(s, e, a) {
      ElsewhereStrands(s, e, a);
    } else {
      match e
      case SweepStep(_) => SweepStrands(s, a);
      case CheckoutStep(_, _, _, _) => CheckoutStrands(s, e, a);
      case ProposeStep(_, _, _) => ProposeStrands(s, e, a);
      case FinalizeStep(_, _, _) => FinalizeStrands(s, e, a);
      case CommitStep(_, _, _) => CommitStrands(s, e, a);
    }
  }

  lemma ElsewhereStrands(s: System, e: Step, a: LineageId)
    requires Enabled(s, e) && !Touches(s, e, a)
    ensures Stranded(Next(s, e), a) <==> Stranded(s, a)
    ensures !ExpiresLast(s, e, a)
  {
    OtherTarget(s, e, a);
    hide Unwritten, FinalizeIn, SweepTarget;
  }

  lemma SweepStrands(s: System, a: LineageId)
    requires Inv(s)
    ensures !Stranded(s, a) && Stranded(Next(s, SweepStep(a)), a)
       <==> ExpiresLast(s, SweepStep(a), a) && Unwritten(s, a)
    ensures Stranded(s, a) ==> Stranded(Next(s, SweepStep(a)), a)
  {
    hide HostedOnce, LocksOk, ChainOk, CallsOk, SweepTarget, AnyOpen, Sound, Paired, FinalizedIn, Outstanding;
    if a in s.table {
      SweptOpen(s.table[a], s.now);
      SweepSound(s.table[a], s.now);
      SweepKeepsLock(s.table[a], s.now);
      OpenIs(s.table[a], s.now);
      LockedHasNoneOpen(s.table[a]);
    }
  }

  lemma OpenIs(ts: TargetState, now: nat)
    ensures AnyOpen(ts) <==> exists c <- ts.checkouts.Keys :: ts.checkouts[c].status == Open
    ensures Outstanding(ts, now) ==> AnyOpen(ts)
  {
  }

  lemma LockedHasNoneOpen(ts: TargetState)
    requires Sound(ts)
    ensures AnyOpen(ts) ==> !ts.snapshotInProgress
  {
  }

  lemma CheckoutStrands(s: System, e: Step, a: LineageId)
    requires Enabled(s, e) && e.CheckoutStep? && e.target == a
    ensures !Stranded(Next(s, e), a) && !ExpiresLast(s, e, a)
  {
    hide Unwritten;
    var ts := StateOf(s.table, a);
    if !ts.snapshotInProgress {
      assert Next(s, e).table[a].checkouts[e.id].status == Open;
    }
  }

  lemma ProposeStrands(s: System, e: Step, a: LineageId)
    requires Inv(s) && Enabled(s, e) && Orderly(s, e) && e.ProposeStep? && e.target == a
    ensures Stranded(Next(s, e), a) <==> Stranded(s, a)
    ensures !ExpiresLast(s, e, a)
  {
    hide HostedOnce, LocksOk, ChainOk, CallsOk, Sound, Paired, AnyOpen;
    if RegisterErrorOf(s.table, a, e.checkout) == None {
      ProposeFinalized(s, e, a);
      SameOpen(s.table[a], Next(s, e).table[a], s.now);
      hide FinalizedIn;
    }
  }

  lemma FinalizeStrands(s: System, e: Step, a: LineageId)
    requires Inv(s) && Enabled(s, e) && e.FinalizeStep? && e.target == a
    ensures s.table[a].proposals[e.proposal].status == Draft ==> !Stranded(s, a) && !Stranded(Next(s, e), a)
    ensures s.table[a].proposals[e.proposal].status != Draft ==> (Stranded(Next(s, e), a) <==> Stranded(s, a))
    ensures !ExpiresLast(s, e, a)
  {
    hide HostedOnce, LocksOk, ChainOk, CallsOk, Paired, OneEach, AnyOpen, FinalizeIn, Unwritten;
    var ts := s.table[a];
    assert Sound(ts);
    if ts.proposals[e.proposal].status == Draft {
      var c := ts.proposals[e.proposal].checkout;
      assert ts.checkouts[c].status == Open;
      OpenIs(ts, s.now);
    }
  }

  lemma CommitStrands(s: System, e: Step, a: LineageId)
    requires Inv(s) && Enabled(s, e) && e.CommitStep? && e.target == a
    ensures !Stranded(s, a) && !Stranded(Next(s, e), a) && !ExpiresLast(s, e, a)
  {
    CommitWrites(s, e, a);
    hide Unwritten, TablesOk, HostedOnce, LocksOk, ChainOk;
  }

  // ----- whole runs -----

  /** No step of the run revives the target's round. */
  ghost predicate LeftAlone(s: System, es: seq<Step>, a: LineageId)
    requires Possible(s, es)
    decreases es
  {
    es == [] || (!Revives(s, es[0], a) && LeftAlone(Next(s, es[0]), es[1..], a))
  }

  /** However an orderly run goes on, an overdue round gets no snapshot as long as nobody revives it. */
  lemma {:induction false} OverdueUntilRevived(s: System, es: seq<Step>, a: LineageId)
    requires ReachedInOrder(s) && Possible(s, es) && AllOrderly(s, es) && Overdue(s, a) && LeftAlone(s, es, a)
    ensures Overdue(Run(s, es), a)
    ensures forall w <- Run(s, es).written :: w.target == a ==> w in s.written
    decreases es
  {
    if es != [] {
      NotWritten(s, es[0], a);
      hide Overdue, Next, Enabled, Orderly, Revives;
      OverdueIff(s, es[0], a);
      ReachedOn(s, es[0]);
      OverdueUntilRevived(Next(s, es[0]), es[1..], a);
    }
  }

  /** An overdue target is not locked, so nobody commits to it. */
  lemma NotWritten(s: System, e: Step, a: LineageId)
    requires ReachedInOrder(s) && Enabled(s, e) && Overdue(s, a)
    ensures forall w <- Next(s, e).written :: w.target == a ==> w in s.written
  {
    InOrderInv(s);
    if e.CommitStep? {
      CommitsOwn(s, e);
      hide TablesOk, HostedOnce, LocksOk, ChainOk, Unwritten, Outstanding;
    }
  }

  /** However an orderly run goes on, a stranded round stays so as long as nobody checks its target out. */
  lemma {:induction false} StrandedUntilCheckout(s: System, es: seq<Step>, a: LineageId)
    requires ReachedInOrder(s) && Possible(s, es) && AllOrderly(s, es) && Stranded(s, a)
    requires forall e <- es :: !(e.CheckoutStep? && e.target == a)
    ensures Stranded(Run(s, es), a)
    decreases es
  {
    if es == [] {
    } else {
      hide Stranded, Next, Enabled, Orderly;
      assert es[0] in es;
      StrandedIff(s, es[0], a);
      ReachedOn(s, es[0]);
      StrandedUntilCheckout(Next(s, es[0]), es[1..], a);
    }
  }

  lemma ReachedOn(s: System, e: Step)
    requires ReachedInOrder(s) && Enabled(s, e) && Orderly(s, e)
    ensures ReachedInOrder(Next(s, e))
  {
    hide Next, Enabled, Orderly;
    var region, es :| Possible(Start(region), es) && AllOrderly(Start(region), es) && Run(Start(region), es) == s;
    RunNone(Next(s, e));
    RunFirst(s, e, []);
    assert [e] + [] == [e];
    RunThrough(Start(region), es, [e]);
  }

  // ----- a stranded round, from an empty table -----

  /** Two checkouts, the second with a time to live of one, and what is proposed under the first. */
  function Two(c: LineageId, d: LineageId, first: CheckoutStatus, second: CheckoutStatus,
    proposals: map<LineageId, Proposal>): TargetState
  {
    TargetState(map[c := Checkout(0, 9, first), d := Checkout(0, 1, second)], proposals, false, None)
  }

  function Round(a: LineageId, ts: TargetState, now: nat, used: set<LineageId>): System {
    System(Normal, map[a := ts], now, used, map[], [], {})
  }

  lemma FirstOut(a: LineageId, c: LineageId)
    ensures var e := CheckoutStep(c, a, 0, 9);
            Enabled(Start(Normal), e)
            && Next(Start(Normal), e)
                 == Round(a, TargetState(map[c := Checkout(0, 9, Open)], map[], false, None), 0, {c})
  {
  }

  lemma SecondOut(a: LineageId, c: LineageId, d: LineageId)
    requires c != d
    ensures var s := Round(a, TargetState(map[c := Checkout(0, 9, Open)], map[], false, None), 0, {c});
            var e := CheckoutStep(d, a, 0, 1);
            Enabled(s, e) && Next(s, e) == Round(a, Two(c, d, Open, Open, map[]), 0, {c, d})
  {
    assert {c} + {d} == {c, d};
  }

  lemma FirstProposes(a: LineageId, c: LineageId, d: LineageId, p: LineageId)
    requires p !in {c, d}
    ensures var s, e := Round(a, Two(c, d, Open, Open, map[]), 0, {c, d}), ProposeStep(p, a, c);
            Enabled(s, e)
            && Next(s, e) == Round(a, Two(c, d, Open, Open, map[p := Proposal(c, Draft)]), 0, {c, d, p})
  {
    assert Superseding(Two(c, d, Open, Open, map[]), c) == map[];
    assert {c, d} + {p} == {c, d, p};
  }

  lemma FirstFinalizes(a: LineageId, c: LineageId, d: LineageId, p: LineageId)
    requires c != d
    ensures var s := Round(a, Two(c, d, Open, Open, map[p := Proposal(c, Draft)]), 0, {c, d, p});
            var e := FinalizeStep(0, a, p);
            Enabled(s, e) && OutcomeOf(s.table[a], p, 0) == StillPending
            && Next(s, e) == Round(a, Two(c, d, Closed, Open, map[p := Proposal(c, Finalized)]), 0, {c, d, p})
  {
    var ts := Two(c, d, Open, Open, map[p := Proposal(c, Draft)]);
    var done := Two(c, d, Closed, Open, map[p := Proposal(c, Finalized)]);
    assert FinalizeIn(ts, p, 0) == done by {
      assert LapsedIds(done, 0) == {};
      NothingExpired(done);
    }
    assert done.checkouts[d].status == Open;
  }

  lemma SecondExpires(a: LineageId, c: LineageId, d: LineageId, p: LineageId)
    requires c != d
    ensures var s := Round(a, Two(c, d, Closed, Open, map[p := Proposal(c, Finalized)]), 5, {c, d, p});
            Next(s, SweepStep(a))
              == Round(a, Two(c, d, Closed, Expired, map[p := Proposal(c, Finalized)]), 5, {c, d, p})
  {
    var ts := Two(c, d, Closed, Open, map[p := Proposal(c, Finalized)]);
    assert LapsedIds(ts, 5) == {d};
    assert Closing(ts, {d}) == Two(c, d, Closed, Expired, ts.proposals).checkouts;
    assert Dropping(ts, {d}) == ts.proposals;
  }

  lemma LeftBehind(a: LineageId, c: LineageId, d: LineageId, p: LineageId)
    requires c != d
    ensures var s := Round(a, Two(c, d, Closed, Expired, map[p := Proposal(c, Finalized)]), 5, {c, d, p});
            && Stranded(s, a) && FinalizedIn(s.table[a]) == {p}
            && s.written == [] && s.calls == map[] && s.leaked == {}
  {
    var s := Round(a, Two(c, d, Closed, Expired, map[p := Proposal(c, Finalized)]), 5, {c, d, p});
    assert p in FinalizedIn(s.table[a]) && !Carried(s.written, a, p);
  }

  lemma LeftOverdue(a: LineageId, c: LineageId, d: LineageId, p: LineageId)
    requires c != d
    ensures var s := Round(a, Two(c, d, Closed, Open, map[p := Proposal(c, Finalized)]), 5, {c, d, p});
            && Overdue(s, a) && !Stranded(s, a) && FinalizedIn(s.table[a]) == {p}
            && s.written == [] && s.calls == map[] && s.leaked == {}
  {
    var s := Round(a, Two(c, d, Closed, Open, map[p := Proposal(c, Finalized)]), 5, {c, d, p});
    assert p in FinalizedIn(s.table[a]) && !Carried(s.written, a, p);
    assert s.table[a].checkouts[d].status == Open;
  }

  /** Two check out, the first proposes and finalizes, and the second's time runs out. */
  lemma OverdueLeads(a: LineageId, c: LineageId, d: LineageId, p: LineageId)
    requires c != d && p !in {c, d}
    ensures Leads(Start(Normal),
              [CheckoutStep(c, a, 0, 9), CheckoutStep(d, a, 0, 1), ProposeStep(p, a, c), FinalizeStep(0, a, p),
               Wait(5)],
              Round(a, Two(c, d, Closed, Open, map[p := Proposal(c, Finalized)]), 5, {c, d, p}))
  {
    var e1, e2, e3 := CheckoutStep(c, a, 0, 9), CheckoutStep(d, a, 0, 1), ProposeStep(p, a, c);
    var e4, e5 := FinalizeStep(0, a, p), Wait(5);
    FirstOut(a, c);
    SecondOut(a, c, d);
    FirstProposes(a, c, d, p);
    FirstFinalizes(a, c, d, p);
    TimePasses(a, c, d, p);
    var done := Two(c, d, Closed, Open, map[p := Proposal(c, Finalized)]);
    var s1 := Round(a, TargetState(map[c := Checkout(0, 9, Open)], map[], false, None), 0, {c});
    var s2 := Round(a, Two(c, d, Open, Open, map[]), 0, {c, d});
    var s3 := Round(a, Two(c, d, Open, Open, map[p := Proposal(c, Draft)]), 0, {c, d, p});
    var s4 := Round(a, done, 0, {c, d, p});
    assert forall b :: !Hosts(s2.table, b, p);
    hide Two, Round, Run, Possible, AllOrderly, Leads, OutcomeOf, Start, Next, Enabled;
    ThreeSteps(Start(Normal), e1, e2, e3, s1, s2, s3);
    LastStep(Start(Normal), [e1, e2, e3], s3, e4);
    assert [e1, e2, e3] + [e4] == [e1, e2, e3, e4];
    LastStep(Start(Normal), [e1, e2, e3, e4], s4, e5);
    assert [e1, e2, e3, e4] + [e5] == [e1, e2, e3, e4, e5];
  }

  /** Then no checkout is outstanding, a finalized proposal is in no snapshot, and nobody is about to write one. */
  lemma OverdueHappens(a: LineageId, c: LineageId, d: LineageId, p: LineageId)
    requires c != d && p !in {c, d}
    ensures var es := [CheckoutStep(c, a, 0, 9), CheckoutStep(d, a, 0, 1), ProposeStep(p, a, c), FinalizeStep(0, a, p),
                       Wait(5)];
            && Possible(Start(Normal), es) && AllOrderly(Start(Normal), es)
            && var s := Run(Start(Normal), es);
               && Overdue(s, a) && !Stranded(s, a) && FinalizedIn(s.table[a]) == {p}
               && s.written == [] && s.calls == map[] && s.leaked == {}
  {
    hide Two, Round, Stranded, Overdue, FinalizedIn, Run, Possible, AllOrderly, Start;
    OverdueLeads(a, c, d, p);
    LeftOverdue(a, c, d, p);
  }

  /** A sweep after that leaves it stranded. */
  lemma StrandedHappens(a: LineageId, c: LineageId, d: LineageId, p: LineageId)
    requires c != d && p !in {c, d}
    ensures var es := [CheckoutStep(c, a, 0, 9), CheckoutStep(d, a, 0, 1), ProposeStep(p, a, c), FinalizeStep(0, a, p),
                       Wait(5), SweepStep(a)];
            && Possible(Start(Normal), es) && AllOrderly(Start(Normal), es)
            && var s := Run(Start(Normal), es);
               Stranded(s, a) && FinalizedIn(s.table[a]) == {p} && s.written == [] && s.calls == map[] && s.leaked == {}
  {
    hide Two, Round, Stranded, FinalizedIn, Run, Possible, AllOrderly, Start;
    var e1, e2, e3 := CheckoutStep(c, a, 0, 9), CheckoutStep(d, a, 0, 1), ProposeStep(p, a, c);
    var e4, e5, e6 := FinalizeStep(0, a, p), Wait(5), SweepStep(a);
    OverdueLeads(a, c, d, p);
    SecondExpires(a, c, d, p);
    LeftBehind(a, c, d, p);
    hide Next;
    LastStep(Start(Normal), [e1, e2, e3, e4, e5],
      Round(a, Two(c, d, Closed, Open, map[p := Proposal(c, Finalized)]), 5, {c, d, p}), e6);
    assert [e1, e2, e3, e4, e5] + [e6] == [e1, e2, e3, e4, e5, e6];
  }

  lemma TimePasses(a: LineageId, c: LineageId, d: LineageId, p: LineageId)
    ensures var done := Two(c, d, Closed, Open, map[p := Proposal(c, Finalized)]);
            && Enabled(Round(a, done, 0, {c, d, p}), Wait(5))
            && Next(Round(a, done, 0, {c, d, p}), Wait(5)) == Round(a, done, 5, {c, d, p})
            && Enabled(Round(a, done, 5, {c, d, p}), SweepStep(a))
  {
  }

  /** The run takes one state to the other in order. */
  ghost predicate Leads(s: System, es: seq<Step>, t: System) {
    Possible(s, es) && AllOrderly(s, es) && Run(s, es) == t
  }

  lemma ThreeSteps(s: System, e1: Step, e2: Step, e3: Step, s1: System, s2: System, s3: System)
    requires Enabled(s, e1) && Orderly(s, e1) && Next(s, e1) == s1
    requires Enabled(s1, e2) && Orderly(s1, e2) && Next(s1, e2) == s2
    requires Enabled(s2, e3) && Orderly(s2, e3) && Next(s2, e3) == s3
    ensures Leads(s, [e1, e2, e3], s3)
  {
    hide Next, Enabled, Orderly, Run, Possible, AllOrderly;
    assert [e3] + [] == [e3] && [e2] + [e3] == [e2, e3] && [e1] + [e2, e3] == [e1, e2, e3];
    RunNone(s3);
    RunFirst(s2, e3, []);
    RunFirst(s1, e2, [e3]);
    RunFirst(s, e1, [e2, e3]);
  }

  lemma LastStep(s: System, es: seq<Step>, t: System, e: Step)
    requires Leads(s, es, t) && Enabled(t, e) && Orderly(t, e)
    ensures Leads(s, es + [e], Next(t, e))
  {
    hide Next, Enabled, Orderly, Run, Possible, AllOrderly;
    assert [e] + [] == [e];
    RunNone(Next(t, e));
    RunFirst(t, e, []);
    RunThrough(s, es, [e]);
  }

  lemma {:induction false} RunThrough(s: System, es: seq<Step>, fs: seq<Step>)
    requires Possible(s, es) && Possible(Run(s, es), fs)
    ensures Possible(s, es + fs) && Run(s, es + fs) == Run(Run(s, es), fs)
    ensures AllOrderly(s, es + fs) <==> AllOrderly(s, es) && AllOrderly(Run(s, es), fs)
    decreases es
  {
    hide Next, Enabled, Orderly;
    if es == [] {
      assert es + fs == fs;
    } else {
      RunThrough(Next(s, es[0]), es[1..], fs);
      RunFirst(s, es[0], es[1..] + fs);
      assert es + fs == [es[0]] + (es[1..] + fs);
    }
  }
}
