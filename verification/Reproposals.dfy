/**
 Nodes proposed twice. `propose` takes the node from its caller, stores it under the lineage id it comes with
 and files it under that id, over whatever was filed there. Two runs from an empty table show what is lost.
 */
module Reproposals {
  import opened Common
  import opened SemanticTable
  import opened ConsensusTargets
  import opened ConsensusRuns

  /** The run is possible and leads from one state to the other; it need not be orderly. */
  ghost predicate Reaches(s: System, es: seq<Step>, t: System) {
    Possible(s, es) && Run(s, es) == t
  }

  lemma OneStep(s: System, e: Step, t: System)
    requires Enabled(s, e) && Next(s, e) == t
    ensures Reaches(s, [e], t)
  {
    hide Next, Enabled;
    RunNone(t);
    RunFirst(s, e, []);
    assert [e] + [] == [e];
  }

  lemma {:induction false} Then(s: System, es: seq<Step>, t: System, e: Step, u: System)
    requires Reaches(s, es, t) && Enabled(t, e) && Next(t, e) == u
    ensures Reaches(s, es + [e], u)
    decreases es
  {
    hide Next, Enabled;
    if es == [] {
      OneStep(t, e, u);
      assert es + [e] == [e];
    } else {
      Then(Next(s, es[0]), es[1..], t, e, u);
      RunFirst(s, es[0], es[1..] + [e]);
      assert es + [e] == [es[0]] + (es[1..] + [e]);
    }
  }

  // ----- finalized, and proposed again -----

  function Out(): Checkout {
    Checkout(0, 9, Open)
  }

  function Done(): Checkout {
    Checkout(0, 9, Closed)
  }

  function On(a: LineageId, ts: TargetState, used: set<LineageId>, calls: map<nat, Call>,
    written: seq<Snapshot>): System
  {
    System(Normal, map[a := ts], 0, used, calls, written, {})
  }

  lemma CheckedOut(a: LineageId, ts: TargetState, used: set<LineageId>, written: seq<Snapshot>, c: LineageId)
    requires c !in used && !ts.snapshotInProgress
    ensures var s, e := On(a, ts, used, map[], written), CheckoutStep(c, a, 0, 9);
            Enabled(s, e)
            && Next(s, e) == On(a, ts.(checkouts := ts.checkouts[c := Out()]), used + {c}, map[], written)
  {
  }

  lemma FirstCheckedOut(a: LineageId, c: LineageId)
    ensures var e := CheckoutStep(c, a, 0, 9);
            Enabled(Start(Normal), e)
            && Next(Start(Normal), e) == On(a, TargetState(map[c := Out()], map[], false, None), {c}, map[], [])
  {
  }

  /** With at most this node on the target, proposing it files it as the checkout's draft. */
  lemma ProposedOn(a: LineageId, ts: TargetState, used: set<LineageId>, written: seq<Snapshot>, c: LineageId,
    p: LineageId)
    requires c in ts.checkouts && ts.checkouts[c].status == Open && ts.proposals.Keys <= {p}
    ensures var s, e := On(a, ts, used, map[], written), ProposeStep(p, a, c);
            Enabled(s, e)
            && Next(s, e) == On(a, ts.(proposals := map[p := Proposal(c, Draft)]), used + {p}, map[], written)
  {
    assert Superseding(ts, c)[p := Proposal(c, Draft)] == map[p := Proposal(c, Draft)];
  }

  /** Finalizing the draft of the only open checkout takes the lock and freezes the one proposal. */
  lemma FinalizedOnly(a: LineageId, ts: TargetState, used: set<LineageId>, written: seq<Snapshot>, c: LineageId,
    p: LineageId)
    requires c in ts.checkouts && ts.proposals == map[p := Proposal(c, Draft)]
    requires forall d <- ts.checkouts.Keys :: ts.checkouts[d].status == Open <==> d == c
    ensures var s, e := On(a, ts, used, map[], written), FinalizeStep(0, a, p);
            var done := ts.(checkouts := ts.checkouts[c := ts.checkouts[c].(status := Closed)],
                            proposals := map[p := Proposal(c, Finalized)], snapshotInProgress := true);
            Enabled(s, e) && Next(s, e) == On(a, done, used, map[0 := Call(p, a, {p})], written)
  {
    var m := Marked(ts, p);
    assert m.proposals == map[p := Proposal(c, Finalized)];
    assert LapsedIds(m, 0) == {};
    NothingExpired(m);
    var r := FinalizeIn(ts, p, 0);
    assert r == m && !AnyOpen(r);
    assert FinalizedIn(r.(snapshotInProgress := true)) == {p};
  }

  lemma CommittedOn(a: LineageId, ts: TargetState, used: set<LineageId>, written: seq<Snapshot>, p: LineageId,
    n: LineageId)
    requires p in ts.proposals && n !in used
    ensures var s, e := On(a, ts, used, map[0 := Call(p, a, {p})], written), CommitStep(0, n, a);
            var r := ts.(snapshotInProgress := false, lastSnapshot := Some(n));
            Enabled(s, e) && Next(s, e) == On(a, r, used + {n}, map[], written + [Snapshot(n, a, {p})])
  {
    assert map[0 := Call(p, a, {p})] - {0} == map[];
  }

  /** The round that finalizes the node. */
  function FirstRound(a: LineageId, c: LineageId, p: LineageId, n: LineageId): seq<Step> {
    [CheckoutStep(c, a, 0, 9)] + [ProposeStep(p, a, c)] + [FinalizeStep(0, a, p)] + [CommitStep(0, n, a)]
  }

  function Settled(c: LineageId, p: LineageId, n: LineageId): TargetState {
    TargetState(map[c := Done()], map[p := Proposal(c, Finalized)], false, Some(n))
  }

  lemma FirstRoundSettles(a: LineageId, c: LineageId, p: LineageId, n: LineageId)
    requires n !in {c, p}
    ensures Reaches(Start(Normal), FirstRound(a, c, p, n),
              On(a, Settled(c, p, n), {c} + {p} + {n}, map[], [Snapshot(n, a, {p})]))
  {
    var out := TargetState(map[c := Out()], map[], false, None);
    var drafted := out.(proposals := map[p := Proposal(c, Draft)]);
    var locked := TargetState(map[c := Done()], map[p := Proposal(c, Finalized)], true, None);
    FirstCheckedOut(a, c);
    ProposedOn(a, out, {c}, [], c, p);
    FinalizedOnly(a, drafted, {c} + {p}, [], c, p);
    assert drafted.checkouts[c := Done()] == locked.checkouts;
    CommittedOn(a, locked, {c} + {p}, [], p, n);
    assert [] + [Snapshot(n, a, {p})] == [Snapshot(n, a, {p})];
    var s1, s2 := On(a, out, {c}, map[], []), On(a, drafted, {c} + {p}, map[], []);
    var s3 := On(a, locked, {c} + {p}, map[0 := Call(p, a, {p})], []);
    var e1, e2, e3, e4 := CheckoutStep(c, a, 0, 9), ProposeStep(p, a, c), FinalizeStep(0, a, p), CommitStep(0, n, a);
    hide Next, Enabled, Reaches, On, Settled;
    OneStep(Start(Normal), e1, s1);
    Then(Start(Normal), [e1], s1, e2, s2);
    Then(Start(Normal), [e1] + [e2], s2, e3, s3);
    Then(Start(Normal), [e1] + [e2] + [e3], s3, e4, Next(s3, e4));
  }

  /** A second round that proposes the same node. */
  function SecondProposal(a: LineageId, c: LineageId, d: LineageId, p: LineageId, n: LineageId): seq<Step> {
    FirstRound(a, c, p, n) + [CheckoutStep(d, a, 0, 9)] + [ProposeStep(p, a, d)]
  }

  function Reopened(c: LineageId, d: LineageId, p: LineageId, n: LineageId): TargetState {
    TargetState(map[c := Done(), d := Out()], map[p := Proposal(d, Draft)], false, Some(n))
  }

  lemma SecondProposalReopens(a: LineageId, c: LineageId, d: LineageId, p: LineageId, n: LineageId)
    requires n !in {c, p} && d !in {c, p, n}
    ensures Reaches(Start(Normal), SecondProposal(a, c, d, p, n),
              On(a, Reopened(c, d, p, n), {c} + {p} + {n} + {d} + {p}, map[], [Snapshot(n, a, {p})]))
  {
    var w := [Snapshot(n, a, {p})];
    var settled, out := Settled(c, p, n), Settled(c, p, n).(checkouts := map[c := Done(), d := Out()]);
    FirstRoundSettles(a, c, p, n);
    CheckedOut(a, settled, {c} + {p} + {n}, w, d);
    assert settled.checkouts[d := Out()] == out.checkouts;
    ProposedOn(a, out, {c} + {p} + {n} + {d}, w, d, p);
    assert out.(proposals := map[p := Proposal(d, Draft)]) == Reopened(c, d, p, n);
    var s4, s5 := On(a, settled, {c} + {p} + {n}, map[], w), On(a, out, {c} + {p} + {n} + {d}, map[], w);
    hide Next, Enabled, Reaches, On, Settled, Reopened, FirstRound;
    var e5, e6 := CheckoutStep(d, a, 0, 9), ProposeStep(p, a, d);
    Then(Start(Normal), FirstRound(a, c, p, n), s4, e5, s5);
    Then(Start(Normal), FirstRound(a, c, p, n) + [e5], s5, e6, Next(s5, e6));
  }

  /**
   The node is a draft again: what a snapshot carries is finalized no more, and the checkout it was finalized
   under is closed without a finalized proposal.
   */
  lemma FinalizedIsUndone(a: LineageId, c: LineageId, d: LineageId, p: LineageId, n: LineageId)
    requires n !in {c, p} && d !in {c, p, n}
    ensures Possible(Start(Normal), SecondProposal(a, c, d, p, n))
    ensures var s := Run(Start(Normal), SecondProposal(a, c, d, p, n));
            && s.written == [Snapshot(n, a, {p})] && a in s.table && FinalizedIn(s.table[a]) == {}
            && c in s.table[a].checkouts && s.table[a].checkouts[c].status == Closed && !HasFinalized(s.table[a], c)
  {
    SecondProposalReopens(a, c, d, p, n);
    hide Run, Possible;
    assert FinalizedIn(Reopened(c, d, p, n)) == {};
  }

  /** When it is finalized again, the second snapshot of the target carries no more than the first. */
  lemma SnapshotRepeats(a: LineageId, c: LineageId, d: LineageId, p: LineageId, n: LineageId, m: LineageId)
    requires n !in {c, p} && d !in {c, p, n} && m !in {c, d, p, n}
    ensures var es := SecondProposal(a, c, d, p, n) + [FinalizeStep(0, a, p)] + [CommitStep(0, m, a)];
            Possible(Start(Normal), es)
            && Run(Start(Normal), es).written == [Snapshot(n, a, {p})] + [Snapshot(m, a, {p})]
  {
    var w := [Snapshot(n, a, {p})];
    var used, again := {c} + {p} + {n} + {d} + {p}, Reopened(c, d, p, n);
    var locked := TargetState(map[c := Done(), d := Done()], map[p := Proposal(d, Finalized)], true, Some(n));
    SecondProposalReopens(a, c, d, p, n);
    FinalizedOnly(a, again, used, w, d, p);
    assert again.checkouts[d := Done()] == locked.checkouts;
    CommittedOn(a, locked, used, w, p, m);
    var s6, s7 := On(a, again, used, map[], w), On(a, locked, used, map[0 := Call(p, a, {p})], w);
    var e7, e8 := FinalizeStep(0, a, p), CommitStep(0, m, a);
    hide Next, Enabled, Reaches, SecondProposal, Reopened;
    Then(Start(Normal), SecondProposal(a, c, d, p, n), s6, e7, s7);
    Then(Start(Normal), SecondProposal(a, c, d, p, n) + [e7], s7, e8, Next(s7, e8));
    ReachesIs(Start(Normal), SecondProposal(a, c, d, p, n) + [e7] + [e8], Next(s7, e8));
  }

  lemma ReachesIs(s: System, es: seq<Step>, t: System)
    requires Reaches(s, es, t)
    ensures Possible(s, es) && Run(s, es) == t
  {
  }

  // ----- one node on two targets -----

  function Two(a: LineageId, ta: TargetState, b: LineageId, tb: TargetState, used: set<LineageId>,
    calls: map<nat, Call>): System
  {
    System(Normal, map[a := ta, b := tb], 0, used, calls, [], {})
  }

  function OutOnly(c: LineageId): TargetState {
    TargetState(map[c := Out()], map[], false, None)
  }

  function DraftOnly(c: LineageId, p: LineageId): TargetState {
    TargetState(map[c := Out()], map[p := Proposal(c, Draft)], false, None)
  }

  function LockedOnly(c: LineageId, p: LineageId): TargetState {
    TargetState(map[c := Done()], map[p := Proposal(c, Finalized)], true, None)
  }

  lemma BothOut(a: LineageId, b: LineageId, c: LineageId, d: LineageId)
    requires a != b && c != d
    ensures var s, e := On(a, OutOnly(c), {c}, map[], []), CheckoutStep(d, b, 0, 9);
            Enabled(s, e) && Next(s, e) == Two(a, OutOnly(c), b, OutOnly(d), {c} + {d}, map[])
  {
  }

  lemma DraftedOnA(a: LineageId, b: LineageId, c: LineageId, d: LineageId, p: LineageId)
    requires a != b
    ensures var s, e := Two(a, OutOnly(c), b, OutOnly(d), {c} + {d}, map[]), ProposeStep(p, a, c);
            Enabled(s, e) && Next(s, e) == Two(a, DraftOnly(c, p), b, OutOnly(d), {c} + {d} + {p}, map[])
  {
    assert Superseding(OutOnly(c), c) == map[];
  }

  lemma FinalizedOnA(a: LineageId, b: LineageId, c: LineageId, d: LineageId, p: LineageId)
    requires a != b
    ensures var s, e := Two(a, DraftOnly(c, p), b, OutOnly(d), {c} + {d} + {p}, map[]), FinalizeStep(0, a, p);
            Enabled(s, e)
            && Next(s, e)
                 == Two(a, LockedOnly(c, p), b, OutOnly(d), {c} + {d} + {p}, map[0 := Call(p, a, {p})])
  {
    var m := Marked(DraftOnly(c, p), p);
    assert m == LockedOnly(c, p).(snapshotInProgress := false);
    assert LapsedIds(m, 0) == {};
    NothingExpired(m);
    assert FinalizeIn(DraftOnly(c, p), p, 0) == m && !AnyOpen(m);
    assert FinalizedIn(LockedOnly(c, p)) == {p};
  }

  lemma DraftedOnB(a: LineageId, b: LineageId, c: LineageId, d: LineageId, p: LineageId, calls: map<nat, Call>)
    requires a != b
    ensures var s, e := Two(a, LockedOnly(c, p), b, OutOnly(d), {c} + {d} + {p}, calls), ProposeStep(p, b, d);
            Enabled(s, e)
            && Next(s, e) == Two(a, LockedOnly(c, p), b, DraftOnly(d, p), {c} + {d} + {p} + {p}, calls)
  {
    assert Superseding(OutOnly(d), d) == map[];
  }

  /**
   A finalize closes the round on `a`; before it looks its target up, the node is proposed on `b` as well. The
   look-up may then find `b`: the snapshot names a target on which nothing was finalized, and `a` stays locked
   with no call in flight.
   */
  lemma WrongTargetReleased(a: LineageId, b: LineageId, c: LineageId, d: LineageId, p: LineageId, n: LineageId)
    requires a != b && c != d && n !in {c, d, p}
    ensures var es := [CheckoutStep(c, a, 0, 9)] + [CheckoutStep(d, b, 0, 9)] + [ProposeStep(p, a, c)]
                      + [FinalizeStep(0, a, p)] + [ProposeStep(p, b, d)] + [CommitStep(0, n, b)];
            && Possible(Start(Normal), es)
            && var s := Run(Start(Normal), es);
               && Locked(s.table, a) && s.calls == map[] && s.leaked == {}
               && s.written == [Snapshot(n, b, {p})] && b in s.table && FinalizedIn(s.table[b]) == {}
  {
    var e1, e2, e3 := CheckoutStep(c, a, 0, 9), CheckoutStep(d, b, 0, 9), ProposeStep(p, a, c);
    var e4, e5, e6 := FinalizeStep(0, a, p), ProposeStep(p, b, d), CommitStep(0, n, b);
    var used, calls := {c} + {d} + {p}, map[0 := Call(p, a, {p})];
    var s1, s2 := On(a, OutOnly(c), {c}, map[], []), Two(a, OutOnly(c), b, OutOnly(d), {c} + {d}, map[]);
    var s3 := Two(a, DraftOnly(c, p), b, OutOnly(d), used, map[]);
    var s4 := Two(a, LockedOnly(c, p), b, OutOnly(d), used, calls);
    var s5 := Two(a, LockedOnly(c, p), b, DraftOnly(d, p), used + {p}, calls);
    FirstCheckedOut(a, c);
    BothOut(a, b, c, d);
    DraftedOnA(a, b, c, d, p);
    FinalizedOnA(a, b, c, d, p);
    DraftedOnB(a, b, c, d, p, calls);
    CommittedOnB(a, b, c, d, p, n, used + {p});
    hide Next, Enabled, Reaches, Two, On, OutOnly, DraftOnly, LockedOnly;
    OneStep(Start(Normal), e1, s1);
    Then(Start(Normal), [e1], s1, e2, s2);
    Then(Start(Normal), [e1] + [e2], s2, e3, s3);
    Then(Start(Normal), [e1] + [e2] + [e3], s3, e4, s4);
    Then(Start(Normal), [e1] + [e2] + [e3] + [e4], s4, e5, s5);
    Then(Start(Normal), [e1] + [e2] + [e3] + [e4] + [e5], s5, e6, Next(s5, e6));
    ReachesIs(Start(Normal), [e1] + [e2] + [e3] + [e4] + [e5] + [e6], Next(s5, e6));
  }

  lemma CommittedOnB(a: LineageId, b: LineageId, c: LineageId, d: LineageId, p: LineageId, n: LineageId,
    used: set<LineageId>)
    requires a != b && n !in used
    ensures var s := Two(a, LockedOnly(c, p), b, DraftOnly(d, p), used, map[0 := Call(p, a, {p})]);
            && Enabled(s, CommitStep(0, n, b))
            && var s' := Next(s, CommitStep(0, n, b));
               && Locked(s'.table, a) && s'.calls == map[] && s'.leaked == {}
               && s'.written == [Snapshot(n, b, {p})] && b in s'.table && FinalizedIn(s'.table[b]) == {}
  {
  }
}
