/**
 One target of the semantic-edit table: what every operation keeps of its rounds, whatever is proposed, and
 what a proposal keeps exactly when its node is not one proposed there before.
 */
module ConsensusTargets {
  import opened Common
  import opened SemanticTable

  /** Every proposal's checkout is there; a draft's is open and a finalized one's is closed. */
  ghost predicate Placed(ts: TargetState) {
    forall p <- ts.proposals.Keys ::
      && ts.proposals[p].checkout in ts.checkouts
      && (ts.proposals[p].status == Draft ==> ts.checkouts[ts.proposals[p].checkout].status == Open)
      && (ts.proposals[p].status == Finalized ==> ts.checkouts[ts.proposals[p].checkout].status == Closed)
  }

  /** No checkout has two proposals of this status. */
  ghost predicate OneEach(ts: TargetState, status: ProposalStatus) {
    forall p, q ::
      p in ts.proposals && q in ts.proposals && p != q && ts.proposals[p].status == ts.proposals[q].status == status
      ==> ts.proposals[p].checkout != ts.proposals[q].checkout
  }

  /** Every closed checkout has a finalized proposal. */
  ghost predicate Paired(ts: TargetState) {
    forall c <- ts.checkouts.Keys :: ts.checkouts[c].status == Closed ==> HasFinalized(ts, c)
  }

  ghost predicate HasFinalized(ts: TargetState, c: LineageId) {
    exists p :: p in ts.proposals && ts.proposals[p] == Proposal(c, Finalized)
  }

  /** What holds of a target whatever is proposed on it. */
  ghost predicate Sound(ts: TargetState) {
    && Placed(ts) && OneEach(ts, Draft) && OneEach(ts, Finalized)
    && (ts.snapshotInProgress ==> !AnyOpen(ts))
  }

  ghost predicate TargetOk(ts: TargetState) {
    Sound(ts) && Paired(ts)
  }

  /** No status leaves a terminal value, nothing disappears, nothing finalized is unfinalized. */
  ghost predicate Advances(ts: TargetState, ts': TargetState) {
    && ts.checkouts.Keys <= ts'.checkouts.Keys && ts.proposals.Keys <= ts'.proposals.Keys
    && (forall c <- ts.checkouts.Keys :: ts.checkouts[c].status != Open ==> ts'.checkouts[c] == ts.checkouts[c])
    && (forall p <- ts.proposals.Keys :: ts.proposals[p].status != Draft ==> ts'.proposals[p] == ts.proposals[p])
    && (forall p <- ts.proposals.Keys :: ts'.proposals[p].checkout == ts.proposals[p].checkout)
  }

  /** Pairing survives as long as finalized proposals do and no checkout closes without one. */
  lemma PairedLater(ts: TargetState, ts': TargetState)
    requires Paired(ts) && Advances(ts, ts')
    requires forall c <- ts'.checkouts.Keys :: ts'.checkouts[c].status == Closed ==>
               (c in ts.checkouts && ts.checkouts[c].status == Closed) || HasFinalized(ts', c)
    ensures Paired(ts')
  {
    forall c | c in ts'.checkouts && ts'.checkouts[c].status == Closed
      ensures HasFinalized(ts', c)
    {
      if c in ts.checkouts && ts.checkouts[c].status == Closed {
        assert HasFinalized(ts, c);
        var p :| p in ts.proposals && ts.proposals[p] == Proposal(c, Finalized);
        assert ts'.proposals[p] == Proposal(c, Finalized);
      }
    }
  }

  lemma SweptOneEach(ts: TargetState, now: nat, status: ProposalStatus)
    requires OneEach(ts, status) && status in {Draft, Finalized}
    ensures OneEach(SweepTarget(ts, now), status)
  {
  }

  lemma SweepSound(ts: TargetState, now: nat)
    requires Sound(ts)
    ensures Sound(SweepTarget(ts, now)) && Advances(ts, SweepTarget(ts, now))
    ensures FinalizedIn(SweepTarget(ts, now)) == FinalizedIn(ts)
    ensures ts.snapshotInProgress ==> SweepTarget(ts, now) == ts
  {
    hide OneEach;
    SweptOneEach(ts, now, Draft);
    SweptOneEach(ts, now, Finalized);
    if ts.snapshotInProgress {
      assert LapsedIds(ts, now) == {};
      NothingExpired(ts);
    }
  }

  lemma SweepTargetOk(ts: TargetState, now: nat)
    requires TargetOk(ts)
    ensures TargetOk(SweepTarget(ts, now)) && Advances(ts, SweepTarget(ts, now))
    ensures FinalizedIn(SweepTarget(ts, now)) == FinalizedIn(ts)
    ensures ts.snapshotInProgress ==> SweepTarget(ts, now) == ts
  {
    hide Paired, Sound;
    SweepSound(ts, now);
    PairedLater(ts, SweepTarget(ts, now));
  }

  lemma OpenSound(ts: TargetState, id: LineageId, c: Checkout)
    requires Sound(ts) && !ts.snapshotInProgress && id !in ts.checkouts && c.status == Open
    ensures var r := ts.(checkouts := ts.checkouts[id := c]);
            Sound(r) && Advances(ts, r) && FinalizedIn(r) == FinalizedIn(ts)
  {
  }

  lemma OpenOk(ts: TargetState, id: LineageId, c: Checkout)
    requires TargetOk(ts) && !ts.snapshotInProgress && id !in ts.checkouts && c.status == Open
    ensures var r := ts.(checkouts := ts.checkouts[id := c]);
            TargetOk(r) && Advances(ts, r) && FinalizedIn(r) == FinalizedIn(ts)
  {
    hide Paired, Sound;
    OpenSound(ts, id, c);
    PairedLater(ts, ts.(checkouts := ts.checkouts[id := c]));
  }

  function Proposed(ts: TargetState, checkout: LineageId, id: LineageId): TargetState {
    ts.(proposals := Superseding(ts, checkout)[id := Proposal(checkout, Draft)])
  }

  /** A proposal keeps one draft per checkout whatever node it brings; a node finalized before is finalized no more. */
  lemma ProposeSound(ts: TargetState, checkout: LineageId, id: LineageId)
    requires Sound(ts) && checkout in ts.checkouts && ts.checkouts[checkout].status == Open
    ensures Sound(Proposed(ts, checkout, id))
    ensures FinalizedIn(Proposed(ts, checkout, id)) == FinalizedIn(ts) - {id}
  {
    hide OneEach;
    ProposedOneEach(ts, checkout, id, Draft);
    ProposedOneEach(ts, checkout, id, Finalized);
  }

  lemma ProposedOneEach(ts: TargetState, checkout: LineageId, id: LineageId, status: ProposalStatus)
    requires OneEach(ts, status) && status in {Draft, Finalized}
    ensures OneEach(Proposed(ts, checkout, id), status)
  {
  }

  /** The node is new to the target, or is the checkout's own draft. */
  predicate Fits(ts: TargetState, checkout: LineageId, id: LineageId) {
    id in ts.proposals ==> ts.proposals[id] == Proposal(checkout, Draft)
  }

  /** A proposal moves its target forward, with its rounds paired, if and only if the node fits. */
  lemma ProposeOkIff(ts: TargetState, checkout: LineageId, id: LineageId)
    requires TargetOk(ts) && checkout in ts.checkouts && ts.checkouts[checkout].status == Open
    ensures TargetOk(Proposed(ts, checkout, id)) && Advances(ts, Proposed(ts, checkout, id)) <==> Fits(ts, checkout, id)
  {
    hide Paired, Sound;
    var r := Proposed(ts, checkout, id);
    ProposeSound(ts, checkout, id);
    if Fits(ts, checkout, id) {
      PairedLater(ts, r);
    } else {
      assert r.proposals[id] == Proposal(checkout, Draft) != ts.proposals[id];
    }
  }

  /** The state between finalizing the proposal and sweeping. */
  function Marked(ts: TargetState, proposal: LineageId): TargetState
    requires proposal in ts.proposals
  {
    var p := ts.proposals[proposal];
    ts.(proposals := ts.proposals[proposal := p.(status := Finalized)],
        checkouts :=
          if p.checkout in ts.checkouts && ts.checkouts[p.checkout].status == Open
          then ts.checkouts[p.checkout := ts.checkouts[p.checkout].(status := Closed)] else ts.checkouts)
  }

  lemma MarkedSound(ts: TargetState, proposal: LineageId)
    requires Sound(ts) && proposal in ts.proposals && ts.proposals[proposal].status == Draft
    ensures Sound(Marked(ts, proposal)) && Advances(ts, Marked(ts, proposal))
    ensures FinalizedIn(Marked(ts, proposal)) == FinalizedIn(ts) + {proposal}
    ensures !ts.snapshotInProgress
  {
    MarkedOneEach(ts, proposal);
    MarkedPlaced(ts, proposal);
  }

  lemma MarkedPlaced(ts: TargetState, proposal: LineageId)
    requires Sound(ts) && proposal in ts.proposals && ts.proposals[proposal].status == Draft
    ensures Placed(Marked(ts, proposal))
  {
  }

  lemma MarkedOneEach(ts: TargetState, proposal: LineageId)
    requires Sound(ts) && proposal in ts.proposals && ts.proposals[proposal].status == Draft
    ensures OneEach(Marked(ts, proposal), Draft) && OneEach(Marked(ts, proposal), Finalized)
  {
  }

  lemma FinalizeSound(ts: TargetState, proposal: LineageId, now: nat)
    requires Sound(ts) && proposal in ts.proposals && ts.proposals[proposal].status == Draft
    ensures Sound(FinalizeIn(ts, proposal, now)) && Advances(ts, FinalizeIn(ts, proposal, now))
    ensures FinalizedIn(FinalizeIn(ts, proposal, now)) == FinalizedIn(ts) + {proposal}
    ensures !ts.snapshotInProgress && !FinalizeIn(ts, proposal, now).snapshotInProgress
  {
    hide Sound, SweepTarget, FinalizedIn;
    var m := Marked(ts, proposal);
    MarkedSound(ts, proposal);
    SweepSound(m, now);
    assert FinalizeIn(ts, proposal, now) == SweepTarget(m, now);
    SweepKeepsLock(m, now);
  }

  lemma MarkedPaired(ts: TargetState, proposal: LineageId)
    requires TargetOk(ts) && proposal in ts.proposals && ts.proposals[proposal].status == Draft
    ensures Paired(Marked(ts, proposal))
  {
    hide Paired, Sound;
    var r := Marked(ts, proposal);
    MarkedSound(ts, proposal);
    assert r.proposals[proposal] == Proposal(ts.proposals[proposal].checkout, Finalized);
    assert HasFinalized(r, ts.proposals[proposal].checkout);
    PairedLater(ts, r);
  }

  lemma FinalizeOk(ts: TargetState, proposal: LineageId, now: nat)
    requires TargetOk(ts) && proposal in ts.proposals && ts.proposals[proposal].status == Draft
    ensures TargetOk(FinalizeIn(ts, proposal, now)) && Advances(ts, FinalizeIn(ts, proposal, now))
    ensures FinalizedIn(FinalizeIn(ts, proposal, now)) == FinalizedIn(ts) + {proposal}
    ensures !ts.snapshotInProgress && !FinalizeIn(ts, proposal, now).snapshotInProgress
  {
    hide Sound, Paired, SweepTarget, FinalizedIn;
    var m := Marked(ts, proposal);
    FinalizeSound(ts, proposal, now);
    MarkedSound(ts, proposal);
    MarkedPaired(ts, proposal);
    SweepTargetOk(m, now);
    assert FinalizeIn(ts, proposal, now) == SweepTarget(m, now);
  }

  lemma SweepKeepsLock(ts: TargetState, now: nat)
    ensures SweepTarget(ts, now).snapshotInProgress == ts.snapshotInProgress
  {
  }

  lemma FreshOk()
    ensures TargetOk(NEW_TARGET)
  {
  }

  lemma LockKeeps(ts: TargetState)
    requires Sound(ts) && !AnyOpen(ts)
    ensures Sound(ts.(snapshotInProgress := true))
    ensures Paired(ts) ==> Paired(ts.(snapshotInProgress := true))
  {
    SameRounds(ts, ts.(snapshotInProgress := true));
  }

  lemma ReleaseKeeps(ts: TargetState, snapshot: LineageId)
    requires Sound(ts)
    ensures Sound(ts.(snapshotInProgress := false, lastSnapshot := Some(snapshot)))
    ensures Paired(ts) ==> Paired(ts.(snapshotInProgress := false, lastSnapshot := Some(snapshot)))
  {
    SameRounds(ts, ts.(snapshotInProgress := false, lastSnapshot := Some(snapshot)));
  }

  lemma SameRounds(ts: TargetState, r: TargetState)
    requires r.checkouts == ts.checkouts && r.proposals == ts.proposals
    ensures Paired(ts) ==> Paired(r)
  {
    if Paired(ts) {
      forall c | c in r.checkouts && r.checkouts[c].status == Closed ensures HasFinalized(r, c) {
        assert HasFinalized(ts, c);
      }
    }
  }
}
