/**
 How a proposal stops being a draft, and a checkout open: which step ends it in which status, and with which error
 it is refused from then on.
 */
module DraftEnds {
  import opened Common
  import opened SemanticTable
  import opened ConsensusTargets
  import opened ConsensusRuns

  predicate IsDraft(s: System, a: LineageId, p: LineageId) {
    a in s.table && p in s.table[a].proposals && s.table[a].proposals[p].status == Draft
  }

  /** Another node is proposed under the draft's checkout, and taken. */
  predicate Replaced(s: System, e: Step, a: LineageId, p: LineageId)
    requires IsDraft(s, a, p)
  {
    e.ProposeStep? && e.target == a && e.checkout == s.table[a].proposals[p].checkout && e.id != p
  }

  /** The draft itself is finalized. */
  predicate Chosen(e: Step, a: LineageId, p: LineageId) {
    e.FinalizeStep? && e.target == a && e.proposal == p
  }

  /** A draft that is another one is finalized on the target. */
  predicate OtherChosen(s: System, e: Step, a: LineageId, p: LineageId) {
    e.FinalizeStep? && e.target == a && e.proposal != p && IsDraft(s, a, e.proposal)
  }

  /** The draft's checkout has run out of time, and the target is swept, by itself or by another finalize. */
  predicate Missed(s: System, e: Step, a: LineageId, p: LineageId)
    requires IsDraft(s, a, p)
  {
    var c := s.table[a].proposals[p].checkout;
    && c in s.table[a].checkouts && s.table[a].checkouts[c].openedAt + s.table[a].checkouts[c].ttl <= s.now
    && (e == SweepStep(a) || OtherChosen(s, e, a, p))
  }

  /**
   In every state any run reaches, and for every step: a draft becomes Superseded exactly when another node is proposed
   under its checkout, Finalized exactly when it is finalized, Dropped exactly when the target is swept after its
   checkout ran out of time, and otherwise stays a draft.
   */
  lemma DraftBecomes(s: System, e: Step, a: LineageId, p: LineageId)
    requires Reachable(s) && Enabled(s, e) && IsDraft(s, a, p)
    ensures a in Next(s, e).table && p in Next(s, e).table[a].proposals
    ensures var status := Next(s, e).table[a].proposals[p].status;
            && (status == Superseded <==> Replaced(s, e, a, p))
            && (status == Finalized <==> Chosen(e, a, p))
            && (status == Dropped <==> Missed(s, e, a, p))
  {
    ReachableAnyInv(s);
    SoundAt(s, a);
    hide AnyInv, Reachable, Sound, Next, Missed;
    match e
    case SweepStep(b) => if b == a { SweepStepEnds(s, a, p); } else { ElsewhereEnds(s, e, a, p); }
    case ProposeStep(id, b, c) =>
      if b == a { ProposeStepEnds(s, e, a, p); } else { ElsewhereEnds(s, e, a, p); }
    case FinalizeStep(_, b, q) => if b == a { FinalizeEnds(s, e, a, p); } else { ElsewhereEnds(s, e, a, p); }
    case _ => ElsewhereEnds(s, e, a, p);
  }

  lemma ElsewhereEnds(s: System, e: Step, a: LineageId, p: LineageId)
    requires IsDraft(s, a, p) && Enabled(s, e)
    requires match e
             case SweepStep(b) => b != a
             case ProposeStep(_, b, _) => b != a
             case FinalizeStep(_, b, _) => b != a
             case _ => true
    ensures IsDraft(Next(s, e), a, p) && !Missed(s, e, a, p)
  {
    hide FinalizeIn, SweepTarget, AnyOpen, Superseding, OutcomeOf;
  }

  lemma SweepStepEnds(s: System, a: LineageId, p: LineageId)
    requires IsDraft(s, a, p) && Sound(s.table[a])
    ensures var t := Next(s, SweepStep(a)).table;
            && a in t && p in t[a].proposals
            && t[a].proposals[p].status == if Missed(s, SweepStep(a), a, p) then Dropped else Draft
  {
    SweepEnds(s.table[a], p, s.now);
    hide Sound, SweepTarget;
  }

  lemma ProposeStepEnds(s: System, e: Step, a: LineageId, p: LineageId)
    requires IsDraft(s, a, p) && Sound(s.table[a]) && Enabled(s, e) && e.ProposeStep? && e.target == a
    ensures a in Next(s, e).table && p in Next(s, e).table[a].proposals && !Missed(s, e, a, p)
    ensures Next(s, e).table[a].proposals[p].status == if Replaced(s, e, a, p) then Superseded else Draft
  {
    ProposeEnds(s.table[a], a, p, e.id, e.checkout, s.table);
    hide Sound, RegisterProposal;
  }

  lemma SoundAt(s: System, a: LineageId)
    requires AnyInv(s) && a in s.table
    ensures Sound(s.table[a])
  {
  }

  lemma SweepEnds(ts: TargetState, p: LineageId, now: nat)
    requires Sound(ts) && p in ts.proposals && ts.proposals[p].status == Draft
    ensures var c, r := ts.proposals[p].checkout, SweepTarget(ts, now);
            && c in ts.checkouts && p in r.proposals && r.proposals[p].checkout == c
            && r.proposals[p].status == if ts.checkouts[c].openedAt + ts.checkouts[c].ttl <= now then Dropped else Draft
  {
    hide OneEach;
  }

  lemma ProposeEnds(ts: TargetState, a: LineageId, p: LineageId, id: LineageId, c: LineageId, t: Table)
    requires a in t && t[a] == ts && Sound(ts) && p in ts.proposals && ts.proposals[p].status == Draft
    ensures var r := RegisterProposal(t, a, c, id);
            && a in r && p in r[a].proposals
            && r[a].proposals[p].status
               == if c == ts.proposals[p].checkout && id != p then Superseded else Draft
  {
    hide OneEach;
  }

  lemma FinalizeEnds(s: System, e: Step, a: LineageId, p: LineageId)
    requires IsDraft(s, a, p) && Sound(s.table[a]) && Enabled(s, e) && e.FinalizeStep? && e.target == a
    ensures a in Next(s, e).table && p in Next(s, e).table[a].proposals
    ensures Next(s, e).table[a].proposals[p].status
              == if Chosen(e, a, p) then Finalized else if Missed(s, e, a, p) then Dropped else Draft
  {
    var ts := s.table[a];
    if IsDraft(s, a, e.proposal) {
      MarkedSound(ts, e.proposal);
      var m := Marked(ts, e.proposal);
      assert FinalizeIn(ts, e.proposal, s.now) == SweepTarget(m, s.now);
      hide Sound, AnyOpen, FinalizeIn, SweepTarget;
      if e.proposal == p {
        SweptFinalized(m, p, s.now);
      } else {
        OtherCheckout(ts, p, e.proposal);
        SweepEnds(m, p, s.now);
      }
    }
  }

  lemma SweptFinalized(ts: TargetState, p: LineageId, now: nat)
    requires p in ts.proposals && ts.proposals[p].status != Draft
    ensures p in SweepTarget(ts, now).proposals && SweepTarget(ts, now).proposals[p] == ts.proposals[p]
  {
  }

  lemma OtherCheckout(ts: TargetState, p: LineageId, q: LineageId)
    requires Sound(ts) && p != q && p in ts.proposals && q in ts.proposals
    requires ts.proposals[p].status == Draft && ts.proposals[q].status == Draft
    ensures ts.proposals[p].checkout != ts.proposals[q].checkout
    ensures Marked(ts, q).proposals[p] == ts.proposals[p]
    ensures ts.proposals[p].checkout in ts.checkouts
    ensures Marked(ts, q).checkouts[ts.proposals[p].checkout] == ts.checkouts[ts.proposals[p].checkout]
  {
  }

  /** What finalizing a proposal answers, and that a refusal changes nothing. */
  lemma RefusedBecause(t: Table, a: LineageId, p: LineageId, now: nat)
    requires Hosts(t, a, p)
    ensures var status, answer := t[a].proposals[p].status, OutcomeOf(t[a], p, now);
            && (answer == FinalizeRefused(AlreadyFinalized) <==> status == Finalized)
            && (answer == FinalizeRefused(WasSuperseded) <==> status == Superseded)
            && (answer == FinalizeRefused(WasDropped) <==> status == Dropped)
            && (answer.FinalizeRefused? <==> status != Draft)
            && (status != Draft ==> RecordFinalize(t, a, p, now) == t)
  {
    hide AnyOpen, FinalizeIn;
  }

  /** What proposing under a checkout answers, and that a refusal changes nothing. */
  lemma NotTakenBecause(t: Table, a: LineageId, c: LineageId, id: LineageId)
    ensures var answer := RegisterErrorOf(t, a, c);
            && (answer == Some(CheckoutNotFound) <==> a !in t || c !in t[a].checkouts)
            && (answer == Some(CheckoutClosed) <==> a in t && c in t[a].checkouts && t[a].checkouts[c].status == Closed)
            && (answer == Some(CheckoutExpired) <==>
                  a in t && c in t[a].checkouts && t[a].checkouts[c].status == Expired)
            && (answer == None <==> a in t && c in t[a].checkouts && t[a].checkouts[c].status == Open)
            && (answer.Some? ==> RegisterProposal(t, a, c, id) == t)
  {
  }

  /**
   And a checkout: it is Closed exactly by finalizing its draft, in time or not, and Expired exactly when the target is
   swept after it ran out of time.
   */
  lemma CheckoutBecomes(s: System, e: Step, a: LineageId, c: LineageId)
    requires Reachable(s) && Enabled(s, e) && a in s.table && c in s.table[a].checkouts
    requires s.table[a].checkouts[c].status == Open
    ensures a in Next(s, e).table && c in Next(s, e).table[a].checkouts
    ensures var status, was := Next(s, e).table[a].checkouts[c].status, s.table[a].checkouts[c];
            && (status == Closed <==>
                  e.FinalizeStep? && e.target == a && IsDraft(s, a, e.proposal)
                  && s.table[a].proposals[e.proposal].checkout == c)
            && (status == Expired <==>
                  && was.openedAt + was.ttl <= s.now
                  && (e == SweepStep(a)
                      || (e.FinalizeStep? && e.target == a && IsDraft(s, a, e.proposal)
                          && s.table[a].proposals[e.proposal].checkout != c)))
  {
    ReachableAnyInv(s);
    assert s.table[a].checkouts.Keys <= s.used;
    hide Reachable, AnyInv, Next, IsDraft;
    match e
    case SweepStep(b) =>
      if b == a {
        SweptCheckout(s.table[a], c, s.now);
        SweepIs(s, a);
      } else {
        CheckoutStands(s, e, a, c);
      }
    case FinalizeStep(_, b, q) => if b == a { FinalizeCloses(s, e, a, c); } else { CheckoutStands(s, e, a, c); }
    case _ => CheckoutStands(s, e, a, c);
  }

  lemma CheckoutStands(s: System, e: Step, a: LineageId, c: LineageId)
    requires Enabled(s, e) && a in s.table && c in s.table[a].checkouts && s.table[a].checkouts.Keys <= s.used
    requires match e
             case SweepStep(b) => b != a
             case FinalizeStep(_, b, _) => b != a
             case _ => true
    ensures a in Next(s, e).table && c in Next(s, e).table[a].checkouts
    ensures Next(s, e).table[a].checkouts[c] == s.table[a].checkouts[c]
  {
    hide FinalizeIn, SweepTarget, AnyOpen, Superseding, OutcomeOf;
  }

  lemma SweepIs(s: System, a: LineageId)
    requires a in s.table
    ensures Next(s, SweepStep(a)).table == s.table[a := SweepTarget(s.table[a], s.now)]
  {
  }

  lemma SweptCheckout(ts: TargetState, c: LineageId, now: nat)
    requires c in ts.checkouts
    ensures c in SweepTarget(ts, now).checkouts
    ensures SweepTarget(ts, now).checkouts[c].status
         == if ts.checkouts[c].status == Open && ts.checkouts[c].openedAt + ts.checkouts[c].ttl <= now then Expired
            else ts.checkouts[c].status
  {
  }

  lemma FinalizeCloses(s: System, e: Step, a: LineageId, c: LineageId)
    requires Enabled(s, e) && e.FinalizeStep? && e.target == a && c in s.table[a].checkouts
    requires s.table[a].checkouts[c].status == Open
    ensures a in Next(s, e).table && c in Next(s, e).table[a].checkouts
    ensures var was := s.table[a].checkouts[c];
            Next(s, e).table[a].checkouts[c].status
            == if !IsDraft(s, a, e.proposal) then Open
               else if s.table[a].proposals[e.proposal].checkout == c then Closed
               else if was.openedAt + was.ttl <= s.now then Expired else Open
  {
    if IsDraft(s, a, e.proposal) {
      var m := Marked(s.table[a], e.proposal);
      SweptCheckout(m, c, s.now);
      assert FinalizeIn(s.table[a], e.proposal, s.now) == SweepTarget(m, s.now);
    }
    hide FinalizeIn, SweepTarget, AnyOpen;
  }
}
