/**
 What a replica says it has, and what it has. A digest offers the recorded versions, so they decide what is
 asked for again; a branched conflict stores the other version and records nothing.
 */
module KnownVersions {
  import opened Common
  import opened VectorClocks
  import opened Conflicts
  import opened Replicas
  import opened CausalRuns
  import opened Gossip

  /** The clock recorded for the stored node covers the transfer's. */
  ghost predicate Covered(r: Replica, t: Transfer) {
    t.node.id in r.fabric && Leq(t.clock, KnownClock(r, t.node.id))
  }

  /** Neither clock covers the other, and one of the versions violates a hard constraint. */
  ghost predicate Branches(r: Replica, t: Transfer) {
    && t.node.id in r.fabric && !Covered(r, t) && !Leq(KnownClock(r, t.node.id), t.clock)
    && (r.fabric[t.node.id].hardViolation || t.node.hardViolation)
  }

  /** The local clock after a receive: the larger counter everywhere, and one more of the replica's own. */
  ghost predicate HeardAndTicked(was: Clock, heard: Clock, me: ReplicaId, c: Clock) {
    forall x :: Get(c, x) == Max(Get(was, x), Get(heard, x)) + if x == me then 1 else 0
  }

  /**
   What a receive stores and what it records. A covered transfer changes neither; a branched one is stored and
   not recorded; a new or newer version is stored and recorded with the sender's clock; and the outcome of any
   other conflict is recorded with its own version and the receiver's clock.
   */
  lemma ReceiveRecords(r: Replica, me: ReplicaId, t: Transfer)
    requires WellKeyed(r)
    ensures var id, r' := t.node.id, Receive(r, me, t);
            && HeardAndTicked(r.clock, t.clock, me, r'.clock)
            && (forall x :: x != id ==> SameAt(r, r', x))
            && (if Covered(r, t) then r'.fabric == r.fabric && r'.known == r.known
                else
                  && id in r'.fabric
                  && if Branches(r, t) then r'.fabric[id] == t.node && r'.known == r.known
                     else
                       && id in r'.known && r'.known[id].version == r'.fabric[id].version
                       && if id !in r.fabric || Leq(KnownClock(r, id), t.clock)
                          then r'.fabric[id] == t.node && r'.known[id].clock == t.clock
                          else r'.known[id].clock == r'.clock)
  {
    ReceiveClock(r.clock, t.clock, me);
    hide Merge, Tick, Leq, MergeEdges, MergeConfidence, LocalStays, RemoteTaken, HeardAndTicked;
    if t.node.id in r.fabric {
      SettlementIs(r.fabric[t.node.id], t.node);
    }
  }

  lemma ReceiveClock(c: Clock, d: Clock, me: ReplicaId)
    ensures HeardAndTicked(c, d, me, Tick(Merge(c, d), me))
  {
  }

  // ----- over every run -----

  /** The run with the world before each of its steps and after the last. */
  ghost predicate Trace(ids: set<ReplicaId>, steps: seq<Step>, ws: seq<World>) {
    && |ws| == |steps| + 1 && ws[0] == Start(ids)
    && forall k :: 0 <= k < |steps| ==> Enabled(ws[k], steps[k]) && ws[k + 1] == Next(ws[k], steps[k])
  }

  /** If the replica knows the node, the version it recorded is the version it stores. */
  ghost predicate Agrees(w: World, x: ReplicaId, id: LineageId) {
    x in w.replicas && id in w.replicas[x].known ==>
      id in w.replicas[x].fabric && w.replicas[x].known[id].version == w.replicas[x].fabric[id].version
  }

  /** The step branches the node at the replica, with a version other than the recorded one. */
  ghost predicate Breaks(w: World, s: Step, x: ReplicaId, id: LineageId) {
    && Enabled(w, s) && s.Deliver? && s.at == x && w.sent[s.k].node.id == id && id in w.replicas[x].known
    && Branches(w.replicas[x], w.sent[s.k]) && w.sent[s.k].node.version != w.replicas[x].known[id].version
  }

  /** The step stores a version of the node at the replica in any other way. */
  ghost predicate Mends(w: World, s: Step, x: ReplicaId, id: LineageId) {
    && Enabled(w, s) && s.at == x && !Breaks(w, s, x, id)
    && match s
       case Add(_, node) => node.id == id
       case Ship(_, _) => false
       case Deliver(_, k) => w.sent[k].node.id == id && !Covered(w.replicas[x], w.sent[k])
  }

  ghost predicate AllSettled(w: World) {
    forall x <- w.replicas.Keys :: Settled(w.replicas[x])
  }

  lemma SettledStep(w: World, s: Step)
    requires AllSettled(w) && Enabled(w, s)
    ensures AllSettled(Next(w, s))
  {
    hide Receive, Covered, Branches, Leq, KnownClock, HeardAndTicked, SameAt;
    if s.Deliver? {
      ReceiveSettled(w.replicas[s.at], s.at, w.sent[s.k]);
    }
  }

  lemma ReceiveSettled(r: Replica, me: ReplicaId, t: Transfer)
    requires Settled(r)
    ensures Settled(Receive(r, me, t))
  {
    hide Merge, Tick, Compare, MergeEdges, MergeConfidence, LocalStays, RemoteTaken;
    if t.node.id in r.fabric {
      SettlementIs(r.fabric[t.node.id], t.node);
    }
  }

  /** One step: a break ends the agreement, a mend restores it, and nothing else touches it. */
  lemma AgreementStep(w: World, s: Step, x: ReplicaId, id: LineageId)
    requires AllSettled(w) && Enabled(w, s)
    ensures Agrees(Next(w, s), x, id) <==> !Breaks(w, s, x, id) && (Mends(w, s, x, id) || Agrees(w, x, id))
  {
    hide Receive, Leq, KnownClock, HeardAndTicked, Covered;
    if s.Deliver? && s.at == x {
      ReceiveRecords(w.replicas[x], x, w.sent[s.k]);
      ReceiveSettled(w.replicas[x], x, w.sent[s.k]);
      if w.sent[s.k].node.id != id {
        assert SameAt(w.replicas[x], Receive(w.replicas[x], x, w.sent[s.k]), id);
      }
    }
  }

  lemma {:induction false} TraceSettled(ids: set<ReplicaId>, steps: seq<Step>, ws: seq<World>)
    requires Trace(ids, steps, ws)
    ensures AllSettled(ws[|steps|])
    decreases |steps|
  {
    if steps != [] {
      var n := |steps| - 1;
      hide Next, Enabled, AllSettled;
      TraceSettled(ids, steps[..n], ws[..n + 1]);
      SettledStep(ws[n], steps[n]);
    }
  }

  /** Every break of this node at this replica is followed by a mend. */
  ghost predicate BreaksMended(steps: seq<Step>, ws: seq<World>, x: ReplicaId, id: LineageId)
    requires |ws| == |steps| + 1
  {
    forall k :: 0 <= k < |steps| && Breaks(ws[k], steps[k], x, id) ==>
      exists j :: k < j < |steps| && Mends(ws[j], steps[j], x, id)
  }

  /**
   In every run, for every replica and node: the recorded version is the stored one if and only if since the
   last branch that brought another version the replica has stored some version in any other way.
   */
  lemma {:induction false} VersionsAgreeIff(
    ids: set<ReplicaId>, steps: seq<Step>, ws: seq<World>, x: ReplicaId, id: LineageId)
    requires Trace(ids, steps, ws)
    ensures Agrees(ws[|steps|], x, id) <==> BreaksMended(steps, ws, x, id)
    decreases |steps|
  {
    if steps == [] {
    } else {
      var n := |steps| - 1;
      hide Next, Enabled, AllSettled, Breaks, Mends, Agrees;
      TraceSettled(ids, steps[..n], ws[..n + 1]);
      VersionsAgreeIff(ids, steps[..n], ws[..n + 1], x, id);
      AgreementStep(ws[n], steps[n], x, id);
      MendedNext(steps, ws, x, id);
    }
  }

  lemma MendedNext(steps: seq<Step>, ws: seq<World>, x: ReplicaId, id: LineageId)
    requires |steps| > 0 && |ws| == |steps| + 1
    ensures var n := |steps| - 1;
            (BreaksMended(steps, ws, x, id) <==>
               && !Breaks(ws[n], steps[n], x, id)
               && (Mends(ws[n], steps[n], x, id) || BreaksMended(steps[..n], ws[..n + 1], x, id)))
  {
    hide Breaks, Mends;
    var n := |steps| - 1;
    var before, worlds := steps[..n], ws[..n + 1];
    assert forall k :: 0 <= k < n ==> before[k] == steps[k] && worlds[k] == ws[k];
    if BreaksMended(steps, ws, x, id) && !Mends(ws[n], steps[n], x, id) {
      forall k | 0 <= k < n && Breaks(worlds[k], before[k], x, id)
        ensures exists j :: k < j < n && Mends(worlds[j], before[j], x, id)
      {
        var j :| k < j < |steps| && Mends(ws[j], steps[j], x, id);
        assert Mends(worlds[j], before[j], x, id);
      }
    }
    if !Breaks(ws[n], steps[n], x, id) && BreaksMended(before, worlds, x, id) {
      forall k | 0 <= k < |steps| && Breaks(ws[k], steps[k], x, id)
        ensures exists j :: k < j < |steps| && Mends(ws[j], steps[j], x, id)
      {
        assert Breaks(worlds[k], before[k], x, id);
        var j :| k < j < n && Mends(worlds[j], before[j], x, id);
        assert Mends(ws[j], steps[j], x, id);
      }
    }
  }

  // ----- pulling twice -----

  /** What is recorded after a whole pull is what a single receive records. */
  lemma {:induction false} ReceiveAllKnown(r: Replica, me: ReplicaId, ts: seq<Transfer>, k: nat)
    requires WellKeyed(r) && DistinctNodes(ts) && k < |ts|
    ensures var id, r1, r' := ts[k].node.id, Receive(r, me, ts[k]), ReceiveAll(r, me, ts);
            && (id in r'.known <==> id in r1.known)
            && (id in r'.known ==> r'.known[id].version == r1.known[id].version)
    decreases |ts|
  {
    hide Receive, Leq, Covered, Branches, Resolve, HeardAndTicked;
    var id, r1 := ts[k].node.id, Receive(r, me, ts[0]);
    ReceiveAt(r, me, ts[0]);
    if k == 0 {
      ReceiveAllElsewhere(r1, me, ts[1..], id);
    } else {
      ReceiveAllKnown(r1, me, ts[1..], k - 1);
      assert SameAt(r, r1, id);
      SameReceived(r, r1, me, ts[k]);
    }
  }

  /** The version a receive records depends on what the replica has of that node only. */
  lemma SameReceived(r: Replica, s: Replica, me: ReplicaId, t: Transfer)
    requires WellKeyed(r) && WellKeyed(s) && SameAt(r, s, t.node.id)
    ensures var id, r', s' := t.node.id, Receive(r, me, t), Receive(s, me, t);
            && (id in s'.known <==> id in r'.known)
            && (id in s'.known ==> s'.known[id].version == r'.known[id].version)
  {
    hide Receive, Leq, HeardAndTicked, Compare, Resolve, LocalStays, RemoteTaken;
    assert KnownClock(r, t.node.id) == KnownClock(s, t.node.id);
    assert Covered(r, t) == Covered(s, t) && Branches(r, t) == Branches(s, t);
    ReceiveRecords(r, me, t);
    ReceiveRecords(s, me, t);
    ReceiveAt(r, me, t);
    ReceiveAt(s, me, t);
    assert Installed(r, t) == Installed(s, t);
  }

  /** A branch, or a clock that is covered, keeps a node a pull asked for from being recorded in the later version. */
  ghost predicate Shadowed(b: Replica, a: Replica, id: LineageId)
    requires id in a.fabric
  {
    Covered(b, Transfer(a.fabric[id], a.clock)) || Branches(b, Transfer(a.fabric[id], a.clock))
  }

  /**
   Pulling once more with the same digest. A node whose sender stores the version it recorded is asked for again if
   and only if it was asked for, the replica had it, and the transfer was covered or branched.
   */
  lemma SecondPullAsksIff(b: Replica, me: ReplicaId, a: Replica, d: seq<DigestEntry>, id: LineageId)
    requires Settled(a) && Settled(b) && IsDigest(a.known, d)
    requires id in a.known ==> a.known[id].version == a.fabric[id].version
    ensures id in NeedsFrom(Pulled(b, me, a, d).known, d)
       <==> id in a.known && id in b.known && a.known[id].version > b.known[id].version && Shadowed(b, a, id)
  {
    hide Receive, ReceiveAll, Package, NeedsFrom, Compare, Leq, Resolve, KnownClock, HeardAndTicked;
    var ids := NeedsFrom(b.known, d);
    var ts, b' := Package(a, ids), Pulled(b, me, a, d);
    NeedsDistinct(b.known, d);
    PackageAt(a, ids);
    NeedsIn(b.known, d, id);
    NeedsIn(b'.known, d, id);
    if id in a.known { assert DigestEntry(id, a.known[id].version) in d; }
    if id !in ids {
      ReceiveAllElsewhere(b, me, ts, id);
    } else {
      var t := Transfer(a.fabric[id], a.clock);
      assert t in ts;
      var k :| 0 <= k < |ts| && ts[k] == t;
      ReceiveAllKnown(b, me, ts, k);
      AskedRecorded(b, me, t, a.known[id].version);
    }
  }

  /** One receive of a later version: afterwards an older one is recorded exactly when it was covered or branched. */
  lemma AskedRecorded(b: Replica, me: ReplicaId, t: Transfer, version: nat)
    requires Settled(b) && t.node.version == version
    requires t.node.id in b.known ==> b.known[t.node.id].version < version
    ensures var id, b' := t.node.id, Receive(b, me, t);
            && id in b'.known
            && (b'.known[id].version < version <==> id in b.known && (Covered(b, t) || Branches(b, t)))
  {
    hide Receive, Leq, KnownClock, HeardAndTicked, LocalStays, RemoteTaken;
    ReceiveRecords(b, me, t);
    ReceiveSettled(b, me, t);
    if t.node.id in b.fabric && !Covered(b, t) && !Branches(b, t) {
      ResolvedIsLater(b, me, t);
    }
  }

  /** What a conflict that does not branch leaves is as late as both versions. */
  lemma ResolvedIsLater(b: Replica, me: ReplicaId, t: Transfer)
    requires Settled(b) && t.node.id in b.fabric && !Covered(b, t) && !Branches(b, t)
    ensures t.node.id in Receive(b, me, t).fabric && Receive(b, me, t).fabric[t.node.id].version >= t.node.version
  {
    hide Merge, Tick, Leq, MergeEdges, LocalStays, RemoteTaken;
    SettlementIs(b.fabric[t.node.id], t.node);
  }

  /**
   In every run: when the branches at the sender are mended, a second pull with an unchanged digest asks for
   nothing, unless a transfer of the first was covered or branched.
   */
  lemma SecondPullAsksNothing(
    ids: set<ReplicaId>, steps: seq<Step>, ws: seq<World>, x: ReplicaId, y: ReplicaId, d: seq<DigestEntry>)
    requires Trace(ids, steps, ws) && x in ws[|steps|].replicas && y in ws[|steps|].replicas
    requires IsDigest(ws[|steps|].replicas[x].known, d)
    requires forall id :: BreaksMended(steps, ws, x, id)
    ensures var a, b := ws[|steps|].replicas[x], ws[|steps|].replicas[y];
            (NeedsFrom(Pulled(b, y, a, d).known, d) == [] <==>
               forall id <- a.known.Keys ::
                 id in b.known && a.known[id].version > b.known[id].version ==>
                   id in a.fabric && !Shadowed(b, a, id))
  {
    hide BreaksMended, Pulled, NeedsFrom, IsDigest, Shadowed;
    TraceSettled(ids, steps, ws);
    var a, b := ws[|steps|].replicas[x], ws[|steps|].replicas[y];
    var again := NeedsFrom(Pulled(b, y, a, d).known, d);
    forall id ensures id in again <==> id in a.known && id in b.known && a.known[id].version > b.known[id].version
                                       && Shadowed(b, a, id)
    {
      VersionsAgreeIff(ids, steps, ws, x, id);
      SecondPullAsksIff(b, y, a, d, id);
    }
    assert again == [] <==> forall id :: id !in again by {
      if again != [] { assert again[0] in again; }
    }
  }
}
