/** One replica: its node store, its clock, and what it knows of every node's version. */
module Replicas {
  import opened Common
  import opened VectorClocks
  import opened Conflicts

  datatype Known = Known(version: nat, clock: Clock)

  datatype Transfer = Transfer(node: Node, clock: Clock)

  datatype DigestEntry = DigestEntry(id: LineageId, version: nat)

  datatype Outcome = Accepted | Updated | AlreadyHave | Conflicted

  datatype Replica = Replica(
    clock: Clock,
    fabric: map<LineageId, Node>,
    known: map<LineageId, Known>,
    conflicts: seq<(Conflict, Resolution)>)

  const NEW_REPLICA := Replica(map[], map[], map[], [])

  /** Every node is stored under its own lineage. */
  predicate WellKeyed(r: Replica) {
    forall id <- r.fabric.Keys :: r.fabric[id].id == id
  }

  function AddNode(r: Replica, me: ReplicaId, node: Node): Replica {
    var clock := Tick(r.clock, me);
    r.(clock := clock, fabric := r.fabric[node.id := node], known := r.known[node.id := Known(node.version, clock)])
  }

  /** The clock a node is recorded with: an unknown node counts as never seen. */
  function KnownClock(r: Replica, id: LineageId): Clock {
    if id in r.known then r.known[id].clock else map[]
  }

  ghost function OutcomeOf(r: Replica, t: Transfer): Outcome {
    if t.node.id !in r.fabric then Accepted
    else
      match Compare(KnownClock(r, t.node.id), t.clock)
      case Some(Less) => Updated
      case Some(_) => AlreadyHave
      case None => Conflicted
  }

  function ConflictOf(r: Replica, t: Transfer): Conflict
    requires t.node.id in r.fabric
  {
    Conflict(t.node.id, r.fabric[t.node.id], KnownClock(r, t.node.id), t.node, t.clock)
  }

  /** The replica once a conflict is resolved, by its clock at that moment. */
  function SettledWith(r: Replica, c: Conflict): Replica {
    var res := Resolve(c.local, c.remote);
    var r' := r.(conflicts := r.conflicts + [(c, res)]);
    match res
    case Resolved(winner, _) =>
      r'.(fabric := r.fabric[c.lineage := winner], known := r.known[c.lineage := Known(winner.version, r.clock)])
    case Branched(_, b) => r'.(fabric := r.fabric[c.lineage := b])
  }

  /** An accepted or newer version is recorded with the sender's clock, a resolved one with our own. */
  ghost function Receive(r: Replica, me: ReplicaId, t: Transfer): Replica {
    var id := t.node.id;
    var r' := r.(clock := Tick(Merge(r.clock, t.clock), me));
    match OutcomeOf(r, t)
    case AlreadyHave => r'
    case Conflicted =>
      SettledWith(r', ConflictOf(r, t))
    case _ =>
      r'.(fabric := r.fabric[id := t.node], known := r.known[id := Known(t.node.version, t.clock)])
  }

  /**
   What a conflict leaves at the receiver. The local version is still in the fabric exactly when it stays by
   the rules of resolution; in any case the log has both versions. A branch puts the remote version in the
   local one's place and leaves what is known about the node as it was.
   */
  lemma ConflictEffect(r: Replica, me: ReplicaId, t: Transfer)
    requires WellKeyed(r) && OutcomeOf(r, t) == Conflicted
    ensures var id, local, r' := t.node.id, r.fabric[t.node.id], Receive(r, me, t);
            && id in r'.fabric && (r'.fabric[id] == local <==> LocalStays(local, t.node))
            && r'.conflicts == r.conflicts + [(ConflictOf(r, t), Resolve(local, t.node))]
            && ConflictOf(r, t).local == local && ConflictOf(r, t).remote == t.node
            && (Branching(local, t.node) ==> r'.fabric[id] == t.node && r'.known == r.known)
  {
    hide Compare, Merge, Tick, MergeEdges, MergeConfidence, LocalStays;
    SettlementIs(r.fabric[t.node.id], t.node);
  }

  /** Two replicas that receive each other's branched version swap versions, and neither knows that it did. */
  lemma BranchesSwap(x: Replica, y: Replica, me: ReplicaId, you: ReplicaId, id: LineageId)
    requires WellKeyed(x) && WellKeyed(y) && id in x.fabric && id in y.fabric
    requires Branching(x.fabric[id], y.fabric[id])
    requires OutcomeOf(x, Transfer(y.fabric[id], y.clock)) == Conflicted
    requires OutcomeOf(y, Transfer(x.fabric[id], x.clock)) == Conflicted
    ensures var x' := Receive(x, me, Transfer(y.fabric[id], y.clock));
            var y' := Receive(y, you, Transfer(x.fabric[id], x.clock));
            && x'.fabric == x.fabric[id := y.fabric[id]] && y'.fabric == y.fabric[id := x.fabric[id]]
            && x'.known == x.known && y'.known == y.known
  {
    hide Compare, Merge, Tick, MergeEdges, MergeConfidence;
  }

  /** From nothing: both replicas write the node, one of them with a hard violation, and one receives the other's. */
  lemma BranchReplacesLocal(me: ReplicaId, you: ReplicaId, mine: Node, yours: Node)
    requires me != you && mine.id == yours.id && mine != yours && Branching(mine, yours)
    ensures var r, t := AddNode(NEW_REPLICA, me, mine), Transfer(yours, AddNode(NEW_REPLICA, you, yours).clock);
            var r' := Receive(r, me, t);
            && OutcomeOf(r, t) == Conflicted
            && r'.fabric == map[mine.id := yours] && r'.known == r.known && r'.known[mine.id].version == mine.version
            && r'.conflicts == [(ConflictOf(r, t), Branched(mine, yours))]
  {
    var r, t := AddNode(NEW_REPLICA, me, mine), Transfer(yours, AddNode(NEW_REPLICA, you, yours).clock);
    assert Get(r.clock, me) == 1 && Get(t.clock, me) == 0 && Get(r.clock, you) == 0 && Get(t.clock, you) == 1;
    assert !Leq(r.clock, t.clock) && !Leq(t.clock, r.clock);
    hide Leq, Merge, Tick, MergeEdges, MergeConfidence;
    assert r.fabric == map[mine.id := mine] && KnownClock(r, mine.id) == r.clock;
  }

  function Package(r: Replica, ids: seq<LineageId>): seq<Transfer> {
    if ids == [] then []
    else (if ids[0] in r.fabric then [Transfer(r.fabric[ids[0]], r.clock)] else []) + Package(r, ids[1..])
  }

  /** A digest lists every known node once, in an order nobody promises. */
  ghost predicate IsDigest(known: map<LineageId, Known>, d: seq<DigestEntry>) {
    && (forall i, j :: 0 <= i < j < |d| ==> d[i].id != d[j].id)
    && (forall e <- d :: e.id in known && e.version == known[e.id].version)
    && (forall id <- known.Keys :: DigestEntry(id, known[id].version) in d)
  }

  predicate Needs(known: map<LineageId, Known>, e: DigestEntry) {
    e.id !in known || e.version > known[e.id].version
  }

  function NeedsFrom(known: map<LineageId, Known>, d: seq<DigestEntry>): seq<LineageId> {
    if d == [] then []
    else (if Needs(known, d[0]) then [d[0].id] else []) + NeedsFrom(known, d[1..])
  }

  lemma NeedsNext(known: map<LineageId, Known>, d: seq<DigestEntry>, i: nat)
    requires i < |d|
    ensures NeedsFrom(known, d[i..]) == (if Needs(known, d[i]) then [d[i].id] else []) + NeedsFrom(known, d[i + 1..])
  {
    assert d[i..][1..] == d[i + 1..];
  }

  lemma NeedsNone(known: map<LineageId, Known>, d: seq<DigestEntry>)
    ensures NeedsFrom(known, d[|d|..]) == []
  {
    assert d[|d|..] == [];
  }

  class DistributedFabric {
    const replicaId: ReplicaId
    const clock: VectorClock
    var fabric: map<LineageId, Node>
    var known: map<LineageId, Known>
    var conflictLog: seq<(Conflict, Resolution)>

    constructor (replicaId: ReplicaId)
      ensures this.replicaId == replicaId && fresh(clock) && State() == NEW_REPLICA
    {
      this.replicaId := replicaId;
      clock := new VectorClock();
      fabric, known, conflictLog := map[], map[], [];
    }

    function State(): Replica
      reads this, clock
    {
      Replica(clock.counters, fabric, known, conflictLog)
    }

    method Record(id: LineageId, version: nat, c: Clock)
      modifies this`known
      ensures known == old(known)[id := Known(version, c)]
    {
      known := known[id := Known(version, c)];
    }

    method DoAddNode(node: Node) returns (id: LineageId)
      modifies this, clock
      ensures id == node.id && State() == AddNode(old(State()), replicaId, node)
    {
      var _ := clock.DoTick(replicaId);
      fabric := fabric[node.id := node];
      id := node.id;
      Record(id, fabric[id].version, clock.counters);
    }

    method DoReceive(t: Transfer) returns (o: Outcome)
      requires WellKeyed(State())
      modifies this, clock
      ensures o == OutcomeOf(old(State()), t) && State() == Receive(old(State()), replicaId, t)
    {
      hide Merge, Tick, Compare, Resolve, SettledWith;
      ghost var r := State();
      var id := t.node.id;
      clock.DoMerge(t.clock);
      var _ := clock.DoTick(replicaId);
      if id !in fabric {
        fabric := fabric[id := t.node];
        Record(id, t.node.version, t.clock);
        return Accepted;
      }
      var local := fabric[id];
      var localClock := new VectorClock();
      localClock.counters := if id in known then known[id].clock else map[];
      var order := localClock.PartialCmp(t.clock);
      match order
      case Some(Less) =>
        fabric := fabric - {id};
        fabric := fabric[id := t.node];
        assert fabric == r.fabric[id := t.node];
        Record(id, t.node.version, t.clock);
        o := Updated;
      case Some(_) =>
        o := AlreadyHave;
      case None =>
        Settle(Conflict(id, local, localClock.counters, t.node, t.clock));
        o := Conflicted;
    }

    /** Logs the conflict and puts the winner, or the other branch, in the stored version's place. */
    method Settle(c: Conflict)
      requires c.lineage == c.local.id == c.remote.id
      modifies this`fabric, this`known, this`conflictLog
      ensures State() == SettledWith(old(State()), c)
    {
      hide SelectStrategy, MergeEdges, MergeConfidence;
      ghost var r := State();
      var resolution := ResolveConflict(c);
      SettlementIs(c.local, c.remote);
      match resolution {
        case Resolved(winner, _) =>
          fabric := fabric - {c.lineage};
          fabric := fabric[winner.id := winner];
          assert fabric == r.fabric[c.lineage := winner];
          Record(c.lineage, winner.version, clock.counters);
        case Branched(_, b) =>
          fabric := fabric[b.id := b];
      }
      conflictLog := conflictLog + [(c, resolution)];
    }

    method GenerateDigest() returns (d: seq<DigestEntry>)
      ensures IsDigest(known, d)
    {
      d := [];
      var todo := known.Keys;
      while todo != {}
        invariant todo <= known.Keys
        invariant forall i, j :: 0 <= i < j < |d| ==> d[i].id != d[j].id
        invariant forall e <- d :: e.id in known.Keys - todo && e.version == known[e.id].version
        invariant forall id <- known.Keys - todo :: DigestEntry(id, known[id].version) in d
        decreases todo
      {
        var id :| id in todo;
        ghost var before := d;
        d := d + [DigestEntry(id, known[id].version)];
        todo := todo - {id};
        forall x | x in known.Keys - todo
          ensures DigestEntry(x, known[x].version) in d
        {
          if x != id {
            assert DigestEntry(x, known[x].version) in before;
          } else {
            assert d[|before|] == DigestEntry(x, known[x].version);
          }
        }
      }
    }

    method NeedsFromDigest(d: seq<DigestEntry>) returns (needed: seq<LineageId>)
      ensures needed == NeedsFrom(known, d)
    {
      needed := [];
      hide NeedsFrom;
      assert d[0..] == d;
      for i := 0 to |d|
        invariant needed + NeedsFrom(known, d[i..]) == NeedsFrom(known, d)
      {
        NeedsNext(known, d, i);
        if d[i].id !in known {
          needed := needed + [d[i].id];
        } else if d[i].version > known[d[i].id].version {
          needed := needed + [d[i].id];
        }
      }
      NeedsNone(known, d);
    }

    method PackageNodes(ids: seq<LineageId>) returns (ts: seq<Transfer>)
      ensures ts == Package(State(), ids)
    {
      ts := [];
      for i := 0 to |ids|
        invariant ts + Package(State(), ids[i..]) == Package(State(), ids)
      {
        assert ids[i..][1..] == ids[i + 1..];
        if ids[i] in fabric {
          ts := ts + [Transfer(fabric[ids[i]], clock.counters)];
        }
      }
      assert ids[|ids|..] == [];
    }
  }
}
