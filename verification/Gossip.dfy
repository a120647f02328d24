/** One anti-entropy round: A's digest, B's needs, A's packaged nodes, received by B one after another. */
module Gossip {
  import opened Common
  import opened VectorClocks
  import opened Conflicts
  import opened Replicas
  import opened CausalRuns

  ghost function ReceiveAll(r: Replica, me: ReplicaId, ts: seq<Transfer>): Replica
    decreases |ts|
  {
    if ts == [] then r else ReceiveAll(Receive(r, me, ts[0]), me, ts[1..])
  }

  /** B after pulling from A, given one of A's digests. */
  ghost function Pulled(b: Replica, me: ReplicaId, a: Replica, d: seq<DigestEntry>): Replica {
    ReceiveAll(b, me, Package(a, NeedsFrom(b.known, d)))
  }

  /** The version a transfer leaves in place. */
  ghost function Installed(r: Replica, t: Transfer): Node {
    match OutcomeOf(r, t)
    case AlreadyHave => r.fabric[t.node.id]
    case Conflicted => Settlement(r.fabric[t.node.id], t.node)
    case _ => t.node
  }

  ghost predicate SameAt(r: Replica, r': Replica, id: LineageId) {
    && (id in r'.fabric <==> id in r.fabric) && (id in r.fabric ==> r'.fabric[id] == r.fabric[id])
    && (id in r'.known <==> id in r.known) && (id in r.known ==> r'.known[id] == r.known[id])
  }

  lemma ReceiveAt(r: Replica, me: ReplicaId, t: Transfer)
    requires WellKeyed(r)
    ensures WellKeyed(Receive(r, me, t))
    ensures forall id :: id != t.node.id ==> SameAt(r, Receive(r, me, t), id)
    ensures t.node.id in Receive(r, me, t).fabric && Receive(r, me, t).fabric[t.node.id] == Installed(r, t)
    ensures t.node.id !in r.fabric ==>
              && t.node.id in Receive(r, me, t).known
              && Receive(r, me, t).known[t.node.id] == Known(t.node.version, t.clock)
  {
    hide Compare, Merge, Tick, Resolve;
    if t.node.id in r.fabric {
      SettlementIs(r.fabric[t.node.id], t.node);
    }
  }

  ghost predicate DistinctNodes(ts: seq<Transfer>) {
    forall i, j :: 0 <= i < j < |ts| ==> ts[i].node.id != ts[j].node.id
  }

  /** A node no transfer is about stays as it is. */
  lemma {:induction false} ReceiveAllElsewhere(r: Replica, me: ReplicaId, ts: seq<Transfer>, id: LineageId)
    requires WellKeyed(r) && forall t <- ts :: t.node.id != id
    ensures SameAt(r, ReceiveAll(r, me, ts), id)
    decreases |ts|
  {
    hide Receive;
    if ts != [] {
      assert ts[0] in ts;
      ReceiveAt(r, me, ts[0]);
      assert SameAt(r, Receive(r, me, ts[0]), id);
      ReceiveAllElsewhere(Receive(r, me, ts[0]), me, ts[1..], id);
    }
  }

  /** Each node of a batch is treated as if its transfer had come alone. */
  lemma {:induction false} ReceiveAllAt(r: Replica, me: ReplicaId, ts: seq<Transfer>, k: nat)
    requires WellKeyed(r) && DistinctNodes(ts) && k < |ts|
    ensures var id, r' := ts[k].node.id, ReceiveAll(r, me, ts);
            && id in r'.fabric && r'.fabric[id] == Installed(r, ts[k])
            && (id !in r.fabric ==> id in r'.known && r'.known[id] == Known(ts[k].node.version, ts[k].clock))
    decreases |ts|
  {
    hide Receive, Compare, Resolve;
    var r1 := Receive(r, me, ts[0]);
    ReceiveAt(r, me, ts[0]);
    if k == 0 {
      ReceiveAllElsewhere(r1, me, ts[1..], ts[0].node.id);
    } else {
      ReceiveAllAt(r1, me, ts[1..], k - 1);
      assert SameAt(r, r1, ts[k].node.id);
      assert Installed(r1, ts[k]) == Installed(r, ts[k]);
    }
  }

  lemma {:induction false} NeedsIn(known: map<LineageId, Known>, d: seq<DigestEntry>, id: LineageId)
    ensures id in NeedsFrom(known, d) <==> exists e :: e in d && e.id == id && Needs(known, e)
    decreases |d|
  {
    if d != [] {
      NeedsIn(known, d[1..], id);
      assert forall e :: e in d <==> e == d[0] || e in d[1..];
    }
  }

  ghost predicate Distinct(ids: seq<LineageId>) {
    forall i, j :: 0 <= i < j < |ids| ==> ids[i] != ids[j]
  }

  lemma {:induction false} NeedsDistinct(known: map<LineageId, Known>, d: seq<DigestEntry>)
    requires forall i, j :: 0 <= i < j < |d| ==> d[i].id != d[j].id
    ensures Distinct(NeedsFrom(known, d))
    decreases |d|
  {
    if d != [] {
      NeedsDistinct(known, d[1..]);
      NeedsIn(known, d[1..], d[0].id);
      assert d[0].id !in NeedsFrom(known, d[1..]);
    }
  }

  lemma {:induction false} PackageAt(a: Replica, ids: seq<LineageId>)
    requires WellKeyed(a) && Distinct(ids)
    ensures DistinctNodes(Package(a, ids))
    ensures forall t <- Package(a, ids) ::
              t.node.id in ids && t.node.id in a.fabric && t == Transfer(a.fabric[t.node.id], a.clock)
    ensures forall id <- ids :: id in a.fabric ==> Transfer(a.fabric[id], a.clock) in Package(a, ids)
    decreases |ids|
  {
    if ids != [] {
      PackageAt(a, ids[1..]);
      var rest := Package(a, ids[1..]);
      assert forall t <- rest :: t.node.id in ids[1..];
      if ids[0] in a.fabric {
        assert a.fabric[ids[0]].id == ids[0];
        assert Package(a, ids) == [Transfer(a.fabric[ids[0]], a.clock)] + rest;
      } else {
        assert Package(a, ids) == rest;
      }
    }
  }

  /** What a replica is after any run, as far as one gossip round needs it. */
  ghost predicate Settled(r: Replica) {
    WellKeyed(r) && r.fabric.Keys == r.known.Keys
  }

  /**
   A pull node by node. Whatever order the digest came in, B ends with A's version of every node it
   lacked, recorded with A's version and clock; with the outcome of a single receive for every node
   A knew in a later version; and with everything else untouched.
   */
  lemma PullAt(b: Replica, me: ReplicaId, a: Replica, d: seq<DigestEntry>, id: LineageId)
    requires Settled(a) && Settled(b) && IsDigest(a.known, d)
    ensures var b' := Pulled(b, me, a, d);
            if id !in a.known || (id in b.known && a.known[id].version <= b.known[id].version) then SameAt(b, b', id)
            else
              && id in b'.fabric && b'.fabric[id] == Installed(b, Transfer(a.fabric[id], a.clock))
              && (id !in b.known ==>
                    b'.fabric[id] == a.fabric[id] && id in b'.known
                    && b'.known[id] == Known(a.fabric[id].version, a.clock))
  {
    hide Receive, Compare, Resolve, Package, NeedsFrom, ReceiveAll;
    var ids := NeedsFrom(b.known, d);
    var ts := Package(a, ids);
    NeedsDistinct(b.known, d);
    PackageAt(a, ids);
    NeedsIn(b.known, d, id);
    if id !in a.known || (id in b.known && a.known[id].version <= b.known[id].version) {
      assert id !in ids;
      ReceiveAllElsewhere(b, me, ts, id);
    } else {
      assert DigestEntry(id, a.known[id].version) in d && Needs(b.known, DigestEntry(id, a.known[id].version));
      var t := Transfer(a.fabric[id], a.clock);
      assert t in ts;
      var k :| 0 <= k < |ts| && ts[k] == t;
      ReceiveAllAt(b, me, ts, k);
    }
  }

  /** After a pull in any run, B knows every node A knew, and has lost none of its own. */
  lemma PullCovers(
    ids: set<ReplicaId>, steps: seq<Step>, w: World, h: History, x: ReplicaId, y: ReplicaId, d: seq<DigestEntry>)
    requires Reached(ids, steps, w, h) && x in w.replicas && y in w.replicas
    requires IsDigest(w.replicas[x].known, d)
    ensures var a, b := w.replicas[x], w.replicas[y];
            a.known.Keys + b.known.Keys <= Pulled(b, y, a, d).fabric.Keys
    ensures var a, b := w.replicas[x], w.replicas[y];
            forall id <- a.known.Keys - b.known.Keys ::
              && id in a.fabric && id in Pulled(b, y, a, d).fabric
              && Pulled(b, y, a, d).fabric[id] == a.fabric[id]
  {
    hide Reached, Pulled, Installed, IsDigest;
    var a, b := w.replicas[x], w.replicas[y];
    KnownIsHeld(ids, steps, w, h, x);
    KnownIsHeld(ids, steps, w, h, y);
    forall id | id in a.known.Keys + b.known.Keys
      ensures id in Pulled(b, y, a, d).fabric
      ensures id in a.known && id !in b.known ==> Pulled(b, y, a, d).fabric[id] == a.fabric[id]
    {
      PullAt(b, y, a, d, id);
    }
  }

  /**
   Nodes both sides have and A knows in a later version. The pull leaves A's version at B exactly when B had it
   already, or A's clock is not covered by the clock B recorded for the node and A's clock is later or
   resolution takes A's version as it is. Transfers carry the sender's clock, not the node's, so a stale copy
   relayed by a replica that has heard from A makes B ignore A's newer version.
   */
  lemma PullUpdatesIff(b: Replica, me: ReplicaId, a: Replica, d: seq<DigestEntry>, id: LineageId)
    requires Settled(a) && Settled(b) && IsDigest(a.known, d)
    requires id in a.known && id in b.known && a.known[id].version > b.known[id].version
    ensures id in Pulled(b, me, a, d).fabric
    ensures Pulled(b, me, a, d).fabric[id] == a.fabric[id]
       <==> || b.fabric[id] == a.fabric[id]
            || (!Leq(a.clock, b.known[id].clock)
                && (Leq(b.known[id].clock, a.clock) || RemoteTaken(b.fabric[id], a.fabric[id])))
  {
    assert RemoteTaken(a.fabric[id], a.fabric[id]);
    hide Pulled, Leq, IsDigest, Resolve, RemoteTaken, LocalStays, Settlement;
    PullAt(b, me, a, d, id);
    SettlementIs(b.fabric[id], a.fabric[id]);
  }

  // ----- the failing case, step by step -----

  /** A writes n, then a newer n, then m. */
  function Writer(a: ReplicaId, n0: Node, n1: Node, m: Node): Replica {
    AddNode(AddNode(AddNode(NEW_REPLICA, a, n0), a, n1), a, m)
  }

  /** C is sent the first n and later m, each with A's clock of the time. */
  ghost function Relay(a: ReplicaId, c: ReplicaId, n0: Node, n1: Node, m: Node): Replica {
    Receive(Receive(NEW_REPLICA, c, Transfer(n0, AddNode(NEW_REPLICA, a, n0).clock)), c,
      Transfer(m, Writer(a, n0, n1, m).clock))
  }

  /** B is sent C's copy of n. */
  ghost function Late(a: ReplicaId, b: ReplicaId, c: ReplicaId, n0: Node, n1: Node, m: Node): Replica {
    Receive(NEW_REPLICA, b, Transfer(n0, Relay(a, c, n0, n1, m).clock))
  }

  lemma RelayHasHeard(a: ReplicaId, c: ReplicaId, n0: Node, n1: Node, m: Node)
    ensures Leq(Writer(a, n0, n1, m).clock, Relay(a, c, n0, n1, m).clock)
  {
    var first := Receive(NEW_REPLICA, c, Transfer(n0, AddNode(NEW_REPLICA, a, n0).clock));
    var w := Writer(a, n0, n1, m).clock;
    assert Relay(a, c, n0, n1, m).clock == Tick(Merge(first.clock, w), c) by {
      hide Compare, Resolve, Merge, Tick, Writer;
    }
    forall r ensures Get(w, r) <= Get(Tick(Merge(first.clock, w), c), r) {
    }
  }

  lemma WriterIs(a: ReplicaId, n0: Node, n1: Node, m: Node)
    requires n0.id == n1.id != m.id
    ensures var w := Writer(a, n0, n1, m);
            Settled(w) && n0.id in w.known && w.known[n0.id].version == n1.version && w.fabric[n0.id] == n1
  {
    hide Tick;
  }

  lemma LateIs(a: ReplicaId, b: ReplicaId, c: ReplicaId, n0: Node, n1: Node, m: Node)
    ensures var to := Late(a, b, c, n0, n1, m);
            Settled(to) && n0.id in to.known && to.fabric[n0.id] == n0
            && to.known[n0.id] == Known(n0.version, Relay(a, c, n0, n1, m).clock)
  {
    hide Tick, Merge, Relay, Compare, Resolve;
  }

  /** A version whose clock is covered by the recorded one is asked for, sent, and not installed. */
  lemma CoveredIsIgnored(b: Replica, me: ReplicaId, a: Replica, d: seq<DigestEntry>, id: LineageId)
    requires Settled(a) && Settled(b) && IsDigest(a.known, d) && id in a.known && id in b.known
    requires a.known[id].version > b.known[id].version && Leq(a.clock, b.known[id].clock)
    ensures id in NeedsFrom(b.known, d)
    ensures id in Pulled(b, me, a, d).fabric && Pulled(b, me, a, d).fabric[id] == b.fabric[id]
  {
    hide Pulled, Leq;
    var e := DigestEntry(id, a.known[id].version);
    assert e in d && Needs(b.known, e);
    NeedsIn(b.known, d, id);
    PullAt(b, me, a, d, id);
  }

  /** Then B pulls from A, asks for n, is sent the newer n, and keeps the old one. */
  lemma StaleCopyShadows(a: ReplicaId, b: ReplicaId, c: ReplicaId, n0: Node, n1: Node, m: Node, d: seq<DigestEntry>)
    requires n0.id == n1.id != m.id && n0.version < n1.version
    requires IsDigest(Writer(a, n0, n1, m).known, d)
    ensures var from, to := Writer(a, n0, n1, m), Late(a, b, c, n0, n1, m);
            && n0.id in from.fabric && from.fabric[n0.id] == n1 && n0.id in NeedsFrom(to.known, d)
            && n0.id in Pulled(to, b, from, d).fabric && Pulled(to, b, from, d).fabric[n0.id] == n0
  {
    hide Writer, Late, Pulled, Relay, Leq, IsDigest, NeedsFrom;
    WriterIs(a, n0, n1, m);
    LateIs(a, b, c, n0, n1, m);
    RelayHasHeard(a, c, n0, n1, m);
    CoveredIsIgnored(Late(a, b, c, n0, n1, m), b, Writer(a, n0, n1, m), d, n0.id);
  }
}
