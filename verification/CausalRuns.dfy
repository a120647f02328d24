/**
 Runs of any number of replicas exchanging nodes over a network that may delay, repeat or drop
 transfers. Beside the run, a history records for every event the set of events in its causal past:
 the previous events of its replica, and for a receive the past the transfer was shipped with. These
 pasts are built without a look at any counter; only which version a receive leaves in place, and so
 which past goes with the node, follows the outcome the replica computes. The theorem is that the
 counters count the pasts.
 */
module CausalRuns {
  import opened Common
  import opened VectorClocks
  import opened Conflicts
  import opened Replicas

  datatype World = World(replicas: map<ReplicaId, Replica>, sent: seq<Transfer>)

  datatype Step =
    | Add(at: ReplicaId, node: Node)
    | Ship(at: ReplicaId, id: LineageId)
    | Deliver(at: ReplicaId, k: nat)

  predicate Enabled(w: World, s: Step) {
    && s.at in w.replicas
    && (s.Ship? ==> s.id in w.replicas[s.at].fabric)
    && (s.Deliver? ==> s.k < |w.sent|)
  }

  ghost function Next(w: World, s: Step): World
    requires Enabled(w, s)
  {
    var r := w.replicas[s.at];
    match s
    case Add(at, node) => w.(replicas := w.replicas[at := AddNode(r, at, node)])
    case Ship(_, id) => w.(sent := w.sent + [Transfer(r.fabric[id], r.clock)])
    case Deliver(at, k) => w.(replicas := w.replicas[at := Receive(r, at, w.sent[k])])
  }

  type Past = set<nat>

  /**
   Event i happened at replica log[i], has the causal past pasts[i] (with i itself) and left that
   replica's clock at stamps[i]. The rest is the past that belongs to each clock of the world.
   */
  datatype History = History(
    log: seq<ReplicaId>,
    pasts: seq<Past>,
    stamps: seq<Clock>,
    at: map<ReplicaId, Past>,
    known: map<ReplicaId, map<LineageId, Past>>,
    sent: seq<Past>)

  ghost predicate Shaped(w: World, h: History) {
    && w.replicas.Keys == h.at.Keys == h.known.Keys
    && |h.pasts| == |h.log| == |h.stamps|
    && |w.sent| == |h.sent|
  }

  ghost function NextHistory(w: World, h: History, s: Step): History
    requires Enabled(w, s) && Shaped(w, h)
  {
    var e := |h.log|;
    match s
    case Add(at, node) =>
      var p := h.at[at] + {e};
      NewEvent(w, h, s, p).(known := h.known[at := h.known[at][node.id := p]])
    case Ship(at, _) => h.(sent := h.sent + [h.at[at]])
    case Deliver(at, k) =>
      var t := w.sent[k];
      var p := h.at[at] + h.sent[k] + {e};
      NewEvent(w, h, s, p).(known := h.known[at := KnownAfter(w.replicas[at], h.known[at], t, p, h.sent[k])])
  }

  /** The past recorded for the received node: the sender's, our own if we resolved, or the one we had. */
  ghost function KnownAfter(r: Replica, known: map<LineageId, Past>, t: Transfer, p: Past,
                            q: Past): map<LineageId, Past>
  {
    match OutcomeOf(r, t)
    case AlreadyHave => known
    case Conflicted => if Resolve(r.fabric[t.node.id], t.node).Resolved? then known[t.node.id := p] else known
    case _ => known[t.node.id := q]
  }

  ghost function NewEvent(w: World, h: History, s: Step, p: Past): History
    requires Enabled(w, s)
  {
    h.(log := h.log + [s.at], pasts := h.pasts + [p],
       stamps := h.stamps + [Next(w, s).replicas[s.at].clock], at := h.at[s.at := p])
  }

  // ----- clocks that count a past -----

  ghost function Of(p: Past, log: seq<ReplicaId>, r: ReplicaId): Past {
    set i | i in p && i < |log| && log[i] == r
  }

  /** A set of events that, with an event, has its replica's earlier ones and its whole causal past. */
  ghost predicate Closed(p: Past, log: seq<ReplicaId>, pasts: seq<Past>)
    requires |pasts| == |log|
  {
    && (forall i <- p :: i < |log| && pasts[i] <= p)
    && (forall i <- p :: forall j :: 0 <= j < i && log[j] == log[i] ==> j in p)
  }

  ghost predicate Counts(c: Clock, p: Past, log: seq<ReplicaId>) {
    forall r :: Get(c, r) == |Of(p, log, r)|
  }

  ghost predicate Stands(c: Clock, p: Past, h: History)
    requires |h.pasts| == |h.log|
  {
    Closed(p, h.log, h.pasts) && Counts(c, p, h.log)
  }

  lemma SubsetCard<T>(a: set<T>, b: set<T>)
    requires a <= b
    ensures |a| <= |b| && (|a| == |b| ==> a == b)
  {
    assert b == a + (b - a);
    assert |b| == |a| + |b - a|;
  }

  /** One replica's events enter a closed set in order, so two closed sets are nested on each replica. */
  lemma Nested(p: Past, q: Past, log: seq<ReplicaId>, pasts: seq<Past>, r: ReplicaId)
    requires |pasts| == |log| && Closed(p, log, pasts) && Closed(q, log, pasts)
    ensures Of(p, log, r) <= Of(q, log, r) || Of(q, log, r) <= Of(p, log, r)
    ensures Of(p, log, r) <= Of(q, log, r) <==> |Of(p, log, r)| <= |Of(q, log, r)|
  {
    var a, b := Of(p, log, r), Of(q, log, r);
    if i, j :| i in a && i !in b && j in b && j !in a {
      assert false;
    }
    if a <= b {
      SubsetCard(a, b);
    } else {
      assert b <= a;
      SubsetCard(b, a);
    }
  }

  /** Clocks that count closed pasts are ordered exactly as those pasts are by inclusion. */
  lemma CountsCompare(c: Clock, p: Past, d: Clock, q: Past, h: History)
    requires |h.pasts| == |h.log| && Stands(c, p, h) && Stands(d, q, h)
    ensures Leq(c, d) <==> p <= q
  {
    forall r
      ensures Of(p, h.log, r) <= Of(q, h.log, r) <==> Get(c, r) <= Get(d, r)
    {
      Nested(p, q, h.log, h.pasts, r);
    }
    if Leq(c, d) {
      forall i | i in p
        ensures i in q
      {
        var r := h.log[i];
        assert Get(c, r) <= Get(d, r);
        assert i in Of(p, h.log, r);
      }
    }
    if p <= q {
      forall r
        ensures Get(c, r) <= Get(d, r)
      {
        assert Of(p, h.log, r) <= Of(q, h.log, r);
      }
    }
  }

  lemma MergeStands(c: Clock, p: Past, d: Clock, q: Past, h: History)
    requires |h.pasts| == |h.log| && Stands(c, p, h) && Stands(d, q, h)
    ensures Stands(Merge(c, d), p + q, h)
  {
    hide Of, Merge;
    assert Closed(p + q, h.log, h.pasts);
    forall r
      ensures Get(Merge(c, d), r) == |Of(p + q, h.log, r)|
    {
      assert Get(c, r) == |Of(p, h.log, r)| && Get(d, r) == |Of(q, h.log, r)|;
      MergeCounts(c, p, d, q, h, r);
    }
  }

  lemma MergeCounts(c: Clock, p: Past, d: Clock, q: Past, h: History, r: ReplicaId)
    requires |h.pasts| == |h.log| && Closed(p, h.log, h.pasts) && Closed(q, h.log, h.pasts)
    requires Get(c, r) == |Of(p, h.log, r)| && Get(d, r) == |Of(q, h.log, r)|
    ensures Get(Merge(c, d), r) == |Of(p + q, h.log, r)|
  {
    hide Closed;
    var a, b := Of(p, h.log, r), Of(q, h.log, r);
    assert Of(p + q, h.log, r) == a + b;
    Nested(p, q, h.log, h.pasts, r);
    Nested(q, p, h.log, h.pasts, r);
    if a <= b {
      assert a + b == b;
    } else {
      assert a + b == a;
    }
  }

  /** A later event changes nothing for the clocks already there. */
  lemma StandsLater(c: Clock, p: Past, h: History, h': History)
    requires |h.pasts| == |h.log| && |h'.pasts| == |h'.log|
    requires h.log <= h'.log && h.pasts <= h'.pasts && Stands(c, p, h)
    ensures Stands(c, p, h')
  {
    forall r
      ensures Of(p, h.log, r) == Of(p, h'.log, r)
    {
    }
  }

  /** A tick at a replica that has seen all its own events counts the new one. */
  lemma TickStands(c: Clock, p: Past, r: ReplicaId, h: History, h': History)
    requires |h.pasts| == |h.log| && Stands(c, p, h)
    requires forall i :: 0 <= i < |h.log| && h.log[i] == r ==> i in p
    requires h'.log == h.log + [r] && h'.pasts == h.pasts + [p + {|h.log|}]
    ensures Stands(Tick(c, r), p + {|h.log|}, h')
  {
    hide Of, Tick;
    var e := |h.log|;
    assert Closed(p + {e}, h'.log, h'.pasts) by {
      TickClosed(p, r, h, h');
    }
    forall x
      ensures Get(Tick(c, r), x) == |Of(p + {e}, h'.log, x)|
    {
      assert Get(c, x) == |Of(p, h.log, x)|;
      TickCounts(c, p, r, h, h', x);
    }
  }

  lemma TickClosed(p: Past, r: ReplicaId, h: History, h': History)
    requires |h.pasts| == |h.log| && Closed(p, h.log, h.pasts)
    requires forall i :: 0 <= i < |h.log| && h.log[i] == r ==> i in p
    requires h'.log == h.log + [r] && h'.pasts == h.pasts + [p + {|h.log|}]
    ensures Closed(p + {|h.log|}, h'.log, h'.pasts)
  {
    var p' := p + {|h.log|};
    forall i | i in p'
      ensures i < |h'.log| && h'.pasts[i] <= p'
    {
      if i in p {
        assert h'.pasts[i] == h.pasts[i] && h.pasts[i] <= p;
      }
    }
  }

  lemma TickCounts(c: Clock, p: Past, r: ReplicaId, h: History, h': History, x: ReplicaId)
    requires (forall i <- p :: i < |h.log|) && h'.log == h.log + [r] && Get(c, x) == |Of(p, h.log, x)|
    ensures Get(Tick(c, r), x) == |Of(p + {|h.log|}, h'.log, x)|
  {
    var e := |h.log|;
    if x == r {
      assert Of(p + {e}, h'.log, x) == Of(p, h.log, x) + {e};
    } else {
      assert Of(p + {e}, h'.log, x) == Of(p, h.log, x);
    }
  }

  // ----- the invariant of every run -----

  ghost predicate ReplicaOk(me: ReplicaId, r: Replica, p: Past, known: map<LineageId, Past>, h: History)
    requires |h.pasts| == |h.log|
  {
    && WellKeyed(r) && r.fabric.Keys == r.known.Keys == known.Keys
    && Stands(r.clock, p, h)
    && (forall i :: 0 <= i < |h.log| && h.log[i] == me ==> i in p)
    && (forall id <- known.Keys :: known[id] <= p && Stands(r.known[id].clock, known[id], h))
  }

  /** An event is the last of its own past, and its stamp counts that past. */
  ghost predicate Event(h: History, e: nat)
    requires |h.pasts| == |h.log| == |h.stamps| && e < |h.log|
  {
    e in h.pasts[e] && (forall i <- h.pasts[e] :: i <= e) && Stands(h.stamps[e], h.pasts[e], h)
  }

  ghost predicate Inv(w: World, h: History) {
    && Shaped(w, h)
    && (forall r <- w.replicas.Keys :: ReplicaOk(r, w.replicas[r], h.at[r], h.known[r], h))
    && (forall k :: 0 <= k < |w.sent| ==> Stands(w.sent[k].clock, h.sent[k], h))
    && (forall e :: 0 <= e < |h.log| ==> Event(h, e))
  }

  /** What the steps that create an event have in common: the rest of the world is as it was. */
  lemma EventKeeps(w: World, h: History, w': World, h': History, at: ReplicaId, p: Past)
    requires Inv(w, h) && Shaped(w', h') && at in w.replicas
    requires w'.replicas.Keys == w.replicas.Keys && w'.sent == w.sent && h'.sent == h.sent
    requires h'.log == h.log + [at] && h'.pasts == h.pasts + [p] && h'.stamps == h.stamps + [w'.replicas[at].clock]
    requires |h.log| in p && h'.at[at] == p
    requires forall r <- w.replicas.Keys ::
               r != at ==> w'.replicas[r] == w.replicas[r] && h'.at[r] == h.at[r] && h'.known[r] == h.known[r]
    requires ReplicaOk(at, w'.replicas[at], p, h'.known[at], h')
    ensures Inv(w', h')
  {
    hide Stands, WellKeyed;
    forall r | r in w.replicas.Keys && r != at
      ensures ReplicaOk(r, w'.replicas[r], h'.at[r], h'.known[r], h')
    {
      OtherReplica(r, w.replicas[r], h.at[r], h.known[r], h, h', at);
    }
    forall k | 0 <= k < |w.sent|
      ensures Stands(w'.sent[k].clock, h'.sent[k], h')
    {
      StandsLater(w.sent[k].clock, h.sent[k], h, h');
    }
    forall e | 0 <= e < |h'.log|
      ensures Event(h', e)
    {
      if e < |h.log| {
        assert Event(h, e);
        StandsLater(h.stamps[e], h.pasts[e], h, h');
      } else {
        StandsWithin(h'.stamps[e], p, h');
      }
    }
  }

  lemma StandsWithin(c: Clock, p: Past, h: History)
    requires |h.pasts| == |h.log| && Stands(c, p, h)
    ensures forall i <- p :: i < |h.log|
  {
  }

  lemma OtherReplica(me: ReplicaId, r: Replica, p: Past, known: map<LineageId, Past>, h: History,
                     h': History, at: ReplicaId)
    requires |h.pasts| == |h.log| && |h'.pasts| == |h'.log|
    requires ReplicaOk(me, r, p, known, h) && me != at
    requires h'.log == h.log + [at] && h.pasts <= h'.pasts
    ensures ReplicaOk(me, r, p, known, h')
  {
    hide Stands;
    StandsLater(r.clock, p, h, h');
    forall id | id in known.Keys
      ensures Stands(r.known[id].clock, known[id], h')
    {
      StandsLater(r.known[id].clock, known[id], h, h');
    }
  }

  /** The replica's clock after an event of its own. */
  lemma ClockOk(me: ReplicaId, r: Replica, p: Past, known: map<LineageId, Past>, h: History,
                h': History, c: Clock, p': Past)
    requires |h.pasts| == |h.log| && ReplicaOk(me, r, p, known, h) && p + {|h.log|} <= p'
    requires h'.log == h.log + [me] && h'.pasts == h.pasts + [p']
    requires Stands(c, p', h')
    ensures ReplicaOk(me, r.(clock := c), p', known, h')
  {
    hide Stands;
    KnownLater(me, r, p, known, h, h');
    assert forall id <- known.Keys :: known[id] <= p <= p';
  }

  /** A version put in place with a clock that stands for a past the replica has. */
  lemma InstallOk(me: ReplicaId, r: Replica, p: Past, known: map<LineageId, Past>, h: History, n: Node,
                  c: Clock, q: Past)
    requires |h.pasts| == |h.log| && ReplicaOk(me, r, p, known, h)
    requires Stands(c, q, h) && q <= p
    ensures var r' := r.(fabric := r.fabric[n.id := n], known := r.known[n.id := Known(n.version, c)]);
            ReplicaOk(me, r', p, known[n.id := q], h)
  {
    hide Stands;
  }

  lemma AddKeeps(w: World, h: History, s: Step)
    requires Inv(w, h) && Enabled(w, s) && s.Add?
    ensures Inv(Next(w, s), NextHistory(w, h, s))
  {
    hide Closed, Counts, Tick, Of, ReplicaOk, WellKeyed;
    var w', h' := Next(w, s), NextHistory(w, h, s);
    var r, p, e := w.replicas[s.at], h.at[s.at], |h.log|;
    var c := Tick(r.clock, s.at);
    assert ReplicaOk(s.at, r, p, h.known[s.at], h);
    OwnSeen(s.at, r, p, h.known[s.at], h);
    TickStands(r.clock, p, s.at, h, h');
    ClockOk(s.at, r, p, h.known[s.at], h, h', c, p + {e});
    InstallOk(s.at, r.(clock := c), p + {e}, h.known[s.at], h', s.node, c, p + {e});
    EventKeeps(w, h, w', h', s.at, p + {e});
  }

  lemma OwnSeen(me: ReplicaId, r: Replica, p: Past, known: map<LineageId, Past>, h: History)
    requires |h.pasts| == |h.log| && ReplicaOk(me, r, p, known, h)
    ensures Stands(r.clock, p, h) && WellKeyed(r)
    ensures forall i :: 0 <= i < |h.log| && h.log[i] == me ==> i in p
  {
  }

  lemma KnownLater(me: ReplicaId, r: Replica, p: Past, known: map<LineageId, Past>, h: History, h': History)
    requires |h.pasts| == |h.log| && |h'.pasts| == |h'.log|
    requires ReplicaOk(me, r, p, known, h) && h.log <= h'.log && h.pasts <= h'.pasts
    ensures forall id <- known.Keys :: Stands(r.known[id].clock, known[id], h')
  {
    hide Stands;
    forall id | id in known.Keys
      ensures Stands(r.known[id].clock, known[id], h')
    {
      StandsLater(r.known[id].clock, known[id], h, h');
    }
  }

  lemma ShipKeeps(w: World, h: History, s: Step)
    requires Inv(w, h) && Enabled(w, s) && s.Ship?
    ensures Inv(Next(w, s), NextHistory(w, h, s))
  {
    hide Closed, Counts, WellKeyed, Of;
    var w', h' := Next(w, s), NextHistory(w, h, s);
    assert h'.log == h.log && h'.pasts == h.pasts;
    SameStands(h, h');
    forall r | r in w'.replicas.Keys
      ensures ReplicaOk(r, w'.replicas[r], h'.at[r], h'.known[r], h')
    {
      assert ReplicaOk(r, w.replicas[r], h.at[r], h.known[r], h);
    }
    forall e | 0 <= e < |h'.log|
      ensures Event(h', e)
    {
      assert Event(h, e);
    }
  }

  lemma SameStands(h: History, h': History)
    requires |h.pasts| == |h.log| && h'.log == h.log && h'.pasts == h.pasts
    ensures forall c, p :: Stands(c, p, h) <==> Stands(c, p, h')
  {
  }

  /** A receive, whichever of its four outcomes it has. */
  lemma ReceiveOk(me: ReplicaId, r: Replica, p: Past, known: map<LineageId, Past>, t: Transfer, q: Past,
                  h: History, h': History)
    requires |h.pasts| == |h.log| && ReplicaOk(me, r, p, known, h) && Stands(t.clock, q, h)
    requires h'.log == h.log + [me] && h'.pasts == h.pasts + [p + q + {|h.log|}]
    ensures ReplicaOk(me, Receive(r, me, t), p + q + {|h.log|}, KnownAfter(r, known, t, p + q + {|h.log|}, q), h')
  {
    hide Closed, Counts, Tick, Merge, Of, Resolve, Compare, ReplicaOk, WellKeyed;
    var p' := p + q + {|h.log|};
    var c := Tick(Merge(r.clock, t.clock), me);
    OwnSeen(me, r, p, known, h);
    MergeStands(r.clock, p, t.clock, q, h);
    TickStands(Merge(r.clock, t.clock), p + q, me, h, h');
    StandsLater(t.clock, q, h, h');
    ClockOk(me, r, p, known, h, h', c, p');
    var r' := r.(clock := c);
    match OutcomeOf(r, t)
    case AlreadyHave =>
    case Conflicted =>
      var local := r.fabric[t.node.id];
      var res := Resolve(local, t.node);
      assert local.id == t.node.id by {
        assert ReplicaOk(me, r, p, known, h);
        KeyedAt(r, t.node.id);
      }
      SettlementIs(local, t.node);
      var r'' := r'.(conflicts := r.conflicts + [(ConflictOf(r, t), res)]);
      ConflictsIrrelevant(me, r', p', known, h', r''.conflicts);
      if res.Resolved? {
        InstallOk(me, r'', p', known, h', res.winner, c, p');
      } else {
        ReplaceOk(me, r'', p', known, h', res.branchB);
      }
    case _ =>
      InstallOk(me, r', p', known, h', t.node, t.clock, q);
  }

  lemma KeyedAt(r: Replica, id: LineageId)
    requires WellKeyed(r) && id in r.fabric
    ensures r.fabric[id].id == id
  {
  }

  lemma ConflictsIrrelevant(me: ReplicaId, r: Replica, p: Past, known: map<LineageId, Past>, h: History,
                            log: seq<(Conflict, Resolution)>)
    requires |h.pasts| == |h.log| && ReplicaOk(me, r, p, known, h)
    ensures ReplicaOk(me, r.(conflicts := log), p, known, h)
  {
  }

  /** Branching replaces a node the replica has, and records nothing. */
  lemma ReplaceOk(me: ReplicaId, r: Replica, p: Past, known: map<LineageId, Past>, h: History, n: Node)
    requires |h.pasts| == |h.log| && ReplicaOk(me, r, p, known, h) && n.id in r.fabric
    ensures ReplicaOk(me, r.(fabric := r.fabric[n.id := n]), p, known, h)
  {
    hide Stands;
  }

  lemma DeliverKeeps(w: World, h: History, s: Step)
    requires Inv(w, h) && Enabled(w, s) && s.Deliver?
    ensures Inv(Next(w, s), NextHistory(w, h, s))
  {
    hide Closed, Counts, Of, Receive, ReplicaOk, KnownAfter;
    var w', h' := Next(w, s), NextHistory(w, h, s);
    var r, t, q := w.replicas[s.at], w.sent[s.k], h.sent[s.k];
    var p := h.at[s.at] + q + {|h.log|};
    assert ReplicaOk(s.at, r, h.at[s.at], h.known[s.at], h);
    assert Stands(t.clock, q, h);
    ReceiveOk(s.at, r, h.at[s.at], h.known[s.at], t, q, h, h');
    EventKeeps(w, h, w', h', s.at, p);
  }

  lemma StepKeeps(w: World, h: History, s: Step)
    requires Inv(w, h) && Enabled(w, s)
    ensures Inv(Next(w, s), NextHistory(w, h, s))
  {
    hide *;
    match s
    case Add(_, _) => AddKeeps(w, h, s);
    case Ship(_, _) => ShipKeeps(w, h, s);
    case Deliver(_, _) => DeliverKeeps(w, h, s);
  }

  // ----- runs -----

  ghost function Start(ids: set<ReplicaId>): World {
    World(map r | r in ids :: NEW_REPLICA, [])
  }

  ghost function StartHistory(ids: set<ReplicaId>): History {
    History([], [], [], map r | r in ids :: {}, map r | r in ids :: map[], [])
  }

  /** The steps lead from fresh replicas to this world with this history. */
  ghost predicate Reached(ids: set<ReplicaId>, steps: seq<Step>, w: World, h: History)
    decreases |steps|
  {
    if steps == [] then w == Start(ids) && h == StartHistory(ids)
    else
      var n := |steps| - 1;
      exists w0, h0 ::
        && Reached(ids, steps[..n], w0, h0) && Enabled(w0, steps[n]) && Shaped(w0, h0)
        && w == Next(w0, steps[n]) && h == NextHistory(w0, h0, steps[n])
  }

  lemma {:induction false} RunKeeps(ids: set<ReplicaId>, steps: seq<Step>, w: World, h: History)
    requires Reached(ids, steps, w, h)
    ensures Inv(w, h)
    decreases |steps|
  {
    if steps == [] {
      StartOk(ids);
    } else {
      var n := |steps| - 1;
      var w0, h0 :| && Reached(ids, steps[..n], w0, h0) && Enabled(w0, steps[n]) && Shaped(w0, h0)
                    && w == Next(w0, steps[n]) && h == NextHistory(w0, h0, steps[n]);
      RunKeeps(ids, steps[..n], w0, h0);
      StepKeeps(w0, h0, steps[n]);
    }
  }

  lemma StartOk(ids: set<ReplicaId>)
    ensures Inv(Start(ids), StartHistory(ids))
  {
    var h := StartHistory(ids);
    forall r
      ensures |Of({}, h.log, r)| == 0
    {
      assert Of({}, h.log, r) == {};
    }
    assert Stands(map[], {}, h);
  }

  /** A clock held somewhere in the world, with the causal past that belongs to it. */
  ghost predicate Recorded(w: World, h: History, c: Clock, p: Past)
    requires Shaped(w, h)
  {
    || (exists r <- w.replicas.Keys :: c == w.replicas[r].clock && p == h.at[r])
    || (exists r <- w.replicas.Keys :: exists id <- w.replicas[r].known.Keys ::
          id in h.known[r] && c == w.replicas[r].known[id].clock && p == h.known[r][id])
    || (exists k :: 0 <= k < |w.sent| && c == w.sent[k].clock && p == h.sent[k])
    || (exists e :: 0 <= e < |h.log| && c == h.stamps[e] && p == h.pasts[e])
  }

  lemma RecordedStands(w: World, h: History, c: Clock, p: Past)
    requires Inv(w, h) && Recorded(w, h, c, p)
    ensures Stands(c, p, h)
  {
    hide Stands;
    if r :| r in w.replicas.Keys && c == w.replicas[r].clock && p == h.at[r] {
    } else if r, id :| r in w.replicas.Keys && id in w.replicas[r].known.Keys && id in h.known[r]
                       && c == w.replicas[r].known[id].clock && p == h.known[r][id] {
    } else if k :| 0 <= k < |w.sent| && c == w.sent[k].clock && p == h.sent[k] {
    } else {
      var e :| 0 <= e < |h.log| && c == h.stamps[e] && p == h.pasts[e];
      assert Event(h, e);
    }
  }

  /**
   Vector clocks are causal histories. In every run, every clock on a replica, in what a replica knows
   of a node, in a transfer or left by an event counts exactly its causal past, replica by replica;
   and any two of them compare exactly as those pasts do by inclusion.
   */
  lemma ClocksAreCausalPasts(ids: set<ReplicaId>, steps: seq<Step>, w: World, h: History, c: Clock,
                             p: Past, d: Clock, q: Past)
    requires Reached(ids, steps, w, h) && Shaped(w, h)
    requires Recorded(w, h, c, p) && Recorded(w, h, d, q)
    ensures Counts(c, p, h.log)
    ensures Compare(c, d) == Order(p <= q, q <= p)
  {
    hide Reached, Recorded, Inv, Compare;
    RunKeeps(ids, steps, w, h);
    RecordedStands(w, h, c, p);
    RecordedStands(w, h, d, q);
    CountsCompare(c, p, d, q, h);
    CountsCompare(d, q, c, p, h);
    assert Compare(c, d) == Order(Leq(c, d), Leq(d, c)) by {
      CompareIs(c, d);
    }
  }

  lemma CompareIs(c: Clock, d: Clock)
    ensures Compare(c, d) == Order(Leq(c, d), Leq(d, c))
  {
  }

  /** The clocks two events leave are ordered exactly when one event is in the other's causal past. */
  lemma HappenedBefore(ids: set<ReplicaId>, steps: seq<Step>, w: World, h: History, e: nat, f: nat)
    requires Reached(ids, steps, w, h) && Shaped(w, h) && e < |h.log| && f < |h.log| && e != f
    ensures Compare(h.stamps[e], h.stamps[f]) == Some(Less) <==> e in h.pasts[f]
    ensures Compare(h.stamps[e], h.stamps[f]) == None <==> e !in h.pasts[f] && f !in h.pasts[e]
  {
    hide Reached, Recorded, Compare, Counts;
    RunKeeps(ids, steps, w, h);
    assert Event(h, e) && Event(h, f);
    EventRecorded(w, h, e);
    EventRecorded(w, h, f);
    ClocksAreCausalPasts(ids, steps, w, h, h.stamps[e], h.pasts[e], h.stamps[f], h.pasts[f]);
  }

  lemma EventRecorded(w: World, h: History, e: nat)
    requires Shaped(w, h) && e < |h.log|
    ensures Recorded(w, h, h.stamps[e], h.pasts[e])
  {
  }

  /** What a receive does is decided by the causal pasts of the two versions alone. */
  lemma ReceiveIsCausal(ids: set<ReplicaId>, steps: seq<Step>, w: World, h: History, r: ReplicaId, k: nat)
    requires Reached(ids, steps, w, h) && Shaped(w, h) && r in w.replicas && k < |w.sent|
    requires w.sent[k].node.id in w.replicas[r].fabric
    ensures w.sent[k].node.id in h.known[r]
    ensures var ours, theirs := h.known[r][w.sent[k].node.id], h.sent[k];
            OutcomeOf(w.replicas[r], w.sent[k])
            == if theirs <= ours then AlreadyHave else if ours <= theirs then Updated else Conflicted
  {
    hide Reached, Compare, Counts, Stands, WellKeyed;
    RunKeeps(ids, steps, w, h);
    var id := w.sent[k].node.id;
    assert ReplicaOk(r, w.replicas[r], h.at[r], h.known[r], h);
    ClocksAreCausalPasts(ids, steps, w, h, w.replicas[r].known[id].clock, h.known[r][id], w.sent[k].clock, h.sent[k]);
  }

  /** In every run a replica knows exactly the nodes it holds, and nothing it knows is ahead of its own clock. */
  lemma KnownIsHeld(ids: set<ReplicaId>, steps: seq<Step>, w: World, h: History, r: ReplicaId)
    requires Reached(ids, steps, w, h) && r in w.replicas
    ensures w.replicas[r].known.Keys == w.replicas[r].fabric.Keys && WellKeyed(w.replicas[r])
    ensures forall id <- w.replicas[r].known.Keys :: Leq(w.replicas[r].known[id].clock, w.replicas[r].clock)
  {
    hide Reached, Stands;
    RunKeeps(ids, steps, w, h);
    assert ReplicaOk(r, w.replicas[r], h.at[r], h.known[r], h);
    forall id | id in w.replicas[r].known.Keys
      ensures Leq(w.replicas[r].known[id].clock, w.replicas[r].clock)
    {
      CountsCompare(w.replicas[r].known[id].clock, h.known[r][id], w.replicas[r].clock, h.at[r], h);
    }
  }

  /** No step loses a node, and no clock goes back. */
  lemma StepsOnlyGrow(w: World, s: Step, r: ReplicaId)
    requires Enabled(w, s) && r in w.replicas
    requires forall x <- w.replicas.Keys :: WellKeyed(w.replicas[x])
    ensures r in Next(w, s).replicas
    ensures w.replicas[r].fabric.Keys <= Next(w, s).replicas[r].fabric.Keys
    ensures Leq(w.replicas[r].clock, Next(w, s).replicas[r].clock)
  {
    hide Compare;
  }
}
