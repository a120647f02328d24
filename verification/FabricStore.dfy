/** The fabric container itself: its five tables updated in place, proved against FabricGraph. */
module FabricStore {
  import opened Common
  import opened FabricGraph
  import opened Degrees
  import opened FabricRuns

  datatype WriteResult = Written(id: LineageId) | SignatureRequired

  class Fabric {
    var nodes: map<LineageId, Entry>
    var signatureIndex: map<nat, LineageId>
    var edges: map<LineageId, seq<Edge>>
    var reverseEdges: map<LineageId, seq<LineageId>>
    var clock: nat
    /** The regions whose sensitivity is High; every other region is Normal. */
    var highRegions: set<nat>

    function State(): Graph
      reads this
    {
      Graph(nodes, signatureIndex, edges, reverseEdges, clock)
    }

    constructor ()
      ensures State() == EMPTY && highRegions == {}
    {
      nodes, signatureIndex, edges, reverseEdges, clock, highRegions := map[], map[], map[], map[], 0, {};
    }

    constructor FromPersistedData(ns: seq<Entry>, es: seq<EdgeRecord>, clock: nat)
      ensures State() == FromPersisted(ns, es, clock)
    {
      nodes, signatureIndex, edges, reverseEdges, highRegions := map[], map[], map[], map[], {};
      this.clock := clock;
      new;
      for i := 0 to |ns|
        invariant InsertNodes(State(), ns[i..]) == InsertNodes(EMPTY.(clock := clock), ns)
      {
        assert ns[i..][1..] == ns[i + 1..];
        var n := ns[i].node;
        nodes := nodes[n.id := Entry(n, ns[i].lamport)];
        if n.signature !in signatureIndex {
          signatureIndex := signatureIndex[n.signature := n.id];
        }
      }
      assert ns[|ns|..] == [];
      ghost var loaded := State();
      for i := 0 to |es|
        invariant InsertEdges(State(), es[i..]) == InsertEdges(loaded, es)
      {
        assert es[i..][1..] == es[i + 1..];
        var r := es[i];
        if r.from in nodes && r.e.target in nodes {
          edges := edges[r.from := (if r.from in edges then edges[r.from] else []) + [r.e]];
          reverseEdges := reverseEdges[r.e.target :=
            (if r.e.target in reverseEdges then reverseEdges[r.e.target] else []) + [r.from]];
        }
      }
      assert es[|es|..] == [];
      SyncAllNodes();
    }

    /** Every node in turn, in any order. */
    method SyncAllNodes()
      modifies this`nodes
      ensures State() == SyncAll(old(State()))
    {
      ghost var g := State();
      var todo := nodes.Keys;
      while todo != {}
        invariant todo <= g.nodes.Keys == nodes.Keys
        invariant forall id <- nodes.Keys ::
                    nodes[id] == if id in todo then g.nodes[id] else Synced(g.nodes[id], Out(g, id))
        decreases todo
      {
        var id :| id in todo;
        SyncNodeContext(id);
        todo := todo - {id};
      }
    }

    method SyncNodeContext(id: LineageId)
      modifies this`nodes
      ensures State() == SyncedAt(old(State()), id)
    {
      if id in nodes {
        var context: seq<Edge> := [];
        if id in edges {
          for i := 0 to |edges[id]|
            invariant nodes == old(nodes) && edges == old(edges) && context == edges[id][..i]
          {
            context := context + [edges[id][i]];
          }
          assert edges[id][..|edges[id]|] == edges[id];
        }
        nodes := nodes[id := Synced(nodes[id], context)];
      }
    }

    /** A High region takes no unsigned node. */
    method CreateNode(n: IntentNode, region: nat, signed: bool) returns (r: WriteResult)
      modifies this
      ensures highRegions == old(highRegions)
      ensures region in highRegions && !signed ==> r == SignatureRequired && State() == old(State())
      ensures region !in highRegions || signed ==> r == Written(n.id) && State() == Create(old(State()), n)
    {
      if region in highRegions && !signed {
        return SignatureRequired;
      }
      clock := clock + 1;
      nodes := nodes[n.id := Entry(n, clock)];
      if n.signature !in signatureIndex {
        signatureIndex := signatureIndex[n.signature := n.id];
      }
      r := Written(n.id);
    }

    method DoAddEdge(from: LineageId, e: Edge) returns (r: Result<()>)
      modifies this`nodes, this`edges, this`reverseEdges
      ensures r == AddEdgeError(old(State()), from, e.target)
      ensures State() == AddEdge(old(State()), from, e)
    {
      if from == e.target {
        return Err(SelfEdge(from));
      }
      if from !in nodes {
        return Err(NodeNotFound(from));
      }
      if e.target !in nodes {
        return Err(NodeNotFound(e.target));
      }
      if from !in edges {
        edges := edges[from := []];
      }
      edges := edges[from := edges[from] + [e]];
      if e.target !in reverseEdges {
        reverseEdges := reverseEdges[e.target := []];
      }
      reverseEdges := reverseEdges[e.target := reverseEdges[e.target] + [from]];
      assert State() == Linked(old(State()), from, e);
      SyncNodeContext(from);
      r := Ok(());
    }

    method RemoveEdgesBetween(from: LineageId, to: LineageId) returns (removed: nat)
      modifies this`nodes, this`edges, this`reverseEdges
      ensures removed == RemovedBetween(old(State()), from, to)
      ensures State() == RemoveBetween(old(State()), from, to)
    {
      hide CountTo, Without, WithoutId;
      ghost var g := State();
      CountWithout(Out(g, from), to, to);
      removed := 0;
      if from in edges {
        var before := |edges[from]|;
        var kept := Without(edges[from], to);
        edges := edges[from := kept];
        removed := before - |kept|;
      }
      if removed > 0 {
        if to in reverseEdges {
          reverseEdges := reverseEdges[to := WithoutId(reverseEdges[to], from)];
        }
        assert State() == Unlinked(g, from, to);
        SyncNodeContext(from);
      } else {
        assert edges == g.edges;
      }
    }

    /** The node, its outgoing edges' back references, then each source's edges to it. */
    method FadeNode(id: LineageId) returns (faded: bool)
      modifies this
      ensures faded <==> id in old(nodes)
      ensures State() == FadeListed(old(State()), id) && highRegions == old(highRegions)
      ensures Coherent(old(State())) ==> State() == Fade(old(State()), id)
    {
      hide CountTo, Without, WithoutId, Coherent, Fade, WithoutBackReferences, Sources, FadeListed, DroppedFor;
      ghost var g := State();
      if Coherent(g) { FadeListedIsFade(g, id); }
      NothingFaded(g, id);
      if id !in nodes {
        return false;
      }
      var entry := nodes[id];
      nodes := nodes - {id};
      var sig := entry.node.signature;
      if sig in signatureIndex && signatureIndex[sig] == id {
        signatureIndex := signatureIndex - {sig};
      }
      DropOutgoing(id, g);
      DropIncoming(id, g);
      FadedTables(nodes, edges, id, g);
      faded := true;
    }

    method DropOutgoing(id: LineageId, ghost g: Graph)
      requires edges == g.edges && reverseEdges == g.reverse
      modifies this`edges, this`reverseEdges
      ensures edges == g.edges - {id} && reverseEdges == WithoutBackReferences(g, id)
    {
      hide CountTo, Without, WithoutId;
      CountedNone();
      if id in edges {
        var outgoing := edges[id];
        edges := edges - {id};
        assert outgoing[..0] == [];
        for i := 0 to |outgoing|
          invariant edges == g.edges - {id} && reverseEdges.Keys == g.reverse.Keys
          invariant forall t <- g.reverse.Keys ::
                      reverseEdges[t]
                        == if CountTo(outgoing[..i], t) > 0 then WithoutId(g.reverse[t], id) else g.reverse[t]
        {
          var t := outgoing[i].target;
          CountedMore(outgoing, i);
          if t in reverseEdges {
            WithoutIdTwice(g.reverse[t], id);
            reverseEdges := reverseEdges[t := WithoutId(reverseEdges[t], id)];
          }
        }
        assert outgoing[..|outgoing|] == outgoing;
      }
    }

    method DropIncoming(id: LineageId, ghost g: Graph)
      requires nodes == g.nodes - {id} && edges == g.edges - {id} && reverseEdges == WithoutBackReferences(g, id)
      modifies this`nodes, this`edges, this`reverseEdges
      ensures reverseEdges == WithoutBackReferences(g, id) - {id}
      ensures DroppedFor(nodes, edges, id, g, set x | x in Sources(g, id))
    {
      hide CountTo, Without, WithoutId;
      var sources: seq<LineageId> := [];
      if id in reverseEdges {
        sources := reverseEdges[id];
        reverseEdges := reverseEdges - {id};
      }
      ghost var done: set<LineageId> := {};
      for i := 0 to |sources|
        invariant done == set k | 0 <= k < i :: sources[k]
        invariant reverseEdges == WithoutBackReferences(g, id) - {id}
        invariant DroppedFor(nodes, edges, id, g, done)
      {
        DropSource(id, sources[i], g, done);
        done := done + {sources[i]};
      }
      assert done == set x | x in sources;
    }

    method DropSource(id: LineageId, s: LineageId, ghost g: Graph, ghost done: set<LineageId>)
      requires DroppedFor(nodes, edges, id, g, done)
      modifies this`nodes, this`edges
      ensures DroppedFor(nodes, edges, id, g, done + {s})
    {
      hide Without;
      if s in edges {
        WithoutTwice(g.edges[s], id);
        edges := edges[s := Without(edges[s], id)];
      }
      EmptyWithout();
      SyncNodeContext(s);
    }

    /** The closure, then the recomputed signature, the index and the clock. */
    method MutateNode(id: LineageId, f: IntentNode -> IntentNode, signatureOf: nat -> nat) returns (r: Result<()>)
      modifies this
      ensures highRegions == old(highRegions)
      ensures r == if id in old(nodes) then Ok(()) else Err(NodeNotFound(id))
      ensures State() == Mutate(old(State()), id, f, signatureOf)
    {
      if id !in nodes {
        return Err(NodeNotFound(id));
      }
      var node := nodes[id].node;
      var was := node.signature;
      nodes := nodes - {id};
      node := f(node);
      node := node.(signature := signatureOf(node.meaning), version := node.version + 1);
      var now := node.signature;
      if was != now {
        if was in signatureIndex && signatureIndex[was] == id {
          signatureIndex := signatureIndex - {was};
        }
        if now !in signatureIndex {
          signatureIndex := signatureIndex[now := id];
        }
      }
      clock := clock + 1;
      nodes := nodes[id := Entry(node, clock)];
      assert nodes == old(nodes)[id := Entry(node, clock)];
      r := Ok(());
    }

    method ApplyAction(id: LineageId, a: NodeAction, signatureOf: nat -> nat) returns (r: Result<bool>)
      modifies this
      ensures highRegions == old(highRegions)
      ensures (r, State()) == Apply(old(State()), id, a, signatureOf)
    {
      hide Coherent, Mutate, AddEdge, RemoveBetween, AddEdgeError;
      match a
      case CreateEdge(t, w, k) =>
        if id !in nodes {
          return Err(NodeNotFound(id));
        }
        var added := DoAddEdge(id, Edge(t, w, k));
        RefusedUnchanged(old(State()), id, Edge(t, w, k));
        r := if added.Ok? then Ok(true) else Err(added.error);
      case ModifyEdge(t, w) =>
        if id !in nodes {
          return Err(NodeNotFound(id));
        }
        var found := FirstTo(if id in edges then edges[id] else [], t);
        if found == [] {
          return Ok(false);
        }
        var _ := RemoveEdgesBetween(id, t);
        var added := DoAddEdge(id, Edge(t, w, found[0].kind));
        RefusedUnchanged(RemoveBetween(old(State()), id, t), id, Edge(t, w, found[0].kind));
        r := if added.Ok? then Ok(true) else Err(added.error);
      case AdjustConfidence(observe) =>
        var m := MutateNode(id, Adjusting(observe), signatureOf);
        MutateAdjusted(old(State()), id, observe, signatureOf);
        r := if m.Ok? then Ok(true) else Err(m.error);
      case _ =>
        r := Ok(false);
    }

    method CountEdges() returns (n: nat)
      ensures n == EdgeCount(State())
    {
      n := 0;
      var todo := edges.Keys;
      while todo != {}
        invariant todo <= edges.Keys
        invariant n + Sum(todo, OutDegree(State())) == EdgeCount(State())
        decreases todo
      {
        var s :| s in todo;
        SumTake(todo, OutDegree(State()), s);
        n := n + |edges[s]|;
        todo := todo - {s};
      }
    }
  }

  /** The tables after the edges to id of these sources are gone. */
  ghost predicate DroppedFor(nodes: map<LineageId, Entry>, edges: map<LineageId, seq<Edge>>,
                             id: LineageId, g: Graph, done: set<LineageId>) {
    && edges.Keys == g.edges.Keys - {id} && nodes.Keys == g.nodes.Keys - {id}
    && (forall s <- edges.Keys :: edges[s] == if s in done then Without(g.edges[s], id) else g.edges[s])
    && (forall x <- nodes.Keys ::
          nodes[x] == if x in done then Synced(g.nodes[x], Without(Out(g, x), id)) else g.nodes[x])
  }

  lemma FadedTables(nodes: map<LineageId, Entry>, edges: map<LineageId, seq<Edge>>, id: LineageId, g: Graph)
    requires id in g.nodes && DroppedFor(nodes, edges, id, g, set x | x in Sources(g, id))
    ensures FadeListed(g, id)
         == Graph(nodes, Unindexed(g.index, g.nodes[id].node.signature, id), edges,
                  WithoutBackReferences(g, id) - {id}, g.clock)
  {
    hide Without, WithoutId, CountTo, Sources, WithoutBackReferences, Unindexed;
  }

  lemma NothingFaded(g: Graph, id: LineageId)
    ensures id !in g.nodes ==> FadeListed(g, id) == g
  {
  }

  lemma RefusedUnchanged(g: Graph, from: LineageId, e: Edge)
    ensures AddEdgeError(g, from, e.target).Err? ==> AddEdge(g, from, e) == g
  {
  }

  lemma MutateAdjusted(g: Graph, id: LineageId, observe: nat -> nat, signatureOf: nat -> nat)
    ensures id !in g.nodes ==> Mutate(g, id, Adjusting(observe), signatureOf) == g
  {
  }

  lemma EmptyWithout()
    ensures forall x :: Without([], x) == [] && WithoutId([], x) == []
  {
  }

  lemma {:induction false} WithoutTwice(es: seq<Edge>, x: LineageId)
    ensures Without(Without(es, x), x) == Without(es, x)
  {
    CountWithout(es, x, x);
    CountWithout(Without(es, x), x, x);
  }

  lemma {:induction false} WithoutIdTwice(ids: seq<LineageId>, x: LineageId)
    ensures WithoutId(WithoutId(ids, x), x) == WithoutId(ids, x)
  {
    IdsWithout(ids, x, x);
    assert x !in WithoutId(ids, x);
    IdsWithout(WithoutId(ids, x), x, x);
  }

  lemma CountedMore(es: seq<Edge>, i: nat)
    requires i < |es|
    ensures forall t :: CountTo(es[..i + 1], t) == CountTo(es[..i], t) + (if es[i].target == t then 1 else 0)
  {
    assert es[..i + 1] == es[..i] + [es[i]];
    forall t ensures CountTo(es[..i + 1], t) == CountTo(es[..i], t) + (if es[i].target == t then 1 else 0) {
      CountAppend(es[..i], es[i], t);
    }
  }

  lemma CountedNone()
    ensures forall t :: CountTo([], t) == 0
  {
  }

  /** A node with no edge to t is not among t's sources. */
  lemma NotListed(g: Graph, s: LineageId, t: LineageId)
    requires ReverseExact(g) && CountTo(Out(g, s), t) == 0
    ensures WithoutId(In(g, t), s) == In(g, t)
  {
    assert CountTo(Out(g, s), t) == multiset(In(g, t))[s];
    IdsWithout(In(g, t), s, s);
  }

  /** A node not listed as a source has no edge to lose. */
  lemma NothingToLose(g: Graph, id: LineageId, s: LineageId)
    requires ReverseExact(g) && s != id && s !in Sources(g, id)
    ensures Without(Out(g, s), id) == Out(g, s)
  {
    IdsWithout(In(g, id), id, s);
    assert CountTo(Out(g, s), id) == multiset(In(g, id))[s];
    CountWithout(Out(g, s), id, id);
  }

  lemma SourcesAreAll(g: Graph, id: LineageId)
    requires Coherent(g)
    ensures (map s | s in g.edges && s != id :: if s in Sources(g, id) then Without(g.edges[s], id) else g.edges[s])
         == map s | s in g.edges && s != id :: Without(g.edges[s], id)
    ensures (map x | x in g.nodes && x != id ::
               if x in Sources(g, id) then Synced(g.nodes[x], Without(Out(g, x), id)) else g.nodes[x])
         == map x | x in g.nodes && x != id :: Synced(g.nodes[x], Without(Out(g, x), id))
  {
    hide CountTo, Without, WithoutId, ReverseExact, NoDangling, IndexSound, Sources;
    forall x | x != id && x !in Sources(g, id)
      ensures Without(Out(g, x), id) == Out(g, x)
    {
      NothingToLose(g, id, x);
    }
  }

  lemma BackReferencesAreAll(g: Graph, id: LineageId)
    requires Coherent(g)
    ensures WithoutBackReferences(g, id) - {id} == map t | t in g.reverse && t != id :: WithoutId(g.reverse[t], id)
  {
    hide CountTo, WithoutId, ReverseExact, NoDangling, ContextExact, IndexSound;
    forall t | t in g.reverse && CountTo(Out(g, id), t) == 0
      ensures WithoutId(g.reverse[t], id) == g.reverse[t]
    {
      NotListed(g, id, t);
    }
  }

  /** In a coherent fabric the listed sources are all there are, so looking up no others loses no trace of the node. */
  lemma FadeListedIsFade(g: Graph, id: LineageId)
    requires Coherent(g)
    ensures FadeListed(g, id) == Fade(g, id)
  {
    hide CountTo, Without, WithoutId, Coherent, Sources, WithoutBackReferences, Unindexed;
    SourcesAreAll(g, id);
    BackReferencesAreAll(g, id);
    if id in g.nodes { FadeTables(g, id); }
  }

  lemma FadeTables(g: Graph, id: LineageId)
    requires id in g.nodes
    ensures Fade(g, id) == Graph(
              map x | x in g.nodes && x != id :: Synced(g.nodes[x], Without(Out(g, x), id)),
              Unindexed(g.index, g.nodes[id].node.signature, id),
              map s | s in g.edges && s != id :: Without(g.edges[s], id),
              map t | t in g.reverse && t != id :: WithoutId(g.reverse[t], id),
              g.clock)
  {
  }
}
