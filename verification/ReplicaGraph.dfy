/**
 What a receive does to the fabric a replica embeds. A version that replaces the stored one is faded and added
 again, so the node's edges go in both directions, and the context it brings is only a cache.
 */
module ReplicaGraph {
  import opened Common
  import opened VectorClocks
  import opened Conflicts
  import opened Replicas
  import opened FabricGraph
  import opened FabricStore

  /** The two calls a receive makes on the fabric: adding a node, with or without fading the stored one first. */
  datatype Effect = Ignore | Add(node: IntentNode) | Replace(node: IntentNode)

  function EdgesOf(es: seq<ContextEdge>): seq<Edge> {
    seq(|es|, i requires 0 <= i < |es| => Edge(es[i].target, es[i].weight, Kind(es[i].kind)))
  }

  /** How the replica's nodes look as nodes of the fabric: the same id and context, and any signature. */
  ghost predicate Renders(view: Node -> IntentNode) {
    forall n :: view(n).id == n.id && view(n).context == EdgesOf(n.context)
  }

  ghost function EffectOf(r: Replica, t: Transfer, view: Node -> IntentNode): Effect {
    match OutcomeOf(r, t)
    case AlreadyHave => Ignore
    case Accepted => Add(view(t.node))
    case Updated => Replace(view(t.node))
    case Conflicted =>
      match Resolve(r.fabric[t.node.id], t.node)
      case Resolved(winner, _) => Replace(view(winner))
      case Branched(_, b) => Add(view(b))
  }

  function Applied(g: Graph, e: Effect): Graph {
    match e
    case Ignore => g
    case Add(n) => Create(g, n)
    case Replace(n) => Create(FadeListed(g, n.id), n)
  }

  /** The fabric has the nodes the replica counts as stored. */
  ghost predicate Stores(g: Graph, r: Replica) {
    g.nodes.Keys == r.fabric.Keys && WellKeyed(r)
  }

  lemma EffectIds(r: Replica, t: Transfer, view: Node -> IntentNode)
    requires WellKeyed(r) && Renders(view)
    ensures EffectOf(r, t, view) == Ignore <==> OutcomeOf(r, t) == AlreadyHave
    ensures EffectOf(r, t, view) != Ignore ==> EffectOf(r, t, view).node.id == t.node.id
  {
    hide Compare, MergeEdges, MergeConfidence, LocalStays, RemoteTaken;
    if t.node.id in r.fabric {
      SettlementIs(r.fabric[t.node.id], t.node);
    }
  }

  lemma AppliedNodes(g: Graph, e: Effect)
    requires Coherent(g)
    ensures Applied(g, e).nodes.Keys == if e.Ignore? then g.nodes.Keys else g.nodes.Keys + {e.node.id}
  {
    hide Coherent, Without, WithoutId, Unindexed, Indexed;
    if e.Replace? { FadeListedIsFade(g, e.node.id); }
  }

  lemma ReceivedNodes(r: Replica, me: ReplicaId, t: Transfer)
    requires WellKeyed(r)
    ensures WellKeyed(Receive(r, me, t))
    ensures Receive(r, me, t).fabric.Keys
         == if OutcomeOf(r, t) == AlreadyHave then r.fabric.Keys else r.fabric.Keys + {t.node.id}
  {
    hide Compare, Merge, Tick, MergeEdges, MergeConfidence, LocalStays, RemoteTaken;
    if t.node.id in r.fabric {
      SettlementIs(r.fabric[t.node.id], t.node);
    }
  }

  /** The fabric and the replica's map keep the same nodes. */
  lemma StoresStill(g: Graph, r: Replica, me: ReplicaId, t: Transfer, view: Node -> IntentNode)
    requires Coherent(g) && Stores(g, r) && Renders(view)
    ensures Stores(Applied(g, EffectOf(r, t, view)), Receive(r, me, t))
  {
    EffectIds(r, t, view);
    AppliedNodes(g, EffectOf(r, t, view));
    ReceivedNodes(r, me, t);
    hide Applied, Receive, Coherent, Renders, EffectOf, OutcomeOf, WellKeyed;
  }

  // ----- when the tables stay in agreement -----

  /** After a fade the node is new to the fabric: it fits if and only if it brings no context. */
  lemma ReplaceKeeps(g: Graph, n: IntentNode)
    requires Coherent(g) && n.id in g.nodes
    ensures Coherent(Applied(g, Replace(n))) <==> n.context == []
  {
    hide Coherent;
    FadeListedIsFade(g, n.id);
    FadeKeeps(g, n.id);
    FadeLists(g, n.id);
    CreateKeeps(Fade(g, n.id), n);
  }

  /**
   A receive keeps the tables in agreement if and only if it ignores the version, or the version it stores
   brings no context; a branch must bring the context and the indexed signature the node already has.
   */
  lemma ReceiveKeepsIff(g: Graph, r: Replica, t: Transfer, view: Node -> IntentNode)
    requires Coherent(g) && Stores(g, r) && Renders(view)
    ensures Coherent(Applied(g, EffectOf(r, t, view))) <==>
              match OutcomeOf(r, t)
              case AlreadyHave => true
              case Accepted => t.node.context == []
              case Updated => t.node.context == []
              case Conflicted =>
                if Branching(r.fabric[t.node.id], t.node) then FabricGraph.Fits(g, view(t.node))
                else Settlement(r.fabric[t.node.id], t.node).context == []
  {
    hide Coherent, Compare, MergeEdges, MergeConfidence, LocalStays, RemoteTaken;
    EffectIds(r, t, view);
    match EffectOf(r, t, view)
    case Ignore =>
    case Add(n) =>
      CreateKeeps(g, n);
      if n.id !in g.nodes { NothingThere(g, n.id); }
    case Replace(n) =>
      ReplaceKeeps(g, n);
  }

  /** The first node an empty replica receives breaks them, if it brings a context. */
  lemma FirstReceiveCost(t: Transfer, view: Node -> IntentNode)
    requires Renders(view) && t.node.context != []
    ensures OutcomeOf(NEW_REPLICA, t) == Accepted && !Coherent(Applied(EMPTY, EffectOf(NEW_REPLICA, t, view)))
  {
    EmptyCoherent();
    hide Coherent, Compare;
    ReceiveKeepsIff(EMPTY, NEW_REPLICA, t, view);
  }

  lemma NothingThere(g: Graph, id: LineageId)
    requires Coherent(g) && id !in g.nodes
    ensures Out(g, id) == []
  {
  }

  // ----- what becomes of the edges -----

  /** A replaced node has no edge left, in or out, and the others keep theirs. */
  lemma ReplaceDropsEdges(g: Graph, n: IntentNode)
    requires Coherent(g) && n.id in g.nodes
    ensures var g' := Applied(g, Replace(n));
            && (forall s :: Out(g', s) == if s == n.id then [] else Without(Out(g, s), n.id))
            && (forall s :: CountTo(Out(g', s), n.id) == 0)
            && In(g', n.id) == [] && g'.nodes[n.id].node == n
  {
    hide Coherent;
    FadeListedIsFade(g, n.id);
    FadeLists(g, n.id);
    forall s ensures CountTo(Out(Applied(g, Replace(n)), s), n.id) == 0 {
      CountWithout(Out(g, s), n.id, n.id);
    }
  }

  /** The next edge added from a replaced node leaves that edge as its whole context. */
  lemma NextEdgeErasesContext(g: Graph, n: IntentNode, e: Edge)
    requires Coherent(g) && n.id in g.nodes && e.target in g.nodes && e.target != n.id
    ensures AddEdge(Applied(g, Replace(n)), n.id, e).nodes[n.id].node.context == [e]
  {
    hide Coherent;
    FadeListedIsFade(g, n.id);
    FadeLists(g, n.id);
  }

  /**
   A structural merge joins the contexts of both versions, but only in the cache: the edge tables have no edge
   of the node afterwards, and disagree with it as soon as either version had a context.
   */
  lemma MergeStaysInTheCache(g: Graph, r: Replica, t: Transfer, view: Node -> IntentNode)
    requires Coherent(g) && Stores(g, r) && Renders(view) && OutcomeOf(r, t) == Conflicted
    requires SelectStrategy(r.fabric[t.node.id], t.node) == CrdtMerge
    ensures var local, g' := r.fabric[t.node.id], Applied(g, EffectOf(r, t, view));
            && t.node.id in g'.nodes && Out(g', t.node.id) == [] && In(g', t.node.id) == []
            && (set e | e in g'.nodes[t.node.id].node.context :: e.target)
                 == Targets(local.context) + Targets(t.node.context)
            && (Coherent(g') <==> local.context == [] && t.node.context == [])
  {
    hide Coherent, Compare, MergeConfidence, LocalStays, RemoteTaken;
    var local := r.fabric[t.node.id];
    EffectIds(r, t, view);
    var merged := Settlement(local, t.node);
    assert EffectOf(r, t, view) == Replace(view(merged));
    assert merged.context == MergeEdges(local.context, t.node.context);
    MergeEdgesUnion(local.context, t.node.context);
    ReplaceDropsEdges(g, view(merged));
    ReplaceKeeps(g, view(merged));
    SameTargets(merged.context);
    hide MergeEdges;
    NoTargets(local.context);
    NoTargets(t.node.context);
    NoTargets(merged.context);
  }

  lemma SameTargets(es: seq<ContextEdge>)
    ensures (set e | e in EdgesOf(es) :: e.target) == Targets(es)
  {
    forall x ensures x in (set e | e in EdgesOf(es) :: e.target) <==> x in Targets(es) {
      if x in Targets(es) {
        var i :| 0 <= i < |es| && es[i].target == x;
        assert EdgesOf(es)[i] in EdgesOf(es);
      }
    }
  }

  lemma NoTargets(es: seq<ContextEdge>)
    ensures Targets(es) == {} <==> es == []
  {
    if es != [] { assert es[0].target in Targets(es); }
  }
}
