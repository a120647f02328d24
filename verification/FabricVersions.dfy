/**
 What operations do to the nodes themselves: signatures that tell what a node means, versions and Lamport stamps
 that tell how often and when it changed, and the index that leads from a signature to a node.
 */
module FabricVersions {
  import opened Common
  import opened FabricGraph
  import opened Degrees
  import opened FabricRuns

  // ----- one operation -----

  /**
   What a mutation leaves of the node: what the closure made of it, with the signature of its meaning, a version
   one later than the closure left it at, and the next Lamport stamp. Every other node and every edge stays.
   */
  lemma MutateIs(g: Graph, id: LineageId, f: IntentNode -> IntentNode, signatureOf: nat -> nat)
    requires id in g.nodes
    ensures var g', m := Mutate(g, id, f, signatureOf), f(g.nodes[id].node);
            && g'.nodes.Keys == g.nodes.Keys && (forall x <- g.nodes.Keys :: x != id ==> g'.nodes[x] == g.nodes[x])
            && g'.edges == g.edges && g'.reverse == g.reverse
            && g'.clock == g'.nodes[id].lamport == g.clock + 1
            && var n := g'.nodes[id].node;
               && n.signature == signatureOf(n.meaning) && n.version == m.version + 1
               && n.id == m.id && n.meaning == m.meaning && n.confidence == m.confidence && n.context == m.context
  {
  }

  /**
   And of the index: when the signature changes, the new one is indexed, for this node unless another had it, and
   the old one no longer leads here. When it stays, so does the index.
   */
  lemma MutateIndex(g: Graph, id: LineageId, f: IntentNode -> IntentNode, signatureOf: nat -> nat)
    requires id in g.nodes
    ensures var was, index := g.nodes[id].node.signature, Mutate(g, id, f, signatureOf).index;
            var now := signatureOf(f(g.nodes[id].node).meaning);
            && (was == now ==> index == g.index)
            && (was != now ==>
                 && now in index && index[now] == (if now in g.index then g.index[now] else id)
                 && (was in index ==> index[was] != id))
            && forall s :: s != was && s != now ==>
                 (s in index <==> s in g.index) && (s in index ==> index[s] == g.index[s])
  {
  }

  /** Observing confidence changes the node's confidence, version and stamp, and nothing else. */
  lemma AdjustIs(g: Graph, id: LineageId, observe: nat -> nat, signatureOf: nat -> nat)
    requires id in g.nodes && g.nodes[id].node.signature == signatureOf(g.nodes[id].node.meaning)
    ensures var (r, g') := Apply(g, id, AdjustConfidence(observe), signatureOf);
            var n := g.nodes[id].node;
            && r == Ok(true) && g'.index == g.index && g'.edges == g.edges && g'.reverse == g.reverse
            && g'.nodes == g.nodes[id := Entry(n.(confidence := observe(n.confidence), version := n.version + 1),
                                                g.clock + 1)]
  {
  }

  /** An action on a node that is not there is refused, but for signals, which do nothing anywhere. */
  lemma ActionRefused(g: Graph, id: LineageId, a: NodeAction, signatureOf: nat -> nat)
    ensures a == NoAction || a == Signal ==> Apply(g, id, a, signatureOf) == (Ok(false), g)
    ensures a != NoAction && a != Signal && id !in g.nodes ==>
              Apply(g, id, a, signatureOf) == (Err(NodeNotFound(id)), g)
  {
  }

  /** An edge is refused to itself, then from a missing source, then to a missing target. */
  lemma AddEdgeRefused(g: Graph, from: LineageId, to: LineageId)
    ensures AddEdgeError(g, from, to) == Err(SelfEdge(from)) <==> from == to
    ensures from != to ==> (AddEdgeError(g, from, to) == Err(NodeNotFound(from)) <==> from !in g.nodes)
    ensures from != to ==>
              (AddEdgeError(g, from, to) == Err(NodeNotFound(to)) <==> from in g.nodes && to !in g.nodes)
  {
  }

  /** An edge that is not refused, by itself or as an action, is the last of its source's list, and no other changes. */
  lemma EdgeAdded(g: Graph, from: LineageId, e: Edge, signatureOf: nat -> nat)
    requires from != e.target && from in g.nodes && e.target in g.nodes
    ensures Apply(g, from, CreateEdge(e.target, e.weight, e.kind), signatureOf) == (Ok(true), AddEdge(g, from, e))
    ensures var g' := AddEdge(g, from, e);
            && (forall s :: Out(g', s) == if s == from then Out(g, s) + [e] else Out(g, s))
            && (forall t :: In(g', t) == if t == e.target then In(g, t) + [from] else In(g, t))
            && g'.nodes.Keys == g.nodes.Keys && g'.clock == g.clock && g'.index == g.index
  {
  }

  /** A new node is stamped with the next moment; a signature goes on leading to the node that had it first. */
  lemma CreateIs(g: Graph, n: IntentNode)
    ensures var g' := Create(g, n);
            && g'.nodes.Keys == g.nodes.Keys + {n.id} && g'.nodes[n.id].node == n
            && g'.clock == g'.nodes[n.id].lamport == g.clock + 1
            && g'.edges == g.edges && g'.reverse == g.reverse
            && g'.index.Keys == g.index.Keys + {n.signature}
            && g'.index[n.signature] == (if n.signature in g.index then g.index[n.signature] else n.id)
            && forall s <- g.index.Keys :: g'.index[s] == g.index[s]
  {
  }

  // ----- what every operation does to every node -----

  /** The operation mutates this node. */
  predicate Mutates(op: Op, id: LineageId) {
    (op.MutateOp? && op.id == id) || (op.ActOp? && op.id == id && op.a.AdjustConfidence?)
  }

  /** Writing a node is what moves the clock. */
  predicate Writes(g: Graph, op: Op) {
    op.CreateOp? || ((op.MutateOp? || (op.ActOp? && op.a.AdjustConfidence?)) && op.id in g.nodes)
  }

  function ClosureOf(op: Op): IntentNode -> IntentNode
    requires op.MutateOp? || (op.ActOp? && op.a.AdjustConfidence?)
  {
    if op.MutateOp? then op.f else Adjusting(op.a.observe)
  }

  /** The two differ in their cached contexts at most. */
  predicate SameButContext(n: Entry, m: Entry) {
    m == n.(node := n.node.(context := m.node.context))
  }

  /** The nodes, and all but their contexts, stay. */
  ghost predicate NodesStand(g: Graph, g': Graph) {
    g'.nodes.Keys == g.nodes.Keys && forall id <- g.nodes.Keys :: SameButContext(g.nodes[id], g'.nodes[id])
  }

  lemma AddStands(g: Graph, from: LineageId, e: Edge)
    ensures NodesStand(g, AddEdge(g, from, e)) && AddEdge(g, from, e).clock == g.clock
  {
    hide AddEdgeError;
  }

  lemma RemoveStands(g: Graph, from: LineageId, to: LineageId)
    ensures NodesStand(g, RemoveBetween(g, from, to)) && RemoveBetween(g, from, to).clock == g.clock
  {
    hide CountTo, Without, WithoutId;
  }

  lemma ModifyStands(g: Graph, s: LineageId, t: LineageId, weight: real)
    ensures NodesStand(g, Modify(g, s, t, weight).1) && Modify(g, s, t, weight).1.clock == g.clock
  {
    hide RemoveBetween, AddEdge, AddEdgeError, FirstTo;
    RemoveStands(g, s, t);
    var found := FirstTo(Out(g, s), t);
    if found != [] {
      AddStands(RemoveBetween(g, s, t), s, Edge(t, weight, found[0].kind));
    }
  }

  lemma FadeStands(g: Graph, id: LineageId)
    ensures Fade(g, id).nodes.Keys == g.nodes.Keys - {id} && Fade(g, id).clock == g.clock
    ensures forall x <- Fade(g, id).nodes.Keys :: SameButContext(g.nodes[x], Fade(g, id).nodes[x])
  {
    hide Without, WithoutId, Unindexed;
  }

  ghost predicate Survives(g: Graph, op: Op, id: LineageId) {
    id in g.nodes && (op.FadeOp? ==> op.id != id)
  }

  /** The node of this id after an operation that does not create it. */
  ghost predicate NodeAfter(g: Graph, op: Op, signatureOf: nat -> nat, id: LineageId, n: Entry)
    requires id in g.nodes
  {
    if Mutates(op, id)
    then n == Entry(Mutated(g.nodes[id].node, ClosureOf(op), signatureOf), g.clock + 1)
    else SameButContext(g.nodes[id], n)
  }

  lemma NodesStep(g: Graph, op: Op, signatureOf: nat -> nat)
    ensures var g' := Step(g, op, signatureOf);
            && g'.clock == g.clock + (if Writes(g, op) then 1 else 0)
            && (forall id :: id in g'.nodes <==> Survives(g, op, id) || (op.CreateOp? && op.n.id == id))
            && (forall id <- g'.nodes.Keys ::
                  if op.CreateOp? && op.n.id == id then g'.nodes[id] == Entry(op.n, g.clock + 1)
                  else id in g.nodes && NodeAfter(g, op, signatureOf, id, g'.nodes[id]))
  {
    hide Fade, AddEdge, RemoveBetween, Modify, AddEdgeError, Indexed, Reindexed;
    match op
    case AddOp(from, e) => AddStands(g, from, e);
    case RemoveOp(from, to) => RemoveStands(g, from, to);
    case FadeOp(id) => FadeStands(g, id);
    case ActOp(id, a) => ActStep(g, id, a, signatureOf);
    case _ =>
  }

  lemma ActStep(g: Graph, id: LineageId, a: NodeAction, signatureOf: nat -> nat)
    ensures var g' := Apply(g, id, a, signatureOf).1;
            if a.AdjustConfidence? then g' == Mutate(g, id, Adjusting(a.observe), signatureOf)
            else NodesStand(g, g') && g'.clock == g.clock
  {
    hide AddEdge, Modify, Mutate, AddEdgeError;
    match a
    case CreateEdge(t, w, k) => AddStands(g, id, Edge(t, w, k));
    case ModifyEdge(t, w) => ModifyStands(g, id, t, w);
    case AdjustConfidence(_) => MutateMissing(g, id, Adjusting(a.observe), signatureOf);
    case _ =>
  }

  lemma MutateMissing(g: Graph, id: LineageId, f: IntentNode -> IntentNode, signatureOf: nat -> nat)
    ensures id !in g.nodes ==> Mutate(g, id, f, signatureOf) == g
  {
  }

  // ----- signatures over runs -----

  ghost predicate SignaturesTrue(g: Graph, signatureOf: nat -> nat) {
    forall id <- g.nodes.Keys :: g.nodes[id].node.signature == signatureOf(g.nodes[id].node.meaning)
  }

  predicate CreatesTrue(op: Op, signatureOf: nat -> nat) {
    op.CreateOp? ==> op.n.signature == signatureOf(op.n.meaning)
  }

  /** An operation leaves every signature true if and only if it does not create a node with a false one. */
  lemma SignaturesStep(g: Graph, op: Op, signatureOf: nat -> nat)
    requires SignaturesTrue(g, signatureOf)
    ensures SignaturesTrue(Step(g, op, signatureOf), signatureOf) <==> CreatesTrue(op, signatureOf)
  {
    hide Step;
    NodesStep(g, op, signatureOf);
    if op.CreateOp? {
      assert op.n.id in Step(g, op, signatureOf).nodes;
    }
  }

  ghost predicate AlwaysTrue(g: Graph, ops: seq<Op>, signatureOf: nat -> nat)
    decreases |ops|
  {
    SignaturesTrue(g, signatureOf) && (ops != [] ==> AlwaysTrue(Step(g, ops[0], signatureOf), ops[1..], signatureOf))
  }

  /** Over every run from an empty fabric signatures stay true exactly when every node is created with a true one. */
  lemma {:induction false} RunSignatures(g: Graph, ops: seq<Op>, signatureOf: nat -> nat)
    requires SignaturesTrue(g, signatureOf)
    ensures AlwaysTrue(g, ops, signatureOf) <==> forall op <- ops :: CreatesTrue(op, signatureOf)
    decreases |ops|
  {
    hide Step, SignaturesTrue, CreatesTrue;
    if ops != [] {
      var rest := ops[1..];
      assert ops == [ops[0]] + rest;
      SignaturesStep(g, ops[0], signatureOf);
      if SignaturesTrue(Step(g, ops[0], signatureOf), signatureOf) {
        RunSignatures(Step(g, ops[0], signatureOf), rest, signatureOf);
      } else {
        assert !AlwaysTrue(Step(g, ops[0], signatureOf), rest, signatureOf);
      }
    }
  }

  // ----- versions over runs -----

  /** The operation neither creates nor fades the node, and its closure leaves versions alone. */
  ghost predicate Leaves(op: Op, id: LineageId) {
    && (op.CreateOp? ==> op.n.id != id) && (op.FadeOp? ==> op.id != id)
    && (op.MutateOp? ==> forall n :: op.f(n).version == n.version)
  }

  lemma VersionStep(g: Graph, op: Op, signatureOf: nat -> nat, id: LineageId)
    requires id in g.nodes && Leaves(op, id)
    ensures id in Step(g, op, signatureOf).nodes
    ensures Step(g, op, signatureOf).nodes[id].node.version
              == g.nodes[id].node.version + if Mutates(op, id) then 1 else 0
  {
    hide Step;
    NodesStep(g, op, signatureOf);
  }

  function Mutations(ops: seq<Op>, id: LineageId): nat {
    if ops == [] then 0 else Mutations(ops[1..], id) + if Mutates(ops[0], id) then 1 else 0
  }

  /** Over every run that neither creates nor fades a node, its version counts its mutations. */
  lemma {:induction false} VersionCounts(g: Graph, ops: seq<Op>, signatureOf: nat -> nat, id: LineageId)
    requires id in g.nodes && forall op <- ops :: Leaves(op, id)
    ensures id in Run(g, ops, signatureOf).nodes
    ensures Run(g, ops, signatureOf).nodes[id].node.version == g.nodes[id].node.version + Mutations(ops, id)
    decreases |ops|
  {
    hide Step, Leaves, Mutates;
    if ops != [] {
      assert ops[0] in ops;
      VersionStep(g, ops[0], signatureOf, id);
      VersionCounts(Step(g, ops[0], signatureOf), ops[1..], signatureOf, id);
    }
  }

  // ----- Lamport stamps over runs -----

  /** Every stamp is a moment that has been, and no two nodes have the same. */
  ghost predicate Stamped(g: Graph) {
    && (forall id <- g.nodes.Keys :: 1 <= g.nodes[id].lamport <= g.clock)
    && (forall x, y :: x in g.nodes && y in g.nodes && x != y ==> g.nodes[x].lamport != g.nodes[y].lamport)
  }

  /** A write moves the clock by one and stamps its node with it; nothing else changes a stamp. */
  lemma StampStep(g: Graph, op: Op, signatureOf: nat -> nat)
    requires Stamped(g)
    ensures var g' := Step(g, op, signatureOf);
            && Stamped(g') && g'.clock == g.clock + (if Writes(g, op) then 1 else 0)
            && (forall id :: id in g.nodes && id in g'.nodes ==>
                  g'.nodes[id].lamport == g.nodes[id].lamport
                  || (Writes(g, op) && g'.nodes[id].lamport == g'.clock))
  {
    NodesStep(g, op, signatureOf);
    hide Step;
    forall id | id in Step(g, op, signatureOf).nodes
      ensures if Stamps(op, id) then Step(g, op, signatureOf).nodes[id].lamport == g.clock + 1 && Writes(g, op)
              else id in g.nodes && Step(g, op, signatureOf).nodes[id].lamport == g.nodes[id].lamport
    {
      StampAfter(g, op, signatureOf, id);
    }
    hide NodeAfter, Writes;
  }

  /** The operation stamps this node, and this one only. */
  predicate Stamps(op: Op, id: LineageId) {
    (op.CreateOp? && op.n.id == id) || Mutates(op, id)
  }

  lemma StampAfter(g: Graph, op: Op, signatureOf: nat -> nat, id: LineageId)
    requires id in Step(g, op, signatureOf).nodes
    ensures var n := Step(g, op, signatureOf).nodes[id];
            if Stamps(op, id) then n.lamport == g.clock + 1 && Writes(g, op)
            else id in g.nodes && n.lamport == g.nodes[id].lamport
  {
    NodesStep(g, op, signatureOf);
    hide Step;
  }

  /** In every run from an empty fabric stamps are distinct, and of two nodes the one written last has the larger. */
  lemma {:induction false} RunStamped(g: Graph, ops: seq<Op>, signatureOf: nat -> nat)
    requires Stamped(g)
    ensures Stamped(Run(g, ops, signatureOf)) && g.clock <= Run(g, ops, signatureOf).clock
    decreases |ops|
  {
    hide Step, Stamped, Writes;
    if ops != [] {
      StampStep(g, ops[0], signatureOf);
      RunStamped(Step(g, ops[0], signatureOf), ops[1..], signatureOf);
    }
  }

  // ----- the index is not complete -----

  /** Every node's signature leads to some node. */
  ghost predicate IndexComplete(g: Graph) {
    forall id <- g.nodes.Keys :: g.nodes[id].node.signature in g.index
  }

  /** Another node has this one's signature. */
  ghost predicate Twin(g: Graph, id: LineageId)
    requires id in g.nodes
  {
    exists x :: x in g.nodes && x != id && g.nodes[x].node.signature == g.nodes[id].node.signature
  }

  /** Fading a node takes its signature from the index, so a node that shares it is no longer found. */
  lemma FadeCompleteIff(g: Graph, id: LineageId)
    requires Coherent(g) && IndexComplete(g) && id in g.nodes
    ensures IndexComplete(Fade(g, id)) <==> !Twin(g, id) || g.index[g.nodes[id].node.signature] != id
  {
    hide CountTo, Without, WithoutId, ReverseExact, NoDangling, ContextExact;
    var g', sig := Fade(g, id), g.nodes[id].node.signature;
    assert forall x :: x in g'.nodes <==> x in g.nodes && x != id;
    assert forall x <- g'.nodes.Keys :: g'.nodes[x].node.signature == g.nodes[x].node.signature;
    assert forall s :: s in g'.index <==> s in g.index && !(s == sig && g.index[s] == id);
    if x :| x in g.nodes && x != id && g.nodes[x].node.signature == sig {
      assert x in g'.nodes;
    }
  }

  /** The failing case: two nodes with one signature, and the first of them fades. */
  lemma TwinIsLost(a: LineageId, b: LineageId, meaning: nat, signatureOf: nat -> nat)
    requires a != b
    ensures var n, m := Plain(a, meaning, signatureOf), Plain(b, meaning, signatureOf);
            var g := Run(EMPTY, [CreateOp(n), CreateOp(m), FadeOp(a)], signatureOf);
            AllPermitted(EMPTY, [CreateOp(n), CreateOp(m), FadeOp(a)], signatureOf)
            && b in g.nodes && g.nodes[b].node.signature == signatureOf(meaning)
            && signatureOf(meaning) !in g.index
  {
    var n, m := Plain(a, meaning, signatureOf), Plain(b, meaning, signatureOf);
    var g1 := Create(EMPTY, n);
    var g2 := Create(g1, m);
    assert g2.index == map[signatureOf(meaning) := a];
    assert Fits(EMPTY, n) && Fits(g1, m);
    var g3 := Fade(g2, a);
    assert b in g3.nodes && g3.nodes[b].node.signature == signatureOf(meaning) && signatureOf(meaning) !in g3.index;
    assert Step(EMPTY, CreateOp(n), signatureOf) == g1 && Step(g1, CreateOp(m), signatureOf) == g2;
    assert Step(g2, FadeOp(a), signatureOf) == g3;
    hide Create, Fade, Step, Fits;
    assert [CreateOp(n), CreateOp(m), FadeOp(a)][1..] == [CreateOp(m), FadeOp(a)];
    assert [CreateOp(m), FadeOp(a)][1..] == [FadeOp(a)];
    assert [FadeOp(a)][1..] == [];
    assert Run(g3, [], signatureOf) == g3 && Run(g2, [FadeOp(a)], signatureOf) == g3;
    assert Run(g1, [CreateOp(m), FadeOp(a)], signatureOf) == g3;
    assert AllPermitted(g3, [], signatureOf) && AllPermitted(g2, [FadeOp(a)], signatureOf);
    assert AllPermitted(g1, [CreateOp(m), FadeOp(a)], signatureOf);
  }

  function Plain(id: LineageId, meaning: nat, signatureOf: nat -> nat): IntentNode {
    IntentNode(id, signatureOf(meaning), 0, meaning, 0, [])
  }
}
