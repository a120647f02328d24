/**
 The semantic fabric's graph: nodes with cached contexts, forward edge lists, a reverse index and a
 signature index. The functions say what each operation does to the whole state; `Coherent` is the
 agreement between the four tables, and the lemmas show every operation keeps it.
 */
module FabricGraph {
  import opened Common

  /** A relationship kind; `Custom` kinds are further numbers. */
  datatype Kind = Kind(code: nat)

  datatype Edge = Edge(target: LineageId, weight: real, kind: Kind)

  /** `meaning` is what the signature is computed from: want, constraints and resolution. */
  datatype IntentNode = IntentNode(
    id: LineageId,
    signature: nat,
    version: nat,
    meaning: nat,
    confidence: nat,
    context: seq<Edge>)

  datatype Entry = Entry(node: IntentNode, lamport: nat)

  datatype Graph = Graph(
    nodes: map<LineageId, Entry>,
    index: map<nat, LineageId>,
    edges: map<LineageId, seq<Edge>>,
    reverse: map<LineageId, seq<LineageId>>,
    clock: nat)

  datatype FabricError = NodeNotFound(id: LineageId) | SelfEdge(id: LineageId)

  datatype Result<+T> = Ok(value: T) | Err(error: FabricError)

  const EMPTY := Graph(map[], map[], map[], map[], 0)

  function Out(g: Graph, s: LineageId): seq<Edge> {
    if s in g.edges then g.edges[s] else []
  }

  function In(g: Graph, t: LineageId): seq<LineageId> {
    if t in g.reverse then g.reverse[t] else []
  }

  function CountTo(es: seq<Edge>, t: LineageId): nat {
    if es == [] then 0 else (if es[0].target == t then 1 else 0) + CountTo(es[1..], t)
  }

  /** `retain(|e| e.target != t)` */
  function Without(es: seq<Edge>, t: LineageId): seq<Edge> {
    if es == [] then []
    else (if es[0].target == t then [] else [es[0]]) + Without(es[1..], t)
  }

  /** `retain(|s| s != x)` */
  function WithoutId(ids: seq<LineageId>, x: LineageId): seq<LineageId> {
    if ids == [] then []
    else (if ids[0] == x then [] else [ids[0]]) + WithoutId(ids[1..], x)
  }

  // ----- the invariant -----

  /** Every edge is listed in the reverse index as many times as it is in the forward list, and vice versa. */
  ghost predicate ReverseExact(g: Graph) {
    forall s, t :: CountTo(Out(g, s), t) == multiset(In(g, t))[s]
  }

  ghost predicate NoDangling(g: Graph) {
    forall s :: Out(g, s) != [] ==> s in g.nodes && forall e <- Out(g, s) :: e.target in g.nodes
  }

  /** Every node sits under its own id and caches exactly its outgoing edges. */
  ghost predicate ContextExact(g: Graph) {
    forall id <- g.nodes.Keys :: g.nodes[id].node.id == id && g.nodes[id].node.context == Out(g, id)
  }

  ghost predicate IndexSound(g: Graph) {
    forall sig <- g.index.Keys :: g.index[sig] in g.nodes && g.nodes[g.index[sig]].node.signature == sig
  }

  ghost predicate Coherent(g: Graph) {
    ReverseExact(g) && NoDangling(g) && ContextExact(g) && IndexSound(g)
  }

  // ----- the operations -----

  /** First insertion wins on a signature collision. */
  function Indexed(index: map<nat, LineageId>, sig: nat, id: LineageId): map<nat, LineageId> {
    if sig in index then index else index[sig := id]
  }

  function Unindexed(index: map<nat, LineageId>, sig: nat, id: LineageId): map<nat, LineageId> {
    if sig in index && index[sig] == id then index - {sig} else index
  }

  function Create(g: Graph, n: IntentNode): Graph {
    g.(nodes := g.nodes[n.id := Entry(n, g.clock + 1)],
       index := Indexed(g.index, n.signature, n.id),
       clock := g.clock + 1)
  }

  function Synced(en: Entry, es: seq<Edge>): Entry {
    en.(node := en.node.(context := es))
  }

  function AddEdgeError(g: Graph, from: LineageId, to: LineageId): Result<()> {
    if from == to then Err(SelfEdge(from))
    else if from !in g.nodes then Err(NodeNotFound(from))
    else if to !in g.nodes then Err(NodeNotFound(to))
    else Ok(())
  }

  /** The three tables after one more edge. */
  function Linked(g: Graph, from: LineageId, e: Edge): Graph {
    g.(edges := g.edges[from := Out(g, from) + [e]],
       reverse := g.reverse[e.target := In(g, e.target) + [from]])
  }

  function SyncedAt(g: Graph, id: LineageId): Graph {
    if id in g.nodes then g.(nodes := g.nodes[id := Synced(g.nodes[id], Out(g, id))]) else g
  }

  function AddEdge(g: Graph, from: LineageId, e: Edge): Graph {
    if AddEdgeError(g, from, e.target).Ok? then SyncedAt(Linked(g, from, e), from) else g
  }

  function RemovedBetween(g: Graph, from: LineageId, to: LineageId): nat {
    CountTo(Out(g, from), to)
  }

  function RemoveBetween(g: Graph, from: LineageId, to: LineageId): Graph {
    if RemovedBetween(g, from, to) == 0 then g
    else
      SyncedAt(Unlinked(g, from, to), from)
  }

  function Unlinked(g: Graph, from: LineageId, to: LineageId): Graph {
    g.(edges := g.edges[from := Without(Out(g, from), to)],
       reverse := if to in g.reverse then g.reverse[to := WithoutId(g.reverse[to], from)] else g.reverse)
  }

  /** The reverse index without the back references of the node's outgoing edges. */
  function WithoutBackReferences(g: Graph, id: LineageId): map<LineageId, seq<LineageId>> {
    map t | t in g.reverse :: if CountTo(Out(g, id), t) > 0 then WithoutId(g.reverse[t], id) else g.reverse[t]
  }

  /** The nodes still listed as pointing to it. */
  function Sources(g: Graph, id: LineageId): seq<LineageId> {
    if id in g.reverse then WithoutBackReferences(g, id)[id] else []
  }

  /** What fading does from the tables as they are: it looks up the listed sources, and no others. */
  function FadeListed(g: Graph, id: LineageId): Graph {
    if id !in g.nodes then g
    else
      var sources := Sources(g, id);
      Graph(
        map x | x in g.nodes && x != id ::
          if x in sources then Synced(g.nodes[x], Without(Out(g, x), id)) else g.nodes[x],
        Unindexed(g.index, g.nodes[id].node.signature, id),
        map s | s in g.edges && s != id :: if s in sources then Without(g.edges[s], id) else g.edges[s],
        WithoutBackReferences(g, id) - {id},
        g.clock)
  }

  /** Every trace of the node disappears; what remains is untouched. */
  function Fade(g: Graph, id: LineageId): Graph {
    if id !in g.nodes then g
    else
      Graph(
        map x | x in g.nodes && x != id :: Synced(g.nodes[x], Without(Out(g, x), id)),
        Unindexed(g.index, g.nodes[id].node.signature, id),
        map s | s in g.edges && s != id :: Without(g.edges[s], id),
        map t | t in g.reverse && t != id :: WithoutId(g.reverse[t], id),
        g.clock)
  }

  /** The node after the caller's closure and the recomputed signature. */
  function Mutated(n: IntentNode, f: IntentNode -> IntentNode, signatureOf: nat -> nat): IntentNode {
    var m := f(n);
    m.(signature := signatureOf(m.meaning), version := m.version + 1)
  }

  function Reindexed(index: map<nat, LineageId>, was: nat, is_: nat, id: LineageId): map<nat, LineageId> {
    if was == is_ then index else Indexed(Unindexed(index, was, id), is_, id)
  }

  function Mutate(g: Graph, id: LineageId, f: IntentNode -> IntentNode, signatureOf: nat -> nat): Graph {
    if id !in g.nodes then g
    else
      var n := g.nodes[id].node;
      var m := Mutated(n, f, signatureOf);
      g.(nodes := g.nodes[id := Entry(m, g.clock + 1)],
         index := Reindexed(g.index, n.signature, m.signature, id),
         clock := g.clock + 1)
  }

  // ----- counting -----

  lemma {:induction false} CountAppend(es: seq<Edge>, e: Edge, t: LineageId)
    ensures CountTo(es + [e], t) == CountTo(es, t) + (if e.target == t then 1 else 0)
  {
    if es == [] {
      assert [e][1..] == [];
    } else {
      assert (es + [e])[1..] == es[1..] + [e];
      CountAppend(es[1..], e, t);
    }
  }

  lemma {:induction false} CountWithout(es: seq<Edge>, x: LineageId, t: LineageId)
    ensures CountTo(Without(es, x), t) == if t == x then 0 else CountTo(es, t)
    ensures CountTo(es, x) == 0 ==> Without(es, x) == es
    ensures |Without(es, x)| + CountTo(es, x) == |es|
    ensures forall e <- Without(es, x) :: e in es && e.target != x
  {
    if es != [] {
      CountWithout(es[1..], x, t);
      if es[0].target != x {
        assert Without(es, x)[1..] == Without(es[1..], x);
      } else {
        assert Without(es, x) == Without(es[1..], x);
      }
    }
  }

  lemma {:induction false} CountMember(es: seq<Edge>, t: LineageId)
    ensures CountTo(es, t) > 0 <==> exists e :: e in es && e.target == t
  {
    if es != [] {
      CountMember(es[1..], t);
      assert forall e :: e in es <==> e == es[0] || e in es[1..];
    }
  }

  lemma {:induction false} IdsWithout(ids: seq<LineageId>, x: LineageId, s: LineageId)
    ensures multiset(WithoutId(ids, x))[s] == if s == x then 0 else multiset(ids)[s]
    ensures x !in ids ==> WithoutId(ids, x) == ids
  {
    if ids != [] {
      assert ids == [ids[0]] + ids[1..];
      IdsWithout(ids[1..], x, s);
    }
  }

  // ----- every operation keeps the tables coherent -----

  lemma EmptyCoherent()
    ensures Coherent(EMPTY)
  {
  }

  /**
   The node comes with the context its id already has, none for a fresh id, and does not take the place of a
   node that is indexed under another signature.
   */
  predicate Fits(g: Graph, n: IntentNode) {
    && n.context == Out(g, n.id)
    && (n.id in g.nodes ==>
          var was := g.nodes[n.id].node.signature;
          was in g.index && g.index[was] == n.id ==> n.signature == was)
  }

  /** A fresh node without context always fits; any other creation keeps the tables in agreement just when it fits. */
  lemma CreateKeeps(g: Graph, n: IntentNode)
    requires Coherent(g)
    ensures Coherent(Create(g, n)) <==> Fits(g, n)
    ensures n.id !in g.nodes && n.context == [] ==> Fits(g, n)
  {
    hide CountTo, ReverseExact;
    var g' := Create(g, n);
    SameReverse(g, g');
    assert forall s :: Out(g', s) == Out(g, s);
    assert g'.nodes[n.id].node == n;
    if n.id in g.nodes {
      var was := g.nodes[n.id].node.signature;
      if was in g.index && g.index[was] == n.id { assert g'.index[was] == n.id; }
    } else {
      assert Out(g, n.id) == [];
    }
  }

  lemma IdsAppend(ids: seq<LineageId>, x: LineageId, s: LineageId)
    ensures multiset(ids + [x])[s] == multiset(ids)[s] + (if s == x then 1 else 0)
  {
  }

  lemma LinkedReverse(g: Graph, from: LineageId, e: Edge)
    requires ReverseExact(g)
    ensures ReverseExact(Linked(g, from, e))
  {
    hide CountTo;
    var g' := Linked(g, from, e);
    forall s, t
      ensures CountTo(Out(g', s), t) == multiset(In(g', t))[s]
    {
      assert CountTo(Out(g, s), t) == multiset(In(g, t))[s];
      if s == from {
        CountAppend(Out(g, from), e, t);
      }
      if t == e.target {
        IdsAppend(In(g, t), from, s);
      }
    }
  }

  lemma AddEdgeKeeps(g: Graph, from: LineageId, e: Edge)
    requires Coherent(g)
    ensures Coherent(AddEdge(g, from, e))
  {
    hide CountTo, ReverseExact, NoDangling, ContextExact, IndexSound;
    if AddEdgeError(g, from, e.target).Ok? {
      LinkedReverse(g, from, e);
      SameReverse(Linked(g, from, e), AddEdge(g, from, e));
      AddEdgeRest(g, from, e);
    }
  }

  lemma AddEdgeRest(g: Graph, from: LineageId, e: Edge)
    requires NoDangling(g) && ContextExact(g) && IndexSound(g) && AddEdgeError(g, from, e.target).Ok?
    ensures NoDangling(AddEdge(g, from, e)) && ContextExact(AddEdge(g, from, e)) && IndexSound(AddEdge(g, from, e))
  {
    var g' := AddEdge(g, from, e);
    assert forall s :: Out(g', s) == if s == from then Out(g, s) + [e] else Out(g, s);
  }

  lemma SameReverse(g: Graph, g': Graph)
    requires ReverseExact(g) && g'.edges == g.edges && g'.reverse == g.reverse
    ensures ReverseExact(g')
  {
    assert forall s :: Out(g', s) == Out(g, s) && In(g', s) == In(g, s);
    assert forall s, t :: CountTo(Out(g, s), t) == multiset(In(g, t))[s];
  }

  lemma RemoveKeeps(g: Graph, from: LineageId, to: LineageId)
    requires Coherent(g)
    ensures Coherent(RemoveBetween(g, from, to))
  {
    hide CountTo, Without, WithoutId, ReverseExact, NoDangling, ContextExact, IndexSound, Unlinked;
    if RemovedBetween(g, from, to) > 0 {
      var u, g' := Unlinked(g, from, to), RemoveBetween(g, from, to);
      UnlinkedReverse(g, from, to);
      SameReverse(u, g');
      RemoveRest(g, from, to);
    }
  }

  lemma RemoveRest(g: Graph, from: LineageId, to: LineageId)
    requires NoDangling(g) && ContextExact(g) && IndexSound(g) && RemovedBetween(g, from, to) > 0
    ensures var g' := RemoveBetween(g, from, to); NoDangling(g') && ContextExact(g') && IndexSound(g')
  {
    hide CountTo, Without, WithoutId;
    var g' := RemoveBetween(g, from, to);
    CountWithout(Out(g, from), to, to);
    CountMember(Out(g, from), to);
    assert forall s :: Out(g', s) == if s == from then Without(Out(g, s), to) else Out(g, s);
  }

  lemma UnlinkedReverse(g: Graph, from: LineageId, to: LineageId)
    requires ReverseExact(g)
    ensures ReverseExact(Unlinked(g, from, to))
  {
    hide CountTo, Without, WithoutId;
    var g' := Unlinked(g, from, to);
    forall s, t
      ensures CountTo(Out(g', s), t) == multiset(In(g', t))[s]
    {
      CountWithout(Out(g, from), to, t);
      IdsWithout(In(g, to), from, s);
      assert CountTo(Out(g, s), t) == multiset(In(g, t))[s];
    }
  }

  lemma FadeKeeps(g: Graph, id: LineageId)
    requires Coherent(g)
    ensures Coherent(Fade(g, id))
  {
    hide CountTo, Without, WithoutId;
    if id in g.nodes {
      var g' := Fade(g, id);
      FadeLists(g, id);
      forall s, t
        ensures CountTo(Out(g', s), t) == multiset(In(g', t))[s]
      {
        CountWithout(Out(g, s), id, t);
        IdsWithout(In(g, t), id, s);
        assert CountTo(Out(g, s), t) == multiset(In(g, t))[s];
        FadeGone(g, id, s, t);
      }
      forall s | Out(g', s) != []
        ensures s in g'.nodes && forall e <- Out(g', s) :: e.target in g'.nodes
      {
        CountWithout(Out(g, s), id, id);
      }
      assert ContextExact(g');
      assert IndexSound(g');
    }
  }

  lemma FadeLists(g: Graph, id: LineageId)
    requires id in g.nodes
    ensures forall s :: Out(Fade(g, id), s) == if s == id then [] else Without(Out(g, s), id)
    ensures forall t :: In(Fade(g, id), t) == if t == id then [] else WithoutId(In(g, t), id)
  {
  }

  lemma FadeGone(g: Graph, id: LineageId, s: LineageId, t: LineageId)
    requires id in g.nodes
    ensures s == id ==> CountTo(Out(Fade(g, id), s), t) == 0
    ensures t == id ==> multiset(In(Fade(g, id), t))[s] == 0
  {
    FadeLists(g, id);
  }

  /** The caller's closure leaves the node's identity and its context cache alone. */
  predicate Keeps(f: IntentNode -> IntentNode, n: IntentNode) {
    f(n).id == n.id && f(n).context == n.context
  }

  lemma MutateKeeps(g: Graph, id: LineageId, f: IntentNode -> IntentNode, signatureOf: nat -> nat)
    requires Coherent(g)
    ensures Coherent(Mutate(g, id, f, signatureOf)) <==> (id in g.nodes ==> Keeps(f, g.nodes[id].node))
  {
    hide CountTo, ReverseExact;
    if id in g.nodes {
      var g' := Mutate(g, id, f, signatureOf);
      SameReverse(g, g');
      assert forall s :: Out(g', s) == Out(g, s);
      assert IndexSound(g');
      assert g'.nodes[id].node == Mutated(g.nodes[id].node, f, signatureOf);
    }
  }

  // ----- actions -----

  datatype NodeAction =
    | NoAction
    | Signal
    | CreateEdge(target: LineageId, weight: real, kind: Kind)
    | ModifyEdge(target: LineageId, newWeight: real)
    | AdjustConfidence(observe: nat -> nat)

  function Adjusting(observe: nat -> nat): IntentNode -> IntentNode {
    (n: IntentNode) => n.(confidence := observe(n.confidence))
  }

  /** The first edge to the target, if any. */
  function FirstTo(es: seq<Edge>, t: LineageId): (r: seq<Edge>)
    ensures |r| <= 1 && (r == [] <==> CountTo(es, t) == 0)
  {
    if es == [] then [] else if es[0].target == t then [es[0]] else FirstTo(es[1..], t)
  }

  /** All parallel edges give way to one; a refused re-insertion leaves them removed. */
  function Modify(g: Graph, s: LineageId, t: LineageId, weight: real): (Result<bool>, Graph) {
    var found := FirstTo(Out(g, s), t);
    if found == [] then (Ok(false), g)
    else
      var g1 := RemoveBetween(g, s, t);
      var err := AddEdgeError(g1, s, t);
      if err.Err? then (Err(err.error), g1)
      else (Ok(true), AddEdge(g1, s, Edge(t, weight, found[0].kind)))
  }

  function Apply(g: Graph, s: LineageId, a: NodeAction, signatureOf: nat -> nat): (Result<bool>, Graph) {
    match a
    case NoAction => (Ok(false), g)
    case Signal => (Ok(false), g)
    case CreateEdge(t, w, k) =>
      if s !in g.nodes then (Err(NodeNotFound(s)), g)
      else if AddEdgeError(g, s, t).Err? then (Err(AddEdgeError(g, s, t).error), g)
      else (Ok(true), AddEdge(g, s, Edge(t, w, k)))
    case ModifyEdge(t, w) =>
      if s !in g.nodes then (Err(NodeNotFound(s)), g) else Modify(g, s, t, w)
    case AdjustConfidence(observe) =>
      if s !in g.nodes then (Err(NodeNotFound(s)), g)
      else (Ok(true), Mutate(g, s, Adjusting(observe), signatureOf))
  }

  lemma ApplyKeeps(g: Graph, s: LineageId, a: NodeAction, signatureOf: nat -> nat)
    requires Coherent(g)
    ensures Coherent(Apply(g, s, a, signatureOf).1)
  {
    hide Coherent, Mutate, AddEdge, RemoveBetween, FirstTo, AddEdgeError;
    match a
    case CreateEdge(t, w, k) => AddEdgeKeeps(g, s, Edge(t, w, k));
    case ModifyEdge(t, w) =>
      RemoveKeeps(g, s, t);
      var found := FirstTo(Out(g, s), t);
      if found != [] {
        AddEdgeKeeps(RemoveBetween(g, s, t), s, Edge(t, w, found[0].kind));
      }
    case AdjustConfidence(observe) =>
      if s in g.nodes { assert Keeps(Adjusting(observe), g.nodes[s].node); }
      MutateKeeps(g, s, Adjusting(observe), signatureOf);
    case _ =>
  }

  /** A successful re-weighting leaves one edge to the target in place of all of them, with the new weight. */
  lemma ModifyLeavesOne(g: Graph, s: LineageId, t: LineageId, weight: real)
    requires Modify(g, s, t, weight).0 == Ok(true)
    ensures var g' := Modify(g, s, t, weight).1;
            && CountTo(Out(g', s), t) == 1
            && Out(g', s) == Without(Out(g, s), t) + [Edge(t, weight, FirstTo(Out(g, s), t)[0].kind)]
  {
    var e := Edge(t, weight, FirstTo(Out(g, s), t)[0].kind);
    assert Out(Modify(g, s, t, weight).1, s) == Without(Out(g, s), t) + [e];
    CountWithout(Out(g, s), t, t);
    CountAppend(Without(Out(g, s), t), e, t);
  }

  /** It is refused half-way, with the edges gone, exactly on a self-edge, which only persisted data can bring in. */
  lemma ModifyFailsIff(g: Graph, s: LineageId, t: LineageId, weight: real)
    requires Coherent(g)
    ensures Modify(g, s, t, weight).0.Err? <==> s == t && CountTo(Out(g, s), s) > 0
    ensures Modify(g, s, t, weight).0.Err? ==>
              Modify(g, s, t, weight).0.error == SelfEdge(s) && CountTo(Out(Modify(g, s, t, weight).1, s), s) == 0
  {
    hide ReverseExact, ContextExact, IndexSound;
    CountMember(Out(g, s), t);
    CountWithout(Out(g, s), t, t);
    if CountTo(Out(g, s), t) > 0 {
      var e :| e in Out(g, s) && e.target == t;
      assert Out(g, s) != [];
    }
  }
}
