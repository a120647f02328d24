/** Whole histories of a fabric: any sequence of operations, and reconstruction from persisted data. */
module FabricRuns {
  import opened Common
  import opened FabricGraph
  import opened Degrees

  datatype Op =
    | CreateOp(n: IntentNode)
    | FadeOp(id: LineageId)
    | AddOp(from: LineageId, e: Edge)
    | RemoveOp(from: LineageId, to: LineageId)
    | MutateOp(id: LineageId, f: IntentNode -> IntentNode)
    | ActOp(id: LineageId, a: NodeAction)

  function Step(g: Graph, op: Op, signatureOf: nat -> nat): Graph {
    match op
    case CreateOp(n) => Create(g, n)
    case FadeOp(id) => Fade(g, id)
    case AddOp(from, e) => AddEdge(g, from, e)
    case RemoveOp(from, to) => RemoveBetween(g, from, to)
    case MutateOp(id, f) => Mutate(g, id, f, signatureOf)
    case ActOp(id, a) => Apply(g, id, a, signatureOf).1
  }

  /** Created nodes fit, and closures leave identity and context alone. */
  predicate Permitted(g: Graph, op: Op) {
    && (op.CreateOp? ==> Fits(g, op.n))
    && (op.MutateOp? && op.id in g.nodes ==> Keeps(op.f, g.nodes[op.id].node))
  }

  predicate AllPermitted(g: Graph, ops: seq<Op>, signatureOf: nat -> nat)
    decreases |ops|
  {
    ops != [] ==> Permitted(g, ops[0]) && AllPermitted(Step(g, ops[0], signatureOf), ops[1..], signatureOf)
  }

  function Run(g: Graph, ops: seq<Op>, signatureOf: nat -> nat): Graph
    decreases |ops|
  {
    if ops == [] then g else Run(Step(g, ops[0], signatureOf), ops[1..], signatureOf)
  }

  /** Of all operations only a creation that does not fit and a closure that oversteps break the agreement. */
  lemma StepKeeps(g: Graph, op: Op, signatureOf: nat -> nat)
    requires Coherent(g)
    ensures Coherent(Step(g, op, signatureOf)) <==> Permitted(g, op)
  {
    hide Coherent, Create, Fade, AddEdge, RemoveBetween, Mutate, Apply, Fits, Keeps;
    match op
    case CreateOp(n) => CreateKeeps(g, n);
    case FadeOp(id) => FadeKeeps(g, id);
    case AddOp(from, e) => AddEdgeKeeps(g, from, e);
    case RemoveOp(from, to) => RemoveKeeps(g, from, to);
    case MutateOp(id, f) => MutateKeeps(g, id, f, signatureOf);
    case ActOp(id, a) => ApplyKeeps(g, id, a, signatureOf);
  }

  /** Coherent now and after every operation. */
  ghost predicate AlwaysCoherent(g: Graph, ops: seq<Op>, signatureOf: nat -> nat)
    decreases |ops|
  {
    Coherent(g) && (ops != [] ==> AlwaysCoherent(Step(g, ops[0], signatureOf), ops[1..], signatureOf))
  }

  /**
   Index coherence over every run: from a coherent fabric, the forward lists, the reverse index, the context
   caches and the signature index agree after every operation exactly when every operation was permitted; and
   then no edge dangles, and both degree sums equal the edge count.
   */
  lemma {:induction false} RunCoherent(g: Graph, ops: seq<Op>, signatureOf: nat -> nat)
    requires Coherent(g)
    ensures AlwaysCoherent(g, ops, signatureOf) <==> AllPermitted(g, ops, signatureOf)
    ensures AllPermitted(g, ops, signatureOf) ==>
              var g' := Run(g, ops, signatureOf);
              && Coherent(g')
              && Sum(g'.nodes.Keys, OutDegree(g')) == Sum(g'.nodes.Keys, InDegree(g')) == EdgeCount(g')
    decreases |ops|
  {
    hide Step, Coherent, Permitted;
    if ops == [] {
      DegreesBalance(g);
    } else {
      StepKeeps(g, ops[0], signatureOf);
      if Permitted(g, ops[0]) {
        RunCoherent(Step(g, ops[0], signatureOf), ops[1..], signatureOf);
      } else {
        BrokenNow(Step(g, ops[0], signatureOf), ops[1..], signatureOf);
      }
    }
  }

  lemma BrokenNow(g: Graph, ops: seq<Op>, signatureOf: nat -> nat)
    requires !Coherent(g)
    ensures !AlwaysCoherent(g, ops, signatureOf)
  {
  }

  /** A fabric that starts empty. */
  lemma LifeCoherent(ops: seq<Op>, signatureOf: nat -> nat)
    ensures AlwaysCoherent(EMPTY, ops, signatureOf) <==> AllPermitted(EMPTY, ops, signatureOf)
  {
    hide Coherent, Step, Permitted;
    EmptyCoherent();
    RunCoherent(EMPTY, ops, signatureOf);
  }

  // ----- reconstruction -----

  datatype EdgeRecord = EdgeRecord(from: LineageId, e: Edge)

  function InsertNode(g: Graph, n: IntentNode, lamport: nat): Graph {
    g.(nodes := g.nodes[n.id := Entry(n, lamport)], index := Indexed(g.index, n.signature, n.id))
  }

  function InsertNodes(g: Graph, ns: seq<Entry>): Graph
    decreases |ns|
  {
    if ns == [] then g else InsertNodes(InsertNode(g, ns[0].node, ns[0].lamport), ns[1..])
  }

  /** Records with a missing end are dropped. */
  function InsertEdge(g: Graph, r: EdgeRecord): Graph {
    if r.from in g.nodes && r.e.target in g.nodes then Linked(g, r.from, r.e) else g
  }

  function InsertEdges(g: Graph, es: seq<EdgeRecord>): Graph
    decreases |es|
  {
    if es == [] then g else InsertEdges(InsertEdge(g, es[0]), es[1..])
  }

  function SyncAll(g: Graph): Graph {
    g.(nodes := map id | id in g.nodes :: Synced(g.nodes[id], Out(g, id)))
  }

  function FromPersisted(ns: seq<Entry>, es: seq<EdgeRecord>, clock: nat): Graph {
    SyncAll(InsertEdges(InsertNodes(EMPTY.(clock := clock), ns), es))
  }

  /** Coherent but for the signature index and the context caches, which are rebuilt last. */
  ghost predicate Loading(g: Graph) {
    ReverseExact(g) && NoDangling(g) && forall id <- g.nodes.Keys :: g.nodes[id].node.id == id
  }

  predicate DistinctIds(ns: seq<Entry>) {
    forall i, j :: 0 <= i < j < |ns| ==> ns[i].node.id != ns[j].node.id
  }

  lemma NodeLoads(g: Graph, n: Entry)
    requires Loading(g)
    ensures Loading(InsertNode(g, n.node, n.lamport))
  {
    hide CountTo, ReverseExact;
    var g' := InsertNode(g, n.node, n.lamport);
    SameReverse(g, g');
    assert forall s :: Out(g', s) == Out(g, s);
  }

  function Ids(ns: seq<Entry>): set<LineageId> {
    set n | n in ns :: n.node.id
  }

  function Signatures(ns: seq<Entry>): set<nat> {
    set n | n in ns :: n.node.signature
  }

  /** Of the entries under an id the last one is the node. */
  function LastWith(ns: seq<Entry>, id: LineageId): (n: Entry)
    requires id in Ids(ns)
    ensures n in ns && n.node.id == id
  {
    if id in Ids(ns[1..]) then LastWith(ns[1..], id) else ns[0]
  }

  /** Of the entries with a signature the first one is indexed. */
  function FirstWith(ns: seq<Entry>, sig: nat): (n: Entry)
    requires sig in Signatures(ns)
    ensures n in ns && n.node.signature == sig
  {
    if ns[0].node.signature == sig then ns[0] else FirstWith(ns[1..], sig)
  }

  /** No signature is indexed for a node that ends up with another one. */
  predicate IndexFits(ns: seq<Entry>) {
    forall sig <- Signatures(ns) :: LastWith(ns, FirstWith(ns, sig).node.id).node.signature == sig
  }

  lemma {:induction false} NodesLoad(g: Graph, ns: seq<Entry>)
    requires Loading(g)
    ensures var g' := InsertNodes(g, ns);
            && Loading(g') && g'.edges == g.edges && g'.clock == g.clock
            && g'.nodes.Keys == g.nodes.Keys + Ids(ns)
            && (forall id <- g'.nodes.Keys :: g'.nodes[id] == if id in Ids(ns) then LastWith(ns, id) else g.nodes[id])
    decreases |ns|
  {
    hide Loading, Indexed;
    if ns != [] {
      var n := ns[0];
      var g1 := InsertNode(g, n.node, n.lamport);
      NodeLoads(g, n);
      NodesLoad(g1, ns[1..]);
      assert forall m <- ns :: m == n || m in ns[1..];
      assert g1.nodes.Keys == g.nodes.Keys + {n.node.id};
      assert Ids(ns) == {n.node.id} + Ids(ns[1..]);
    }
  }

  lemma {:induction false} NodesIndex(g: Graph, ns: seq<Entry>)
    ensures var g' := InsertNodes(g, ns);
            && g'.index.Keys == g.index.Keys + Signatures(ns)
            && (forall sig <- g'.index.Keys ::
                  g'.index[sig] == if sig in g.index then g.index[sig] else FirstWith(ns, sig).node.id)
    decreases |ns|
  {
    if ns != [] {
      var n := ns[0];
      var g1 := InsertNode(g, n.node, n.lamport);
      NodesIndex(g1, ns[1..]);
      assert forall m <- ns :: m == n || m in ns[1..];
      assert g1.index.Keys == g.index.Keys + {n.node.signature};
      assert Signatures(ns) == {n.node.signature} + Signatures(ns[1..]);
    }
  }

  /** The records that leave s for a present target, in order. */
  function EdgesOf(g: Graph, es: seq<EdgeRecord>, s: LineageId): seq<Edge> {
    if es == [] then []
    else (if es[0].from == s && s in g.nodes && es[0].e.target in g.nodes then [es[0].e] else [])
         + EdgesOf(g, es[1..], s)
  }

  lemma EdgeLoads(g: Graph, r: EdgeRecord, s: LineageId)
    requires Loading(g)
    ensures Loading(InsertEdge(g, r))
    ensures Out(InsertEdge(g, r), s) == Out(g, s) + EdgesOf(g, [r], s)
  {
    hide CountTo, ReverseExact;
    assert EdgesOf(g, [r][1..], s) == [];
    if r.from in g.nodes && r.e.target in g.nodes {
      var g' := Linked(g, r.from, r.e);
      LinkedReverse(g, r.from, r.e);
      assert forall x :: Out(g', x) == if x == r.from then Out(g, x) + [r.e] else Out(g, x);
    } else {
      assert Out(g, s) + [] == Out(g, s);
    }
  }

  lemma {:induction false} EdgesLoad(g: Graph, es: seq<EdgeRecord>, s: LineageId)
    requires Loading(g)
    ensures Loading(InsertEdges(g, es))
    ensures InsertEdges(g, es).nodes == g.nodes && InsertEdges(g, es).clock == g.clock
    ensures InsertEdges(g, es).index == g.index
    ensures Out(InsertEdges(g, es), s) == Out(g, s) + EdgesOf(g, es, s)
    decreases |es|
  {
    hide Loading, Out, Linked;
    if es == [] {
      assert Out(g, s) + [] == Out(g, s);
    } else {
      var g1 := InsertEdge(g, es[0]);
      EdgeLoads(g, es[0], s);
      assert g1.nodes == g.nodes && g1.clock == g.clock && g1.index == g.index by {
        InsertEdgeNodes(g, es[0]);
      }
      EdgesLoad(g1, es[1..], s);
      PresentEdgesOf(g, g1, es[1..], s);
      assert EdgesOf(g, es, s) == EdgesOf(g, [es[0]], s) + EdgesOf(g, es[1..], s) by {
        assert [es[0]][1..] == [];
      }
    }
  }

  lemma InsertEdgeNodes(g: Graph, r: EdgeRecord)
    ensures InsertEdge(g, r).nodes == g.nodes && InsertEdge(g, r).clock == g.clock && InsertEdge(g, r).index == g.index
  {
  }

  lemma {:induction false} PresentEdgesOf(g: Graph, g': Graph, es: seq<EdgeRecord>, s: LineageId)
    requires g'.nodes.Keys == g.nodes.Keys
    ensures EdgesOf(g', es, s) == EdgesOf(g, es, s)
    decreases |es|
  {
    if es != [] {
      PresentEdgesOf(g, g', es[1..], s);
    }
  }

  /**
   Reconstruction. Whatever the persisted lists say, the rebuilt fabric has exactly the listed ids, each with its
   last entry, and gives each node exactly its records whose target is present, in order. It is coherent if and
   only if no signature is indexed for a node that ends up with another one, which takes a repeated id.
   */
  lemma PersistedCoherent(ns: seq<Entry>, es: seq<EdgeRecord>, clock: nat)
    ensures Coherent(FromPersisted(ns, es, clock)) <==> IndexFits(ns)
    ensures DistinctIds(ns) ==> IndexFits(ns)
    ensures FromPersisted(ns, es, clock).clock == clock && FromPersisted(ns, es, clock).nodes.Keys == Ids(ns)
    ensures forall s :: Out(FromPersisted(ns, es, clock), s) == EdgesOf(FromPersisted(ns, es, clock), es, s)
    ensures forall id <- Ids(ns) ::
              FromPersisted(ns, es, clock).nodes[id] == Synced(LastWith(ns, id), Out(FromPersisted(ns, es, clock), id))
  {
    hide CountTo, ReverseExact, InsertNodes, InsertEdges, EdgesOf, IndexSound;
    var g0 := EMPTY.(clock := clock);
    EmptyLoads(clock);
    NodesLoad(g0, ns);
    var g1 := InsertNodes(g0, ns);
    var g2, g := InsertEdges(g1, es), FromPersisted(ns, es, clock);
    EdgesLoad(g1, es, LineageId(0));
    SyncAllCoherent(g2);
    forall s
      ensures Out(g, s) == EdgesOf(g, es, s)
    {
      EdgesLoad(g1, es, s);
      assert Out(g1, s) == [] && [] + EdgesOf(g1, es, s) == EdgesOf(g1, es, s);
      PresentEdgesOf(g1, g, es, s);
    }
    assert g1.nodes.Keys == Ids(ns);
    IndexOfPersisted(ns, es, clock);
    if DistinctIds(ns) { DistinctFits(ns); }
  }

  lemma IndexOfPersisted(ns: seq<Entry>, es: seq<EdgeRecord>, clock: nat)
    ensures IndexSound(FromPersisted(ns, es, clock)) <==> IndexFits(ns)
  {
    hide Loading, InsertNodes, InsertEdges;
    var g0 := EMPTY.(clock := clock);
    EmptyLoads(clock);
    NodesLoad(g0, ns);
    NodesIndex(g0, ns);
    var g1, g := InsertNodes(g0, ns), FromPersisted(ns, es, clock);
    EdgesLoad(g1, es, LineageId(0));
    assert g.index == g1.index && g.nodes.Keys == Ids(ns) && g.index.Keys == Signatures(ns);
    assert forall id <- Ids(ns) :: g.nodes[id].node.signature == LastWith(ns, id).node.signature;
    forall sig | sig in Signatures(ns)
      ensures g.index[sig] == FirstWith(ns, sig).node.id && g.index[sig] in Ids(ns)
    {
      assert FirstWith(ns, sig) in ns;
    }
  }

  lemma DistinctFits(ns: seq<Entry>)
    requires DistinctIds(ns)
    ensures IndexFits(ns)
    ensures forall n <- ns :: LastWith(ns, n.node.id) == n
  {
    forall n | n in ns ensures LastWith(ns, n.node.id) == n {
      var i :| 0 <= i < |ns| && ns[i] == n;
      var m := LastWith(ns, n.node.id);
      var j :| 0 <= j < |ns| && ns[j] == m;
    }
  }

  /** The failing input: two entries under one id. The first one's signature still leads to the node of the second. */
  lemma RepeatedIdCost(n: Entry, m: Entry, es: seq<EdgeRecord>, clock: nat)
    requires n.node.id == m.node.id && n.node.signature != m.node.signature
    ensures var g := FromPersisted([n, m], es, clock);
            && !Coherent(g) && n.node.id in g.nodes && n.node.signature in g.index
            && g.index[n.node.signature] == n.node.id && g.nodes[n.node.id].node.signature == m.node.signature
  {
    var ns := [n, m];
    assert ns[1..] == [m] && Ids(ns[1..]) == {m.node.id} && Ids(ns) == {n.node.id};
    assert n in ns && n.node.signature in Signatures(ns);
    assert FirstWith(ns, n.node.signature) == n && LastWith(ns, n.node.id) == m;
    PersistedCoherent(ns, es, clock);
    hide Coherent, FromPersisted, Loading, InsertNodes, InsertEdges;
    IndexLooksUp(ns, es, clock, n.node.signature);
  }

  lemma IndexLooksUp(ns: seq<Entry>, es: seq<EdgeRecord>, clock: nat, sig: nat)
    requires sig in Signatures(ns)
    ensures sig in FromPersisted(ns, es, clock).index
    ensures FromPersisted(ns, es, clock).index[sig] == FirstWith(ns, sig).node.id
  {
    hide Loading, InsertNodes, InsertEdges, FirstWith;
    var g0 := EMPTY.(clock := clock);
    EmptyLoads(clock);
    NodesLoad(g0, ns);
    NodesIndex(g0, ns);
    EdgesLoad(InsertNodes(g0, ns), es, LineageId(0));
  }

  /** A self-edge, which `add_edge` refuses, is loaded; re-weighting it then fails with the edge gone. */
  lemma SelfEdgeLoads(n: Entry, e: Edge, weight: real)
    requires e.target == n.node.id
    ensures var g := FromPersisted([n], [EdgeRecord(n.node.id, e)], 0);
            && Coherent(g) && Out(g, n.node.id) == [e]
            && Modify(g, n.node.id, n.node.id, weight).0 == Err(SelfEdge(n.node.id))
            && CountTo(Out(Modify(g, n.node.id, n.node.id, weight).1, n.node.id), n.node.id) == 0
  {
    var ns, es := [n], [EdgeRecord(n.node.id, e)];
    var g := FromPersisted(ns, es, 0);
    assert DistinctIds(ns) && n in ns && Ids(ns) == {n.node.id};
    PersistedCoherent(ns, es, 0);
    assert EdgesOf(g, es[1..], n.node.id) == [];
    assert EdgesOf(g, es, n.node.id) == [e];
    assert CountTo([e], n.node.id) == 1 by { assert CountTo([e][1..], n.node.id) == 0; }
    hide Coherent, FromPersisted, Modify;
    ModifyFailsIff(g, n.node.id, n.node.id, weight);
  }

  lemma SyncAllCoherent(g: Graph)
    requires Loading(g)
    ensures Coherent(SyncAll(g)) <==> IndexSound(SyncAll(g))
    ensures forall s :: Out(SyncAll(g), s) == Out(g, s)
  {
    hide CountTo, ReverseExact;
    SameReverse(g, SyncAll(g));
    assert forall s :: Out(SyncAll(g), s) == Out(g, s);
  }

  lemma EmptyLoads(clock: nat)
    ensures Loading(EMPTY.(clock := clock))
  {
  }

  /** An export of a fabric: its entries in some order, and its edges with each node's own order kept. */
  ghost predicate IsExport(g: Graph, ns: seq<Entry>, es: seq<EdgeRecord>) {
    && DistinctIds(ns)
    && (forall en <- ns :: en.node.id in g.nodes && g.nodes[en.node.id] == en)
    && (forall id <- g.nodes.Keys :: g.nodes[id] in ns)
    && (forall s :: EdgesOf(g, es, s) == Out(g, s))
  }

  /** Fabrics with the same edge lists have the same reverse lists, up to order. */
  lemma ReverseDecided(g: Graph, g': Graph, t: LineageId)
    requires ReverseExact(g) && ReverseExact(g') && forall s :: Out(g', s) == Out(g, s)
    ensures multiset(In(g', t)) == multiset(In(g, t))
  {
    hide CountTo;
    forall s
      ensures multiset(In(g', t))[s] == multiset(In(g, t))[s]
    {
      assert CountTo(Out(g', s), t) == multiset(In(g', t))[s];
      assert CountTo(Out(g, s), t) == multiset(In(g, t))[s];
    }
  }

  /** Persisting and reconstructing a coherent fabric gives back its nodes, edge lists and clock. */
  lemma PersistRoundTrip(g: Graph, ns: seq<Entry>, es: seq<EdgeRecord>)
    requires Coherent(g) && IsExport(g, ns, es)
    ensures var g' := FromPersisted(ns, es, g.clock);
            && g'.nodes == g.nodes && g'.clock == g.clock
            && (forall s :: Out(g', s) == Out(g, s))
            && (forall t :: multiset(In(g', t)) == multiset(In(g, t)))
  {
    hide CountTo, FromPersisted, EdgesOf, ReverseExact, NoDangling, IndexSound, IndexFits, LastWith, Out, In;
    var g' := FromPersisted(ns, es, g.clock);
    PersistedCoherent(ns, es, g.clock);
    DistinctFits(ns);
    forall id | id in g.nodes.Keys
      ensures id in Ids(ns) && LastWith(ns, id) == g.nodes[id]
    {
      assert g.nodes[id] in ns && g.nodes[id].node.id == id;
    }
    assert g'.nodes.Keys == g.nodes.Keys;
    forall s
      ensures Out(g', s) == Out(g, s)
    {
      PresentEdgesOf(g, g', es, s);
    }
    assert g'.nodes == g.nodes;
    forall t
      ensures multiset(In(g', t)) == multiset(In(g, t))
    {
      ReverseDecided(g, g', t);
    }
  }
}
