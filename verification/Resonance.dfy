/** The resonance score of a node: semantic similarity, how connected the node is, and how recently it was used. */
module Resonance {
  import opened Common
  import opened FabricGraph
  import opened Embedding
  import BagOfWords

  function WeightSum(es: seq<Edge>): real {
    if es == [] then 0.0 else es[0].weight + WeightSum(es[1..])
  }

  /** Outgoing weight, and half a point for every incoming edge. */
  function Connectivity(g: Graph, id: LineageId): real {
    WeightSum(Out(g, id)) + |In(g, id)| as real * 0.5
  }

  /** Full at ten points. There is no floor. */
  function ContextScore(g: Graph, id: LineageId): real {
    var total := Connectivity(g, id) / 10.0;
    if total < 1.0 then total else 1.0
  }

  function Jaccard<T(==)>(a: set<T>, b: set<T>): real {
    if a == {} && b == {} then 0.0 else
      assert a + b != {};
      |a * b| as real / |a + b| as real
  }

  lemma JaccardInUnit<T>(a: set<T>, b: set<T>)
    ensures InUnit(Jaccard(a, b))
    ensures Jaccard(a, b) == 1.0 <==> a == b && a != {}
  {
    if a + b != {} {
      var n, m := |a * b|, |a + b|;
      SubsetSize(a * b, a + b);
      Fraction(n, m);
      if n == m {
        SubsetEqual(a * b, a + b);
        assert a == b by {
          forall x ensures x in a <==> x in b {
            assert x in a + b <==> x in a * b;
          }
        }
      }
      if a == b {
        assert a * b == a && a + b == a;
      }
    }
  }

  lemma Fraction(n: nat, m: nat)
    requires n <= m && m > 0
    ensures InUnit(n as real / m as real)
    ensures n as real / m as real == 1.0 <==> n == m
  {
    var q := n as real / m as real;
    Quotient(n as real, m as real);
    assert q * m as real == n as real;
    if q == 1.0 {
      assert n as real == m as real;
    }
  }

  lemma Quotient(x: real, y: real)
    requires 0.0 <= x <= y && y > 0.0
    ensures (x / y) * y == x && InUnit(x / y)
    ensures x == y ==> x / y == 1.0
  {
  }

  lemma {:induction false} SubsetSize<T>(a: set<T>, b: set<T>)
    requires a <= b
    ensures |a| <= |b|
  {
    if a != {} {
      var x :| x in a;
      SubsetSize(a - {x}, b - {x});
    }
  }

  lemma SubsetEqual<T>(a: set<T>, b: set<T>)
    requires a <= b && |a| == |b|
    ensures a == b
  {
    if x :| x in b && x !in a {
      SubsetSize(a, b - {x});
    }
  }

  /** Semantic 0.6, context 0.2, temporal 0.2. */
  function Score(semantic: real, context: real, temporal: real): real {
    semantic * 0.6 + context * 0.2 + temporal * 0.2
  }

  /** The context score has its documented range exactly when the weights do not outweigh the incoming edges. */
  lemma ContextInUnitIff(g: Graph, id: LineageId)
    ensures InUnit(ContextScore(g, id)) <==> Connectivity(g, id) >= 0.0
  {
  }

  lemma {:induction false} WeightSumIsNonNegative(es: seq<Edge>)
    requires forall e <- es :: e.weight >= 0.0
    ensures WeightSum(es) >= 0.0
  {
    if es != [] { WeightSumIsNonNegative(es[1..]); }
  }

  /** With no negative weight on the node's edges the score of an embedded query is between 0 and 1. */
  lemma EmbeddedScoreInUnit(
    g: Graph, id: LineageId, query: seq<real>, node: seq<real>, sqrt: real -> real, temporal: real)
    requires forall e <- Out(g, id) :: e.weight >= 0.0
    requires NonNegative(query) && NonNegative(node) && IsSqrt(sqrt) && InUnit(temporal)
    ensures InUnit(Score(CosineSimilarity(query, node, sqrt), ContextScore(g, id), temporal))
  {
    CosineInRange(query, node, sqrt);
    WeightSumIsNonNegative(Out(g, id));
    ContextInUnitIff(g, id);
  }

  /** The same for the fallback over token sets. */
  lemma FallbackScoreInUnit<T>(g: Graph, id: LineageId, query: set<T>, want: set<T>, temporal: real)
    requires (forall e <- Out(g, id) :: e.weight >= 0.0) && InUnit(temporal)
    ensures InUnit(Score(Jaccard(query, want), ContextScore(g, id), temporal))
  {
    JaccardInUnit(query, want);
    WeightSumIsNonNegative(Out(g, id));
    ContextInUnitIff(g, id);
  }

  /** Whatever the other components, the score stays in range exactly when the context score does not go below zero. */
  lemma ScoreInUnitIff(g: Graph, id: LineageId)
    ensures (forall semantic, temporal :: InUnit(semantic) && InUnit(temporal) ==>
               InUnit(Score(semantic, ContextScore(g, id), temporal)))
            <==> Connectivity(g, id) >= 0.0
  {
    if Connectivity(g, id) < 0.0 {
      assert !InUnit(Score(0.0, ContextScore(g, id), 0.0));
    }
  }

  /** `add_edge` takes any weight: one heavily negative edge puts every score of its source below zero. */
  lemma NegativeWeightCost(g: Graph, from: LineageId, to: LineageId, kind: Kind, semantic: real, temporal: real)
    requires from in g.nodes && to in g.nodes && from != to && Out(g, from) == [] && In(g, from) == []
    requires InUnit(semantic) && InUnit(temporal)
    ensures var g' := AddEdge(g, from, Edge(to, -50.0, kind));
            AddEdgeError(g, from, to).Ok? && Score(semantic, ContextScore(g', from), temporal) < 0.0
  {
    var g' := AddEdge(g, from, Edge(to, -50.0, kind));
    assert Out(g', from) == [Edge(to, -50.0, kind)];
    assert In(g', from) == [];
    assert WeightSum(Out(g', from)) == -50.0;
  }

  // ----- the score in numbers -----

  /** The running sums of the weights of a list of edges. */
  ghost predicate RunningWeight(p: seq<real>, es: seq<Edge>) {
    && |p| == |es| + 1 && p[0] == 0.0
    && forall i :: 0 <= i < |es| ==> p[i + 1] == p[i] + es[i].weight
  }

  lemma {:induction false} WeightSumIs(p: seq<real>, es: seq<Edge>)
    requires RunningWeight(p, es)
    ensures WeightSum(es) == p[|es|]
    decreases |es|
  {
    if es != [] {
      var n := |es| - 1;
      WeightSumIs(p[..n + 1], es[..n]);
      WeightSumSnoc(es[..n], es[n]);
      assert es[..n] + [es[n]] == es;
    }
  }

  lemma {:induction false} WeightSumSnoc(es: seq<Edge>, e: Edge)
    ensures WeightSum(es + [e]) == WeightSum(es) + e.weight
  {
    if es == [] {
      assert (es + [e])[1..] == [];
    } else {
      WeightSumSnoc(es[1..], e);
      assert (es + [e])[1..] == es[1..] + [e];
    }
  }

  /**
   The context score in numbers: a tenth of what the outgoing weights and half the incoming edges add up to, and
   one from ten points on.
   */
  lemma ContextScoreIs(g: Graph, id: LineageId, p: seq<real>)
    requires RunningWeight(p, Out(g, id))
    ensures var points := p[|Out(g, id)|] + |In(g, id)| as real / 2.0;
            && (points < 10.0 ==> 10.0 * ContextScore(g, id) == points)
            && (points >= 10.0 ==> ContextScore(g, id) == 1.0)
  {
    WeightSumIs(p, Out(g, id));
  }

  /** What each component adds to the score: six tenths, two tenths and two tenths of itself. */
  lemma ScoreAdds(semantic: real, context: real, temporal: real, more: real)
    ensures Score(0.0, 0.0, 0.0) == 0.0
    ensures 10.0 * (Score(semantic + more, context, temporal) - Score(semantic, context, temporal)) == 6.0 * more
    ensures 10.0 * (Score(semantic, context + more, temporal) - Score(semantic, context, temporal)) == 2.0 * more
    ensures 10.0 * (Score(semantic, context, temporal + more) - Score(semantic, context, temporal)) == 2.0 * more
  {
  }

  /** The Jaccard coefficient, times the size of the union, is the size of the intersection. */
  lemma JaccardIs<T>(a: set<T>, b: set<T>)
    ensures Jaccard(a, b) * |a + b| as real == |a * b| as real
    ensures a == {} && b == {} ==> Jaccard(a, b) == 0.0
  {
    if a == {} && b == {} {
      assert a * b == {} && a + b == {};
    } else {
      assert a + b != {};
      SubsetSize(a * b, a + b);
      Quotient(|a * b| as real, |a + b| as real);
    }
  }

  /**
   A query and a node embedded by the same embedder, scored: six tenths of their similarity, two tenths of the
   context score, two tenths of the recency. Equal texts with a token of the vocabulary are fully similar.
   */
  method ScoreEmbedded(
    embedder: BagOfWords.BagOfWordsEmbedder, g: Graph, id: LineageId, query: BagOfWords.Document,
    want: BagOfWords.Document, sqrt: real -> real, temporal: real)
    returns (score: real, ghost q: seq<real>, ghost n: seq<real>)
    requires embedder.Valid() && IsSqrt(sqrt)
    ensures BagOfWords.IsEmbedding(q, embedder.vocab, embedder.dim, embedder.idf, query)
    ensures BagOfWords.IsEmbedding(n, embedder.vocab, embedder.dim, embedder.idf, want)
    ensures 10.0 * score == 6.0 * CosineSimilarity(q, n, sqrt) + 2.0 * ContextScore(g, id) + 2.0 * temporal
    ensures query == want && (exists t :: t in query && t in embedder.vocab) ==>
              10.0 * score == 6.0 + 2.0 * ContextScore(g, id) + 2.0 * temporal
    ensures InUnit(temporal) && (forall e <- Out(g, id) :: e.weight >= 0.0) ==> InUnit(score)
  {
    var asked := embedder.Embed(query);
    var wanted := embedder.Embed(want);
    q, n := asked, wanted;
    score := Score(CosineSimilarity(asked, wanted, sqrt), ContextScore(g, id), temporal);
    if InUnit(temporal) && forall e <- Out(g, id) :: e.weight >= 0.0 {
      EmbeddedScoreInUnit(g, id, asked, wanted, sqrt, temporal);
    }
    if query == want {
      if t :| t in query && t in embedder.vocab {
        SameTextIsSimilar(embedder.vocab, embedder.dim, embedder.idf, query, t, q, n, sqrt);
      }
    }
  }

  lemma SameTextIsSimilar(
    vocab: map<BagOfWords.Token, nat>, dim: nat, idf: Option<map<BagOfWords.Token, real>>, d: BagOfWords.Document,
    t: BagOfWords.Token, q: seq<real>, n: seq<real>, sqrt: real -> real)
    requires BagOfWords.Dense(vocab, dim) && IsSqrt(sqrt) && t in d && t in vocab
    requires idf.Some? ==> forall x <- idf.value.Keys :: idf.value[x] >= 1.0
    requires BagOfWords.IsEmbedding(q, vocab, dim, idf, d) && BagOfWords.IsEmbedding(n, vocab, dim, idf, d)
    ensures CosineSimilarity(q, n, sqrt) == 1.0
  {
    BagOfWords.EmbeddingIsUnique(q, n, vocab, dim, idf, d);
    BagOfWords.KnownTokenShows(n, vocab, dim, idf, d, t);
    assert Multiple(q, n, 1.0);
    FullySimilarIff(q, n, sqrt);
  }
}
