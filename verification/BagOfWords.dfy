/**
 The bag-of-words embedder: a vocabulary that numbers the tokens of a corpus, and TF-IDF vectors over it.
 Texts are already split into tokens; the logarithm is given by the one law used of it.
 */
module BagOfWords {
  import opened Common
  import opened Embedding

  datatype Token = Token(text: string)

  type Document = seq<Token>

  ghost predicate IsLog(ln: real -> real) {
    forall x :: x >= 1.0 ==> ln(x) >= 0.0
  }

  function TokensOf(texts: seq<Document>): set<Token> {
    set d, t | d in texts && t in d :: t
  }

  function TokensIn(d: Document): set<Token> {
    set t | t in d
  }

  lemma OneMoreToken(d: Document, j: nat)
    requires j < |d|
    ensures TokensIn(d[..j + 1]) == TokensIn(d[..j]) + {d[j]}
  {
    assert d[..j + 1] == d[..j] + [d[j]];
  }

  lemma OneMoreText(texts: seq<Document>, i: nat)
    requires i < |texts|
    ensures TokensOf(texts[..i + 1]) == TokensOf(texts[..i]) + TokensIn(texts[i])
  {
    assert texts[..i + 1] == texts[..i] + [texts[i]];
  }

  /** The vocabulary numbers its tokens 0 to dim - 1, each number used once. */
  ghost predicate Dense(vocab: map<Token, nat>, dim: nat) {
    && (forall t <- vocab.Keys :: vocab[t] < dim)
    && (forall s, t :: s in vocab && t in vocab && vocab[s] == vocab[t] ==> s == t)
    && (forall i :: 0 <= i < dim ==> Numbered(vocab, i))
  }

  ghost predicate Numbered(vocab: map<Token, nat>, i: nat) {
    exists t :: t in vocab && vocab[t] == i
  }

  /** How many documents have the token. */
  function DocumentFrequency(texts: seq<Document>, t: Token): nat {
    if texts == [] then 0
    else DocumentFrequency(texts[..|texts| - 1], t) + if t in texts[|texts| - 1] then 1 else 0
  }

  function Occurrences(d: Document, t: Token): nat {
    if d == [] then 0 else Occurrences(d[..|d| - 1], t) + if d[|d| - 1] == t then 1 else 0
  }

  lemma {:induction false} FrequencyBounds(texts: seq<Document>, t: Token)
    ensures DocumentFrequency(texts, t) <= |texts|
    ensures DocumentFrequency(texts, t) >= 1 <==> t in TokensOf(texts)
  {
    if texts == [] {
    } else {
      var most, d := texts[..|texts| - 1], texts[|texts| - 1];
      FrequencyBounds(most, t);
      assert texts == most + [d];
      assert t in TokensOf(texts) <==> t in TokensOf(most) || t in d;
    }
  }

  function Idf(texts: seq<Document>, t: Token, ln: real -> real): real
    requires DocumentFrequency(texts, t) > 0
  {
    ln(|texts| as real / DocumentFrequency(texts, t) as real) + 1.0
  }

  lemma AtLeastOne(n: nat, k: nat)
    requires 0 < k <= n
    ensures n as real / k as real >= 1.0
  {
  }

  /** A token is in no more documents than there are, so its weight never falls below one. */
  lemma IdfAtLeastOne(texts: seq<Document>, t: Token, ln: real -> real)
    requires IsLog(ln) && t in TokensOf(texts)
    ensures DocumentFrequency(texts, t) > 0 && Idf(texts, t, ln) >= 1.0
  {
    FrequencyBounds(texts, t);
    AtLeastOne(|texts|, DocumentFrequency(texts, t));
  }

  function Weight(idf: Option<map<Token, real>>, t: Token): real {
    if idf.Some? && t in idf.value then idf.value[t] else 1.0
  }

  function TermFrequency(d: Document, t: Token): real {
    if d == [] then 0.0 else Occurrences(d, t) as real / |d| as real
  }

  /** Each token of the vocabulary has its weighted frequency at its own place. */
  ghost predicate IsEmbedding(
    v: seq<real>, vocab: map<Token, nat>, dim: nat, idf: Option<map<Token, real>>, d: Document)
  {
    && |v| == dim
    && forall t <- vocab.Keys :: vocab[t] < dim && v[vocab[t]] == Times(TermFrequency(d, t), Weight(idf, t))
  }

  /** Every place belongs to some token, so an embedding has no negative entry. */
  lemma EmbeddingIsNonNegative(
    v: seq<real>, vocab: map<Token, nat>, dim: nat, idf: Option<map<Token, real>>, d: Document)
    requires Dense(vocab, dim) && IsEmbedding(v, vocab, dim, idf, d)
    requires idf.Some? ==> forall t <- idf.value.Keys :: idf.value[t] >= 1.0
    ensures NonNegative(v)
  {
    forall i | 0 <= i < |v|
      ensures v[i] >= 0.0
    {
      assert Numbered(vocab, i);
      var t :| t in vocab && vocab[t] == i;
      Laws(TermFrequency(d, t), Weight(idf, t));
    }
  }

  // ----- the vectors in numbers -----

  function Places(d: Document, t: Token): set<nat> {
    set i | 0 <= i < |d| && d[i] == t
  }

  function Holders(texts: seq<Document>, t: Token): set<nat> {
    set i | 0 <= i < |texts| && t in texts[i]
  }

  lemma {:induction false} OccurrencesAre(d: Document, t: Token)
    ensures Occurrences(d, t) == |Places(d, t)|
  {
    if d == [] {
      assert Places(d, t) == {};
    } else {
      var n := |d| - 1;
      OccurrencesAre(d[..n], t);
      assert Places(d, t) == Places(d[..n], t) + if d[n] == t then {n} else {};
    }
  }

  lemma {:induction false} FrequencyIs(texts: seq<Document>, t: Token)
    ensures DocumentFrequency(texts, t) == |Holders(texts, t)|
  {
    if texts == [] {
      assert Holders(texts, t) == {};
    } else {
      var n := |texts| - 1;
      FrequencyIs(texts[..n], t);
      assert Holders(texts, t) == Holders(texts[..n], t) + if t in texts[n] then {n} else {};
    }
  }

  /** A token's weight is one more than the logarithm of all documents over those that have it. */
  lemma IdfIs(texts: seq<Document>, t: Token, ln: real -> real)
    requires t in TokensOf(texts)
    ensures |Holders(texts, t)| > 0 && DocumentFrequency(texts, t) > 0
    ensures Idf(texts, t, ln) - ln(|texts| as real / |Holders(texts, t)| as real) == 1.0
  {
    FrequencyBounds(texts, t);
    FrequencyIs(texts, t);
  }

  /**
   A token's entry, times the length of the text, is the number of its places there times its weight: one without
   weights, and for a token that has none.
   */
  lemma EntryIs(v: seq<real>, vocab: map<Token, nat>, dim: nat, idf: Option<map<Token, real>>, d: Document, t: Token)
    requires IsEmbedding(v, vocab, dim, idf, d) && t in vocab
    ensures vocab[t] < |v|
    ensures idf.Some? && t in idf.value ==>
              v[vocab[t]] * |d| as real == |Places(d, t)| as real * idf.value[t]
    ensures idf.None? || t !in idf.value ==> v[vocab[t]] * |d| as real == |Places(d, t)| as real
    ensures d == [] ==> v[vocab[t]] == 0.0
  {
    OccurrencesAre(d, t);
    EntryTimes(Occurrences(d, t) as real, |d| as real, Weight(idf, t));
  }

  lemma EntryTimes(x: real, n: real, w: real)
    ensures n != 0.0 ==> Times(x / n, w) * n == x * w
    ensures Times(0.0, w) == 0.0
  {
    if n != 0.0 {
      var q := x / n;
      assert q * n == x;
      assert q * w * n == q * n * w;
    }
  }

  /** Over one vocabulary a text has one embedding. */
  lemma EmbeddingIsUnique(
    v: seq<real>, u: seq<real>, vocab: map<Token, nat>, dim: nat, idf: Option<map<Token, real>>, d: Document)
    requires Dense(vocab, dim) && IsEmbedding(v, vocab, dim, idf, d) && IsEmbedding(u, vocab, dim, idf, d)
    ensures v == u
  {
    forall i | 0 <= i < |v|
      ensures v[i] == u[i]
    {
      assert Numbered(vocab, i);
      var t :| t in vocab && vocab[t] == i;
    }
  }

  /** A text with a token of the vocabulary is not embedded as zero. */
  lemma KnownTokenShows(
    v: seq<real>, vocab: map<Token, nat>, dim: nat, idf: Option<map<Token, real>>, d: Document, t: Token)
    requires IsEmbedding(v, vocab, dim, idf, d) && t in vocab && t in d
    requires idf.Some? ==> forall x <- idf.value.Keys :: idf.value[x] >= 1.0
    ensures !IsZero(v)
  {
    var i :| 0 <= i < |d| && d[i] == t;
    assert i in Places(d, t);
    EntryIs(v, vocab, dim, idf, d, t);
    ProductPositive(|Places(d, t)| as real, Weight(idf, t));
  }

  lemma ProductPositive(x: real, w: real)
    requires x > 0.0 && w >= 1.0
    ensures x * w > 0.0
  {
  }

  class BagOfWordsEmbedder {
    var vocab: map<Token, nat>
    var dim: nat
    var idf: Option<map<Token, real>>
    var docCount: nat

    ghost predicate Valid()
      reads this
    {
      Dense(vocab, dim) && (idf.Some? ==> forall t <- idf.value.Keys :: idf.value[t] >= 1.0)
    }

    constructor ()
      ensures Valid() && dim == 0
    {
      vocab, dim, idf, docCount := map[], 0, None, 0;
    }

    static method NumberTokens(texts: seq<Document>) returns (vocab: map<Token, nat>, dim: nat)
      ensures vocab.Keys == TokensOf(texts) && Dense(vocab, dim)
    {
      vocab, dim := map[], 0;
      for i := 0 to |texts|
        invariant vocab.Keys == TokensOf(texts[..i]) && Dense(vocab, dim)
      {
        var d := texts[i];
        for j := 0 to |d|
          invariant vocab.Keys == TokensOf(texts[..i]) + TokensIn(d[..j]) && Dense(vocab, dim)
        {
          var t := d[j];
          OneMoreToken(d, j);
          if t !in vocab {
            ExtendDense(vocab, dim, t);
            vocab := vocab[t := dim];
            dim := dim + 1;
          }
        }
        assert d[..|d|] == d;
        OneMoreText(texts, i);
      }
      assert texts[..|texts|] == texts;
    }

    method BuildVocab(texts: seq<Document>)
      modifies this
      ensures Valid() && vocab.Keys == TokensOf(texts) && idf == None && docCount == 0
    {
      vocab, dim := NumberTokens(texts);
      idf, docCount := None, 0;
    }

    /** One document's tokens, each counted once, in any order. */
    static method CountDocument(docFreq: map<Token, nat>, d: Document) returns (r: map<Token, nat>)
      ensures r.Keys == docFreq.Keys + TokensIn(d)
      ensures forall t <- r.Keys :: r[t] == (if t in docFreq then docFreq[t] else 0) + if t in d then 1 else 0
    {
      r := docFreq;
      var unique := TokensIn(d);
      var todo := unique;
      while todo != {}
        invariant todo <= unique
        invariant r.Keys == docFreq.Keys + (unique - todo)
        invariant forall t <- r.Keys ::
                    r[t] == (if t in docFreq then docFreq[t] else 0) + if t in unique && t !in todo then 1 else 0
        decreases todo
      {
        var t :| t in todo;
        todo := todo - {t};
        r := r[t := (if t in r then r[t] else 0) + 1];
      }
    }

    method BuildVocabWithIdf(texts: seq<Document>, ln: real -> real)
      requires IsLog(ln)
      modifies this
      ensures Valid() && vocab.Keys == TokensOf(texts) && docCount == |texts|
      ensures idf.Some? && idf.value.Keys == TokensOf(texts)
      ensures forall t <- TokensOf(texts) :: DocumentFrequency(texts, t) > 0 && idf.value[t] == Idf(texts, t, ln)
    {
      vocab, dim := NumberTokens(texts);
      docCount := |texts|;
      var docFreq := DocumentFrequencies(texts);
      var weights := Weights(texts, docFreq, docCount, ln);
      idf := Some(weights);
    }

    static method Weights(texts: seq<Document>, docFreq: map<Token, nat>, docCount: nat, ln: real -> real)
      returns (weights: map<Token, real>)
      requires IsLog(ln) && docFreq.Keys == TokensOf(texts) && docCount == |texts|
      requires forall t <- docFreq.Keys :: docFreq[t] == DocumentFrequency(texts, t)
      ensures weights.Keys == TokensOf(texts)
      ensures forall t <- weights.Keys :: DocumentFrequency(texts, t) > 0 && weights[t] == Idf(texts, t, ln) >= 1.0
    {
      weights := map[];
      var todo := docFreq.Keys;
      while todo != {}
        invariant todo <= docFreq.Keys
        invariant weights.Keys == docFreq.Keys - todo
        invariant forall t <- weights.Keys :: DocumentFrequency(texts, t) > 0 && weights[t] == Idf(texts, t, ln) >= 1.0
        decreases todo
      {
        var t :| t in todo;
        IdfAtLeastOne(texts, t, ln);
        weights := weights[t := ln(docCount as real / docFreq[t] as real) + 1.0];
        todo := todo - {t};
      }
    }

    static method DocumentFrequencies(texts: seq<Document>) returns (docFreq: map<Token, nat>)
      ensures docFreq.Keys == TokensOf(texts)
      ensures forall t <- docFreq.Keys :: docFreq[t] == DocumentFrequency(texts, t)
    {
      docFreq := map[];
      for i := 0 to |texts|
        invariant docFreq.Keys == TokensOf(texts[..i])
        invariant forall t <- docFreq.Keys :: docFreq[t] == DocumentFrequency(texts[..i], t)
      {
        ghost var before, sofar := texts[..i], texts[..i + 1];
        assert sofar == before + [texts[i]] && sofar[..|sofar| - 1] == before;
        OneMoreText(texts, i);
        forall t | t !in TokensOf(before) ensures DocumentFrequency(before, t) == 0 {
          FrequencyBounds(before, t);
        }
        docFreq := CountDocument(docFreq, texts[i]);
      }
      assert texts[..|texts|] == texts;
    }

    method Embed(d: Document) returns (v: seq<real>)
      requires Valid()
      ensures IsEmbedding(v, vocab, dim, idf, d) && NonNegative(v)
    {
      var vec := new real[dim](_ => 0.0);
      if d == [] {
        v := vec[..];
        forall t | t in vocab ensures Times(TermFrequency(d, t), Weight(idf, t)) == 0.0 {
        }
        EmbeddingIsNonNegative(v, vocab, dim, idf, d);
        return;
      }
      for i := 0 to |d|
        invariant forall t <- vocab.Keys :: vec[vocab[t]] == Occurrences(d[..i], t) as real
      {
        assert d[..i + 1][..i] == d[..i];
        if d[i] in vocab {
          vec[vocab[d[i]]] := vec[vocab[d[i]]] + 1.0;
        }
      }
      assert d[..|d|] == d;
      Normalize(vec, d);
      ApplyIdf(vec, d);
      v := vec[..];
      EmbeddingIsNonNegative(v, vocab, dim, idf, d);
    }

    method Normalize(vec: array<real>, d: Document)
      requires Dense(vocab, dim) && vec.Length == dim && d != []
      requires forall t <- vocab.Keys :: vec[vocab[t]] == Occurrences(d, t) as real
      modifies vec
      ensures forall t <- vocab.Keys :: vec[vocab[t]] == TermFrequency(d, t)
    {
      for i := 0 to vec.Length
        invariant forall k :: 0 <= k < i ==> vec[k] == old(vec[k]) / |d| as real
        invariant forall k :: i <= k < vec.Length ==> vec[k] == old(vec[k])
      {
        vec[i] := vec[i] / |d| as real;
      }
    }

    /** Every token's place is weighted once, in whatever order the vocabulary is walked. */
    method ApplyIdf(vec: array<real>, d: Document)
      requires Dense(vocab, dim) && vec.Length == dim
      requires forall t <- vocab.Keys :: vec[vocab[t]] == TermFrequency(d, t)
      modifies vec
      ensures forall t <- vocab.Keys :: vec[vocab[t]] == Times(TermFrequency(d, t), Weight(idf, t))
    {
      hide TermFrequency;
      if idf == None {
        return;
      }
      var todo := vocab.Keys;
      while todo != {}
        invariant todo <= vocab.Keys
        invariant forall t <- vocab.Keys ::
                    vec[vocab[t]]
                      == if t in todo then TermFrequency(d, t) else Times(TermFrequency(d, t), Weight(idf, t))
        decreases todo
      {
        var t :| t in todo;
        todo := todo - {t};
        if t in idf.value {
          vec[vocab[t]] := vec[vocab[t]] * idf.value[t];
        }
      }
    }
  }

  lemma ExtendDense(vocab: map<Token, nat>, dim: nat, t: Token)
    requires Dense(vocab, dim) && t !in vocab
    ensures Dense(vocab[t := dim], dim + 1)
  {
    var more := vocab[t := dim];
    forall i | 0 <= i < dim + 1
      ensures Numbered(more, i)
    {
      if i < dim {
        assert Numbered(vocab, i);
        var s :| s in vocab && vocab[s] == i;
        assert more[s] == i;
      } else {
        assert more[t] == i;
      }
    }
  }
}
