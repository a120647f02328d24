/** Cosine similarity of two vectors, over the reals; the square root is given by its law. */
module Embedding {

  function Times(x: real, y: real): real {
    x * y
  }

  ghost predicate IsSqrt(sqrt: real -> real) {
    forall x :: x >= 0.0 ==> sqrt(x) >= 0.0 && Times(sqrt(x), sqrt(x)) == x
  }

  function Dot(a: seq<real>, b: seq<real>): real
    requires |a| == |b|
  {
    if a == [] then 0.0 else Dot(a[1..], b[1..]) + Times(a[0], b[0])
  }

  function CosineSimilarity(a: seq<real>, b: seq<real>, sqrt: real -> real): real {
    if |a| != |b| || a == [] then 0.0
    else
      var magA, magB := sqrt(Dot(a, a)), sqrt(Dot(b, b));
      if magA == 0.0 || magB == 0.0 then 0.0 else Dot(a, b) / Times(magA, magB)
  }

  lemma Laws(x: real, y: real)
    ensures x >= 0.0 && y >= 0.0 ==> Times(x, y) >= 0.0
    ensures x > 0.0 && y > 0.0 ==> Times(x, y) > 0.0
    ensures Times(x, x) >= 0.0
    ensures Times(Times(x, y), Times(x, y)) == Times(Times(x, x), Times(y, y))
  {
  }

  // ----- Cauchy-Schwarz -----

  /** The squared length of p·a − q·b, from the squared lengths of a and b and their dot product. */
  function Combination(p: real, q: real, aa: real, ab: real, bb: real): real {
    p * p * aa - 2.0 * p * q * ab + q * q * bb
  }

  lemma CombinationOn(p: real, q: real, aa: real, ab: real, bb: real, x: real, y: real)
    ensures Combination(p, q, aa + Times(x, x), ab + Times(x, y), bb + Times(y, y))
              == Combination(p, q, aa, ab, bb) + Times(p * x - q * y, p * x - q * y)
  {
    assert p * p * (aa + x * x) == p * p * aa + p * p * (x * x);
    assert 2.0 * p * q * (ab + x * y) == 2.0 * p * q * ab + 2.0 * p * q * (x * y);
    assert q * q * (bb + y * y) == q * q * bb + q * q * (y * y);
  }

  lemma {:induction false} CombinationIsNonNegative(a: seq<real>, b: seq<real>, p: real, q: real)
    requires |a| == |b|
    ensures Combination(p, q, Dot(a, a), Dot(a, b), Dot(b, b)) >= 0.0
  {
    if a == [] {
    } else {
      var a', b' := a[1..], b[1..];
      CombinationIsNonNegative(a', b', p, q);
      CombinationOn(p, q, Dot(a', a'), Dot(a', b'), Dot(b', b'), a[0], b[0]);
      Laws(p * a[0] - q * b[0], 0.0);
      hide Times, Combination;
    }
  }

  lemma Discriminant(aa: real, ab: real, bb: real)
    requires bb > 0.0 && Combination(bb, ab, aa, ab, bb) >= 0.0
    ensures Times(ab, ab) <= Times(aa, bb)
  {
    assert Combination(bb, ab, aa, ab, bb) == bb * (aa * bb - ab * ab);
  }

  lemma {:induction false} ZeroDot(a: seq<real>, b: seq<real>)
    requires |a| == |b| && Dot(b, b) == 0.0
    ensures Dot(a, b) == 0.0
  {
    if a != [] {
      SquaresAreNonNegative(b[1..]);
      ZeroFactor(a[0], b[0]);
      ZeroDot(a[1..], b[1..]);
    }
  }

  lemma ZeroFactor(x: real, y: real)
    ensures Times(y, y) >= 0.0 && (Times(y, y) == 0.0 ==> Times(x, y) == 0.0)
  {
    if y != 0.0 { Laws(if y > 0.0 then y else -y, if y > 0.0 then y else -y); }
  }

  lemma {:induction false} SquaresAreNonNegative(a: seq<real>)
    ensures Dot(a, a) >= 0.0
  {
    hide Times;
    if a != [] {
      SquaresAreNonNegative(a[1..]);
      Laws(a[0], a[0]);
    }
  }

  lemma CauchySchwarz(a: seq<real>, b: seq<real>)
    requires |a| == |b|
    ensures Times(Dot(a, b), Dot(a, b)) <= Times(Dot(a, a), Dot(b, b))
  {
    assert Times(0.0, 0.0) == 0.0;
    SquaresAreNonNegative(a);
    SquaresAreNonNegative(b);
    Laws(Dot(a, a), Dot(b, b));
    hide Combination, Times;
    if Dot(b, b) == 0.0 {
      ZeroDot(a, b);
    } else {
      CombinationIsNonNegative(a, b, Dot(b, b), Dot(a, b));
      Discriminant(Dot(a, a), Dot(a, b), Dot(b, b));
    }
  }

  // ----- the range -----

  predicate NonNegative(a: seq<real>) {
    forall i :: 0 <= i < |a| ==> a[i] >= 0.0
  }

  lemma {:induction false} DotIsNonNegative(a: seq<real>, b: seq<real>)
    requires |a| == |b| && NonNegative(a) && NonNegative(b)
    ensures Dot(a, b) >= 0.0
  {
    hide Times;
    if a != [] {
      DotIsNonNegative(a[1..], b[1..]);
      Laws(a[0], b[0]);
    }
  }

  lemma LargerSquare(d: real, m: real)
    requires d > m >= 0.0
    ensures Times(d, d) > Times(m, m)
  {
    Laws(d - m, d + m);
    assert d * d - m * m == (d - m) * (d + m);
  }

  lemma AbsBySquares(d: real, m: real)
    requires m >= 0.0 && Times(d, d) <= Times(m, m)
    ensures -m <= d <= m
  {
    assert Times(-d, -d) == Times(d, d);
    hide Times;
    if d > m { LargerSquare(d, m); }
    if d < -m { LargerSquare(-d, m); }
  }

  lemma RatioInRange(d: real, m: real)
    requires m > 0.0 && -m <= d <= m
    ensures -1.0 <= d / m <= 1.0
    ensures d >= 0.0 ==> d / m >= 0.0
  {
  }

  lemma DotBelowMagnitudes(a: seq<real>, b: seq<real>, magA: real, magB: real)
    requires |a| == |b| && magA >= 0.0 && magB > 0.0
    requires Times(magA, magA) == Dot(a, a) && Times(magB, magB) == Dot(b, b)
    ensures -Times(magA, magB) <= Dot(a, b) <= Times(magA, magB)
  {
    hide Times;
    Laws(magB, magB);
    Laws(magA, magB);
    CauchySchwarz(a, b);
    AbsBySquares(Dot(a, b), Times(magA, magB));
  }

  /** The dot product is at most the product of the magnitudes, so the similarity is between -1 and 1. */
  lemma CosineInRange(a: seq<real>, b: seq<real>, sqrt: real -> real)
    requires IsSqrt(sqrt)
    ensures -1.0 <= CosineSimilarity(a, b, sqrt) <= 1.0
    ensures NonNegative(a) && NonNegative(b) ==> CosineSimilarity(a, b, sqrt) >= 0.0
  {
    hide Times;
    if |a| == |b| {
      SquaresAreNonNegative(a);
      SquaresAreNonNegative(b);
      var magA, magB := sqrt(Dot(a, a)), sqrt(Dot(b, b));
      if magA != 0.0 && magB != 0.0 {
        DotBelowMagnitudes(a, b, magA, magB);
        Laws(magA, magB);
        RatioInRange(Dot(a, b), Times(magA, magB));
        if NonNegative(a) && NonNegative(b) { DotIsNonNegative(a, b); }
      }
    }
  }

  // ----- what the similarity is -----

  /** The running sums of the products of two vectors, position by position. */
  ghost predicate RunningSum(p: seq<real>, a: seq<real>, b: seq<real>) {
    && |a| == |b| && |p| == |a| + 1 && p[0] == 0.0
    && forall i :: 0 <= i < |a| ==> p[i + 1] == p[i] + a[i] * b[i]
  }

  lemma {:induction false} DotSnoc(a: seq<real>, b: seq<real>, x: real, y: real)
    requires |a| == |b|
    ensures Dot(a + [x], b + [y]) == Dot(a, b) + Times(x, y)
  {
    hide Times;
    if a == [] {
      assert (a + [x])[1..] == [] && (b + [y])[1..] == [];
    } else {
      DotSnoc(a[1..], b[1..], x, y);
      assert (a + [x])[1..] == a[1..] + [x] && (b + [y])[1..] == b[1..] + [y];
    }
  }

  lemma {:induction false} DotIsSum(p: seq<real>, a: seq<real>, b: seq<real>)
    requires RunningSum(p, a, b)
    ensures Dot(a, b) == p[|a|]
    decreases |a|
  {
    if a != [] {
      var n := |a| - 1;
      DotIsSum(p[..n + 1], a[..n], b[..n]);
      DotSnoc(a[..n], b[..n], a[n], b[n]);
      assert a[..n] + [a[n]] == a && b[..n] + [b[n]] == b;
    }
  }

  /** A non-negative number has one non-negative root. */
  lemma RootIs(x: real, m: real, sqrt: real -> real)
    requires IsSqrt(sqrt) && m >= 0.0 && Times(m, m) == x
    ensures sqrt(x) == m
  {
    assert x >= 0.0;
    if sqrt(x) > m { LargerSquare(sqrt(x), m); }
    if sqrt(x) < m { LargerSquare(m, sqrt(x)); }
  }

  /**
   The similarity in numbers: times both lengths it is the sum of the products, position by position. A vector of
   length zero is similar to nothing, and so are vectors of different dimensions.
   */
  lemma SimilarityIs(a: seq<real>, b: seq<real>, ab: seq<real>, aa: seq<real>, bb: seq<real>, magA: real, magB: real,
    sqrt: real -> real)
    requires IsSqrt(sqrt) && RunningSum(ab, a, b) && RunningSum(aa, a, a) && RunningSum(bb, b, b)
    requires magA >= 0.0 && magA * magA == aa[|a|] && magB >= 0.0 && magB * magB == bb[|b|]
    ensures magA > 0.0 && magB > 0.0 ==> CosineSimilarity(a, b, sqrt) * magA * magB == ab[|a|]
    ensures magA == 0.0 || magB == 0.0 ==> CosineSimilarity(a, b, sqrt) == 0.0
  {
    DotIsSum(ab, a, b);
    DotIsSum(aa, a, a);
    DotIsSum(bb, b, b);
    RootIs(aa[|a|], magA, sqrt);
    RootIs(bb[|b|], magB, sqrt);
    hide RunningSum, IsSqrt, Dot, Times;
    if magA > 0.0 && magB > 0.0 && a != [] {
      Laws(magA, magB);
      DividedBack(Dot(a, b), magA, magB);
    } else if a == [] {
      EmptyDot(a, b);
    }
  }

  lemma DividedBack(d: real, x: real, y: real)
    requires x > 0.0 && y > 0.0
    ensures Times(x, y) > 0.0 && d / Times(x, y) * x * y == d
  {
    var q := d / Times(x, y);
    assert q * (x * y) == d;
    assert q * x * y == q * (x * y);
  }

  lemma EmptyDot(a: seq<real>, b: seq<real>)
    requires a == [] && |b| == 0
    ensures Dot(a, b) == 0.0
  {
  }

  lemma DifferentDimensions(a: seq<real>, b: seq<real>, sqrt: real -> real)
    ensures |a| != |b| ==> CosineSimilarity(a, b, sqrt) == 0.0
  {
  }

  /** The first vector is the second, stretched. */
  ghost predicate Multiple(a: seq<real>, b: seq<real>, k: real) {
    |a| == |b| && k > 0.0 && forall i :: 0 <= i < |a| ==> a[i] == Times(k, b[i])
  }

  predicate IsZero(a: seq<real>) {
    forall i :: 0 <= i < |a| ==> a[i] == 0.0
  }

  lemma {:induction false} ZeroIff(a: seq<real>)
    ensures Dot(a, a) == 0.0 <==> IsZero(a)
  {
    if a != [] {
      SquaresAreNonNegative(a[1..]);
      ZeroIff(a[1..]);
      ZeroFactor(1.0, a[0]);
      Laws(a[0], a[0]);
      assert IsZero(a) <==> a[0] == 0.0 && IsZero(a[1..]) by {
        if a[0] == 0.0 && IsZero(a[1..]) {
          forall i | 0 <= i < |a| ensures a[i] == 0.0 { if i > 0 { assert a[1..][i - 1] == a[i]; } }
        }
      }
    }
  }

  lemma {:induction false} MultipleDot(a: seq<real>, b: seq<real>, k: real)
    requires Multiple(a, b, k)
    ensures Dot(a, b) == Times(k, Dot(b, b)) && Dot(a, a) == Times(k, Dot(a, b))
  {
    if a == [] {
    } else {
      assert a[0] == Times(k, b[0]);
      assert Multiple(a[1..], b[1..], k);
      MultipleDot(a[1..], b[1..], k);
      Distributes(k, Dot(b[1..], b[1..]), b[0], b[0]);
      Distributes(k, Dot(a[1..], b[1..]), a[0], b[0]);
      Reordered(k, b[0], a[0]);
      hide Times;
    }
  }

  lemma Distributes(k: real, d: real, x: real, y: real)
    ensures Times(k, d + Times(x, y)) == Times(k, d) + Times(Times(k, x), y)
    ensures Times(k, d + Times(x, y)) == Times(k, d) + Times(x, Times(k, y))
  {
    assert k * (d + x * y) == k * d + k * (x * y);
    assert k * (x * y) == k * x * y;
    assert x * (k * y) == k * (x * y);
  }

  lemma Reordered(k: real, x: real, y: real)
    ensures Times(Times(k, x), y) == Times(y, Times(k, x))
  {
  }

  /** A stretched vector is similar to the one it comes from, fully. */
  lemma MultipleIsSimilar(a: seq<real>, b: seq<real>, k: real, sqrt: real -> real)
    requires IsSqrt(sqrt) && Multiple(a, b, k) && !IsZero(b)
    ensures CosineSimilarity(a, b, sqrt) == 1.0
  {
    MultipleDot(a, b, k);
    ZeroIff(b);
    SquaresAreNonNegative(b);
    var bb := Dot(b, b);
    var m := sqrt(bb);
    hide Multiple, IsZero, Dot;
    assert Times(0.0, 0.0) == 0.0;
    hide Times;
    assert m > 0.0;
    Squared(k, m, bb);
    Grouped(k, m, bb);
    Laws(k, m);
    RootIs(Dot(a, a), Times(k, m), sqrt);
    Laws(Times(k, m), m);
    SelfRatio(Times(Times(k, m), m));
  }

  lemma SelfRatio(x: real)
    requires x != 0.0
    ensures x / x == 1.0
  {
  }

  lemma Squared(k: real, m: real, bb: real)
    requires Times(m, m) == bb
    ensures Times(Times(k, m), Times(k, m)) == Times(k, Times(k, bb))
  {
    assert (k * m) * (k * m) == k * (k * (m * m));
  }

  lemma Grouped(k: real, m: real, bb: real)
    requires Times(m, m) == bb
    ensures Times(Times(k, m), m) == Times(k, bb)
  {
    assert (k * m) * m == k * (m * m);
  }

  lemma ZeroStep(c: real, p: real, x: real, q: real, y: real)
    requires c >= 0.0 && c + Times(p * x - q * y, p * x - q * y) == 0.0
    ensures c == 0.0 && Times(p, x) == Times(q, y)
  {
    var d := p * x - q * y;
    Laws(d, d);
    if d != 0.0 { Laws(if d > 0.0 then d else -d, if d > 0.0 then d else -d); }
  }

  lemma ZeroHead(a: seq<real>, b: seq<real>, p: real, q: real)
    requires |a| == |b| > 0 && Combination(p, q, Dot(a, a), Dot(a, b), Dot(b, b)) == 0.0
    ensures Combination(p, q, Dot(a[1..], a[1..]), Dot(a[1..], b[1..]), Dot(b[1..], b[1..])) == 0.0
    ensures Times(p, a[0]) == Times(q, b[0])
  {
    var a', b' := a[1..], b[1..];
    CombinationIsNonNegative(a', b', p, q);
    CombinationOn(p, q, Dot(a', a'), Dot(a', b'), Dot(b', b'), a[0], b[0]);
    hide Times, Combination;
    ZeroStep(Combination(p, q, Dot(a', a'), Dot(a', b'), Dot(b', b')), p, a[0], q, b[0]);
  }

  /** If p·a − q·b has length zero, it is zero everywhere. */
  lemma {:induction false} ZeroCombination(a: seq<real>, b: seq<real>, p: real, q: real)
    requires |a| == |b| && Combination(p, q, Dot(a, a), Dot(a, b), Dot(b, b)) == 0.0
    ensures forall i :: 0 <= i < |a| ==> Times(p, a[i]) == Times(q, b[i])
  {
    hide Combination, Times, Dot;
    if a != [] {
      ZeroHead(a, b, p, q);
      ZeroCombination(a[1..], b[1..], p, q);
      forall i | 0 <= i < |a| ensures Times(p, a[i]) == Times(q, b[i]) {
        if i > 0 { assert a[1..][i - 1] == a[i] && b[1..][i - 1] == b[i]; }
      }
    }
  }

  lemma SimilarIsMultiple(a: seq<real>, b: seq<real>, sqrt: real -> real)
    requires IsSqrt(sqrt) && CosineSimilarity(a, b, sqrt) == 1.0
    ensures |a| == |b| && !IsZero(b) && exists k :: Multiple(a, b, k)
  {
    var ma, mb := sqrt(Dot(a, a)), sqrt(Dot(b, b));
    SquaresAreNonNegative(a);
    SquaresAreNonNegative(b);
    ZeroIff(b);
    assert ma > 0.0 && mb > 0.0;
    hide Dot, IsZero;
    Laws(ma, mb);
    assert Dot(a, b) == Times(ma, mb) by { FullRatio(Dot(a, b), Times(ma, mb)); }
    CombinationOfSimilar(ma, mb, Dot(a, a), Dot(a, b), Dot(b, b));
    ZeroCombination(a, b, mb, ma);
    var k := ma / mb;
    forall i | 0 <= i < |a| ensures a[i] == Times(k, b[i]) {
      Divided(a[i], b[i], ma, mb);
    }
    assert k > 0.0 by { Positive(ma, mb); }
    assert Multiple(a, b, k);
  }

  lemma Positive(x: real, y: real)
    requires x > 0.0 && y > 0.0
    ensures x / y > 0.0
  {
  }

  lemma FullRatio(d: real, m: real)
    requires m > 0.0 && d / m == 1.0
    ensures d == m
  {
  }

  lemma CombinationOfSimilar(ma: real, mb: real, aa: real, ab: real, bb: real)
    requires Times(ma, ma) == aa && Times(mb, mb) == bb && ab == Times(ma, mb)
    ensures Combination(mb, ma, aa, ab, bb) == 0.0
  {
    assert mb * mb * (ma * ma) == 2.0 * mb * ma * (ma * mb) - ma * ma * (mb * mb);
  }

  lemma Divided(x: real, y: real, p: real, q: real)
    requires q > 0.0 && Times(q, x) == Times(p, y)
    ensures x == Times(p / q, y)
  {
    var k := p / q;
    assert k * q == p;
    assert q * x == k * q * y == q * (k * y);
  }

  /** Two vectors are fully similar if and only if one is the other stretched, and they are not zero. */
  lemma FullySimilarIff(a: seq<real>, b: seq<real>, sqrt: real -> real)
    requires IsSqrt(sqrt)
    ensures CosineSimilarity(a, b, sqrt) == 1.0 <==> !IsZero(b) && exists k :: Multiple(a, b, k)
  {
    hide CosineSimilarity, Multiple, IsZero;
    if CosineSimilarity(a, b, sqrt) == 1.0 {
      SimilarIsMultiple(a, b, sqrt);
    }
    if !IsZero(b) {
      if k :| Multiple(a, b, k) {
        MultipleIsSimilar(a, b, k, sqrt);
      }
    }
  }
}
