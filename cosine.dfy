/**
 * Speaker embeddings and the cosine similarity of `_cosine_similarity`, on
 * exact reals: dot product over the product of the Euclidean norms, and 0
 * when that product is 0. Square roots are avoided by comparing squares.
 */
module Cosine {

  /** A speaker embedding: a fixed-dimension vector. */
  type Embedding = seq<real>

  /** A similarity at or below this value creates a new speaker. */
  const MatchThreshold: real := 0.7

  function Dot(a: Embedding, b: Embedding): real
    requires |a| == |b|
  {
    if a == [] then 0.0 else Dot(a[..|a| - 1], b[..|b| - 1]) + a[|a| - 1] * b[|b| - 1]
  }

  /** The squared Euclidean norm. */
  function NormSq(a: Embedding): (n: real)
    ensures n >= 0.0
  {
    if a == [] then 0.0 else NormSq(a[..|a| - 1]) + a[|a| - 1] * a[|a| - 1]
  }

  /**
   * `s` is the cosine similarity of `a` and `b`: 0 when a norm is 0, and
   * otherwise the value with the sign of the dot product whose square times
   * the product of the squared norms is the squared dot product.
   */
  ghost predicate IsCosine(a: Embedding, b: Embedding, s: real)
    requires |a| == |b|
  {
    var d, n := Dot(a, b), NormSq(a) * NormSq(b);
    if n == 0.0 then s == 0.0 else s * s * n == d * d && (s > 0.0 <==> d > 0.0)
  }

  /**
   * The threshold test without square roots, with the zero-norm rule of
   * deal_voice.py:229: the similarity exceeds 0.7 iff neither norm is 0, the
   * dot product is positive and its square exceeds 0.49 * |a|^2 * |b|^2.
   */
  predicate AboveThreshold(a: Embedding, b: Embedding)
    requires |a| == |b|
  {
    var d, n := Dot(a, b), NormSq(a) * NormSq(b);
    n != 0.0 && d > 0.0 && d * d > MatchThreshold * MatchThreshold * n
  }

  /** Multiplying by a positive factor keeps the sign. */
  lemma ProductSign(p: real, q: real)
    requires q > 0.0
    ensures p > 0.0 <==> p * q > 0.0
  {
    if p > 0.0 {
      assert p * q > 0.0;
    } else {
      assert (-p) * q >= 0.0;
    }
  }

  /** For positive reals, comparing squares compares the values. */
  lemma SquareMonotone(s: real, t: real)
    requires s > 0.0 && t > 0.0
    ensures s * s > t * t <==> s > t
  {
    assert s * s - t * t == (s - t) * (s + t);
    ProductSign(s - t, s + t);
  }

  /** The squared test decides exactly the strict comparison `similarity > 0.7` of deal_voice.py:206. */
  lemma ThresholdBySquares(a: Embedding, b: Embedding, s: real)
    requires |a| == |b| && IsCosine(a, b, s)
    ensures s > MatchThreshold <==> AboveThreshold(a, b)
  {
    var d, n := Dot(a, b), NormSq(a) * NormSq(b);
    var t := MatchThreshold;
    if n != 0.0 {
      assert s * s * n == d * d;
      assert t * t * NormSq(a) * NormSq(b) == t * t * n;
      assert d * d - t * t * n == (s * s - t * t) * n;
      ProductSign(s * s - t * t, n);
      if s > 0.0 {
        SquareMonotone(s, t);
      }
    }
  }
}
