/** The hashed text vectors and the similarity scores built on them, over the reals. */
module Embedding {
  import opened Numbers

  /** The four fields of a token's 16-byte digest that are used: two 32-bit words and two bytes. */
  datatype Digest = Digest(wordA: nat, wordB: nat, byteA: nat, byteB: nat)

  type Sqrt = real -> real

  /** `sqrt` is the non-negative root. */
  ghost predicate IsSqrt(sqrt: Sqrt) {
    forall x :: x >= 0.0 ==> sqrt(x) >= 0.0 && sqrt(x) * sqrt(x) == x
  }

  /** `sum(a * b for a, b in zip(left, right))`: as long as the shorter one. */
  function Dot(a: seq<real>, b: seq<real>): real {
    if a == [] || b == [] then 0.0 else a[0] * b[0] + Dot(a[1..], b[1..])
  }

  lemma Root(sqrt: Sqrt, x: real) returns (r: real)
    requires IsSqrt(sqrt) && x >= 0.0
    ensures r == sqrt(x) && r >= 0.0 && r * r == x
  {
    r := sqrt(x);
  }

  // ----- the inequality of Cauchy and Schwarz -----

  lemma SquareNonNegative(x: real)
    ensures x * x >= 0.0
  {
  }

  lemma ProductNonNegative(x: real, y: real)
    requires x >= 0.0 && y >= 0.0
    ensures x * y >= 0.0
  {
  }

  lemma {:induction false} DotSelf(a: seq<real>)
    ensures Dot(a, a) >= 0.0
  {
    if a != [] {
      DotSelf(a[1..]);
      SquareNonNegative(a[0]);
    }
  }

  lemma ProductPositive(x: real, y: real, product: real)
    requires x > 0.0 && y > 0.0 && product == x * y
    ensures product > 0.0
  {
  }

  lemma SquarePositive(x: real, square: real)
    requires x != 0.0 && square == x * x
    ensures square > 0.0
  {
    if x > 0.0 {
      ProductPositive(x, x, square);
    } else {
      var y := -x;
      assert square == y * y;
      ProductPositive(y, y, square);
    }
  }

  lemma RootOfZero(x: real, square: real)
    requires square == x * x && square == 0.0
    ensures x == 0.0
  {
    if x != 0.0 { SquarePositive(x, square); }
  }

  lemma FromSquares(u: real, v: real)
    requires u * u <= v * v && v >= 0.0
    ensures -v <= u <= v
  {
    assert (u - v) * (u + v) == u * u - v * v;
    if u > v { ProductPositive(u - v, u + v, (u - v) * (u + v)); }
    if u < -v { ProductPositive(v - u, -u - v, (u - v) * (u + v)); }
  }

  /** `4 p q <= (p + q)^2`. */
  lemma MeanSquares(p: real, q: real)
    ensures 4.0 * p * q <= (p + q) * (p + q)
  {
    SquareNonNegative(p - q);
    assert (p + q) * (p + q) - 4.0 * p * q == (p - q) * (p - q);
  }

  /** The cross term of one more coordinate. */
  lemma CrossTerm(x: real, y: real, d: real, aa: real, bb: real)
    requires aa >= 0.0 && bb >= 0.0 && d * d <= aa * bb
    ensures 2.0 * (x * y) * d <= x * x * bb + y * y * aa
  {
    var xx, yy := x * x, y * y;
    SquareNonNegative(x);
    SquareNonNegative(y);
    var p, q := xx * bb, yy * aa;
    ProductNonNegative(xx, bb);
    ProductNonNegative(yy, aa);
    ProductNonNegative(xx, yy);
    var u := 2.0 * (x * y) * d;
    assert u * u == 4.0 * (xx * yy) * (d * d) by { CrossSquare(x, y, d); }
    assert (xx * yy) * (d * d) <= (xx * yy) * (aa * bb) by { Scaled(xx * yy, d * d, aa * bb); }
    assert (xx * yy) * (aa * bb) == p * q by { Regroup(xx, yy, aa, bb); }
    MeanSquares(p, q);
    FromSquares(u, p + q);
  }

  lemma CrossSquare(x: real, y: real, d: real)
    ensures (2.0 * (x * y) * d) * (2.0 * (x * y) * d) == 4.0 * ((x * x) * (y * y)) * (d * d)
  {
    var z := x * y;
    assert z * z == (x * x) * (y * y);
    assert (2.0 * z * d) * (2.0 * z * d) == 4.0 * (z * z) * (d * d);
  }

  lemma Scaled(c: real, u: real, v: real)
    requires c >= 0.0 && u <= v
    ensures c * u <= c * v
  {
  }

  lemma Regroup(xx: real, yy: real, aa: real, bb: real)
    ensures (xx * yy) * (aa * bb) == (xx * bb) * (yy * aa)
  {
  }

  /** The square of an inner product is at most the product of the two squared lengths. */
  predicate Within(d: real, aa: real, bb: real) { d * d <= aa * bb }

  lemma WithinZero(aa: real, bb: real)
    requires aa >= 0.0 && bb >= 0.0
    ensures Within(0.0, aa, bb)
  {
    ProductNonNegative(aa, bb);
  }

  lemma OneMoreCoordinate(x: real, y: real, d: real, aa: real, bb: real)
    requires aa >= 0.0 && bb >= 0.0 && Within(d, aa, bb)
    ensures Within(x * y + d, x * x + aa, y * y + bb)
  {
    CrossTerm(x, y, d, aa, bb);
    var z := x * y;
    assert z * z == (x * x) * (y * y);
    assert (z + d) * (z + d) == z * z + 2.0 * z * d + d * d;
    assert (x * x + aa) * (y * y + bb) == (x * x) * (y * y) + x * x * bb + y * y * aa + aa * bb;
  }

  lemma WithinEquals(d: real, aa: real, bb: real, e: real, ee: real, ff: real)
    requires d == e && aa == ee && bb == ff && Within(d, aa, bb)
    ensures Within(e, ee, ff)
  {
  }

  lemma {:induction false} CauchyBound(a: seq<real>, b: seq<real>, ab: real, aa: real, bb: real)
    requires ab == Dot(a, b) && aa == Dot(a, a) && bb == Dot(b, b)
    ensures Within(ab, aa, bb)
  {
    if a == [] || b == [] {
      DotSelf(a);
      DotSelf(b);
      WithinZero(aa, bb);
    } else {
      var x, y, d, dd, ee := a[0], b[0], Dot(a[1..], b[1..]), Dot(a[1..], a[1..]), Dot(b[1..], b[1..]);
      CauchyBound(a[1..], b[1..], d, dd, ee);
      DotSelf(a[1..]);
      DotSelf(b[1..]);
      OneMoreCoordinate(x, y, d, dd, ee);
      WithinEquals(x * y + d, x * x + dd, y * y + ee, ab, aa, bb);
    }
  }

  lemma CauchySchwarz(a: seq<real>, b: seq<real>)
    ensures Within(Dot(a, b), Dot(a, a), Dot(b, b))
  {
    CauchyBound(a, b, Dot(a, b), Dot(a, a), Dot(b, b));
  }

  lemma ProductNonZero(x: real, y: real, product: real)
    requires x != 0.0 && y != 0.0 && product == x * y
    ensures product != 0.0
  {
    var u, v := if x > 0.0 then x else -x, if y > 0.0 then y else -y;
    assert u * v == product || u * v == -product;
    ProductPositive(u, v, u * v);
  }

  /** `_cosine`. */
  function Cosine(left: seq<real>, right: seq<real>, sqrt: Sqrt): real {
    var leftNorm, rightNorm := sqrt(Dot(left, left)), sqrt(Dot(right, right));
    if leftNorm == 0.0 || rightNorm == 0.0 then 0.0
    else Ratio(Dot(left, right), leftNorm, rightNorm)
  }

  function Ratio(d: real, l: real, r: real): real
    requires l != 0.0 && r != 0.0
  {
    ProductNonZero(l, r, l * r);
    d / (l * r)
  }

  lemma CosineBounds(left: seq<real>, right: seq<real>, sqrt: Sqrt)
    requires IsSqrt(sqrt)
    ensures -1.0 <= Cosine(left, right, sqrt) <= 1.0
  {
    DotSelf(left);
    DotSelf(right);
    var l := Root(sqrt, Dot(left, left));
    var r := Root(sqrt, Dot(right, right));
    if l != 0.0 && r != 0.0 {
      CauchySchwarz(left, right);
      CosineOf(Dot(left, right), Dot(left, left), Dot(right, right), l, r, l * r);
    }
  }

  lemma SameProduct(x: real, y: real, u: real, v: real)
    requires x == u && y == v
    ensures x * y == u * v
  {
  }

  lemma CosineOf(d: real, aa: real, bb: real, l: real, r: real, m: real)
    requires l > 0.0 && r > 0.0 && l * l == aa && r * r == bb && m == l * r && Within(d, aa, bb)
    ensures -1.0 <= Ratio(d, l, r) <= 1.0
  {
    SameProduct(aa, bb, l * l, r * r);
    assert m * m == (l * l) * (r * r);
    ProductPositive(l, r, m);
    FromSquares(d, m);
    Quotient(d, m);
  }

  lemma Quotient(d: real, m: real)
    requires m > 0.0 && -m <= d <= m
    ensures -1.0 <= d / m <= 1.0
  {
  }

  // ----- the vectors -----

  function Scale(v: seq<real>, norm: real): (r: seq<real>)
    requires norm != 0.0
    ensures |r| == |v| && forall i :: 0 <= i < |r| ==> r[i] == v[i] / norm
  {
    seq(|v|, i requires 0 <= i < |v| => v[i] / norm)
  }

  lemma {:induction false} DotScaled(v: seq<real>, norm: real, n: real)
    requires norm != 0.0 && n == norm * norm
    ensures Dot(Scale(v, norm), Scale(v, norm)) * n == Dot(v, v)
  {
    if v != [] {
      DotScaled(v[1..], norm, n);
      var w := Scale(v, norm);
      assert w[1..] == Scale(v[1..], norm);
      OneScaled(v[0], w[0], norm, n, Dot(w[1..], w[1..]), Dot(v[1..], v[1..]));
      assert Dot(w, w) == w[0] * w[0] + Dot(w[1..], w[1..]);
    }
  }

  lemma OneScaled(x: real, y: real, norm: real, n: real, d: real, e: real)
    requires norm != 0.0 && n == norm * norm && y == x / norm && d * n == e
    ensures (y * y + d) * n == x * x + e
  {
    assert y * norm == x;
    SameProduct(y * norm, y * norm, x, x);
    assert (y * norm) * (y * norm) == (y * y) * (norm * norm);
    SameProduct(y * y, n, y * y, norm * norm);
    assert (y * y + d) * n == (y * y) * n + d * n;
  }

  function WeightOf(byte: nat): real { byte as real / 255.0 * 2.0 - 1.0 }

  /** One token's two contributions. */
  function Accumulated(v: seq<real>, t: Digest): (r: seq<real>)
    requires |v| > 0
    ensures |r| == |v|
  {
    var a, b := t.wordA % |v|, t.wordB % |v|;
    var wa, wb := WeightOf(t.byteA), WeightOf(t.byteB);
    var first := v[a := v[a] + (if wa != 0.0 then wa else 1.0)];
    first[b := first[b] + (if wb != 0.0 then wb else -1.0)]
  }

  function AccumulatedAll(tokens: seq<Digest>, dims: nat): (r: seq<real>)
    requires dims > 0
    ensures |r| == dims
  {
    if tokens == [] then seq(dims, _ => 0.0)
    else Accumulated(AccumulatedAll(tokens[..|tokens| - 1], dims), tokens[|tokens| - 1])
  }

  lemma AccumulatedNext(tokens: seq<Digest>, i: nat, dims: nat)
    requires i < |tokens| && dims > 0
    ensures AccumulatedAll(tokens[..i + 1], dims) == Accumulated(AccumulatedAll(tokens[..i], dims), tokens[i])
  {
    assert tokens[..i + 1][..i] == tokens[..i];
  }

  function Normalised(v: seq<real>, sqrt: Sqrt): seq<real> {
    var norm := sqrt(Dot(v, v));
    if norm == 0.0 then v else Scale(v, norm)
  }

  /** One turn of the accumulating loop. */
  method AddToken(v: array<real>, t: Digest)
    requires v.Length > 0
    modifies v
    ensures v[..] == Accumulated(old(v[..]), t)
  {
    var a, b := t.wordA % v.Length, t.wordB % v.Length;
    var wa, wb := WeightOf(t.byteA), WeightOf(t.byteB);
    v[a] := v[a] + (if wa != 0.0 then wa else 1.0);
    v[b] := v[b] + (if wb != 0.0 then wb else -1.0);
  }

  /** `_hash_embed` on the digests of the tokens. */
  method HashEmbed(tokens: seq<Digest>, dims: nat, sqrt: Sqrt) returns (v: array<real>)
    requires dims > 0 && IsSqrt(sqrt)
    ensures fresh(v) && v[..] == Normalised(AccumulatedAll(tokens, dims), sqrt)
  {
    v := new real[dims](_ => 0.0);
    assert v[..] == AccumulatedAll([], dims);
    if tokens == [] {
      ZeroVector(v[..]);
      var root := Root(sqrt, 0.0);
      RootOfZero(root, 0.0);
      return;
    }
    var i := 0;
    while i < |tokens|
      invariant 0 <= i <= |tokens|
      invariant v[..] == AccumulatedAll(tokens[..i], dims)
    {
      AddToken(v, tokens[i]);
      AccumulatedNext(tokens, i, dims);
      i := i + 1;
    }
    assert tokens[..i] == tokens;
    var norm := sqrt(SumOfSquares(v));
    if norm == 0.0 { return; }
    var scaled := new real[dims](k requires 0 <= k < dims reads v => v[k] / norm);
    assert scaled[..] == Scale(v[..], norm);
    v := scaled;
  }

  function SumOfSquares(v: array<real>): (r: real)
    reads v
  {
    Dot(v[..], v[..])
  }

  predicate IsZero(v: seq<real>) { forall i :: 0 <= i < |v| ==> v[i] == 0.0 }

  lemma {:induction false} ZeroVector(v: seq<real>)
    requires IsZero(v)
    ensures Dot(v, v) == 0.0
  {
    if v != [] {
      ZeroVector(v[1..]);
      assert v[0] == 0.0;
      assert v[0] * v[0] == 0.0;
    }
  }

  lemma {:induction false} OnlyZeroVector(v: seq<real>)
    requires Dot(v, v) == 0.0
    ensures IsZero(v)
  {
    if v != [] {
      DotSelf(v[1..]);
      SquareNonNegative(v[0]);
      RootOfZero(v[0], v[0] * v[0]);
      OnlyZeroVector(v[1..]);
    }
  }

  /** Normalising gives the zero vector for the zero vector and a vector of length one for any other. */
  lemma ZeroOrUnit(v: seq<real>, sqrt: Sqrt)
    requires IsSqrt(sqrt)
    ensures var r := Normalised(v, sqrt);
            && |r| == |v|
            && (if IsZero(v) then r == v else Dot(r, r) == 1.0)
  {
    DotSelf(v);
    var norm := Root(sqrt, Dot(v, v));
    if norm == 0.0 {
      SameProduct(norm, norm, 0.0, 0.0);
      OnlyZeroVector(v);
    } else {
      DotScaled(v, norm, Dot(v, v));
      var d := Dot(Scale(v, norm), Scale(v, norm));
      SquarePositive(norm, Dot(v, v));
      UnitOf(d, Dot(v, v), d * Dot(v, v));
      if IsZero(v) { ZeroVector(v); }
    }
  }

  lemma UnitOf(d: real, n: real, product: real)
    requires n > 0.0 && product == d * n && product == n
    ensures d == 1.0
  {
    var e := d - 1.0;
    var excess := e * n;
    assert excess == product - n;
    if e > 0.0 { ProductPositive(e, n, excess); }
    if e < 0.0 { ProductPositive(-e, n, -excess); }
  }

  // ----- the scores -----

  /** `_vector_score` of two texts, given by the digests of their tokens. */
  function VectorScore(query: seq<Digest>, metric: seq<Digest>, dims: nat, sqrt: Sqrt): real
    requires dims > 0
  {
    var left, right := Normalised(AccumulatedAll(query, dims), sqrt), Normalised(AccumulatedAll(metric, dims), sqrt);
    Max(0.0, Cosine(left, right, sqrt))
  }

  function MergedScore(lexical: real, vector: real): real { 0.58 * lexical + 0.42 * vector }

  /** `_llm_rerank_score`, for any sum of boosts. */
  function RerankScore(merged: real, boost: real): real { Max(0.0, Min(1.0, merged + boost)) }

  lemma ScoresInUnit(query: seq<Digest>, metric: seq<Digest>, dims: nat, sqrt: Sqrt, lexical: real, boost: real)
    requires dims > 0 && IsSqrt(sqrt) && 0.0 <= lexical <= 1.0
    ensures var vector := VectorScore(query, metric, dims, sqrt);
            && 0.0 <= vector <= 1.0
            && 0.0 <= MergedScore(lexical, vector) <= 1.0
            && 0.0 <= RerankScore(MergedScore(lexical, vector), boost) <= 1.0
  {
    CosineBounds(Normalised(AccumulatedAll(query, dims), sqrt), Normalised(AccumulatedAll(metric, dims), sqrt), sqrt);
  }

  /** A text compared with itself scores 1, unless its vector is zero. */
  lemma SameTextScoresOne(text: seq<Digest>, dims: nat, sqrt: Sqrt)
    requires dims > 0 && IsSqrt(sqrt)
    ensures VectorScore(text, text, dims, sqrt)
         == if IsZero(AccumulatedAll(text, dims)) then 0.0 else 1.0
  {
    var v := AccumulatedAll(text, dims);
    ZeroOrUnit(v, sqrt);
    SelfCosine(Normalised(v, sqrt), sqrt);
    if IsZero(v) { ZeroVector(v); }
  }

  lemma WholeQuotient(d: real, n: real)
    requires d == n && n != 0.0
    ensures d / n == 1.0
  {
  }

  lemma RatioSelf(d: real, l: real)
    requires l != 0.0 && d == l * l
    ensures Ratio(d, l, l) == 1.0
  {
    ProductNonZero(l, l, d);
    WholeQuotient(d, l * l);
  }

  lemma SelfCosine(r: seq<real>, sqrt: Sqrt)
    requires IsSqrt(sqrt)
    ensures Cosine(r, r, sqrt) == if Dot(r, r) == 0.0 then 0.0 else 1.0
  {
    DotSelf(r);
    var norm := Root(sqrt, Dot(r, r));
    if norm == 0.0 {
      SameProduct(norm, norm, 0.0, 0.0);
    } else {
      SquarePositive(norm, Dot(r, r));
      RatioSelf(Dot(r, r), norm);
    }
  }
}
