/** The coordinates of the hashed vectors and the scores, with their weights as numbers. */
module EmbeddingMeaning {
  import opened Numbers
  import opened Embedding

  /** A byte as a weight between -1 and 1. */
  function ByteWeight(byte: nat): real { (2 * byte - 255) as real / 255.0 }

  /** What the tokens add to coordinate `i` of a vector with `dims` coordinates. */
  function Coordinate(tokens: seq<Digest>, dims: nat, i: nat): real
    requires dims > 0
  {
    if tokens == [] then 0.0
    else (if tokens[0].wordA % dims == i then ByteWeight(tokens[0].byteA) else 0.0)
         + (if tokens[0].wordB % dims == i then ByteWeight(tokens[0].byteB) else 0.0)
         + Coordinate(tokens[1..], dims, i)
  }

  /** No byte has weight zero, so the weights that the source keeps for that case are never used. */
  lemma NoZeroWeight(byte: nat)
    ensures WeightOf(byte) == ByteWeight(byte) != 0.0
  {
    var n := 2 * byte - 255;
    assert n != 0;
    assert WeightOf(byte) * 255.0 == n as real;
  }

  lemma OneToken(v: seq<real>, t: Digest, i: nat)
    requires i < |v|
    ensures Accumulated(v, t)[i]
         == v[i] + (if t.wordA % |v| == i then ByteWeight(t.byteA) else 0.0)
            + (if t.wordB % |v| == i then ByteWeight(t.byteB) else 0.0)
  {
    NoZeroWeight(t.byteA);
    NoZeroWeight(t.byteB);
  }

  lemma {:induction false} CoordinateAppend(tokens: seq<Digest>, last: Digest, dims: nat, i: nat)
    requires dims > 0
    ensures Coordinate(tokens + [last], dims, i) == Coordinate(tokens, dims, i) + Coordinate([last], dims, i)
  {
    if tokens == [] {
      assert tokens + [last] == [last];
    } else {
      CoordinateAppend(tokens[1..], last, dims, i);
      assert (tokens + [last])[1..] == tokens[1..] + [last];
    }
  }

  lemma OnlyToken(t: Digest, dims: nat, i: nat)
    requires dims > 0
    ensures Coordinate([t], dims, i)
         == (if t.wordA % dims == i then ByteWeight(t.byteA) else 0.0)
            + (if t.wordB % dims == i then ByteWeight(t.byteB) else 0.0)
  {
    assert [t][1..] == [];
  }

  /** Each coordinate is the sum of the weights of the bytes whose word falls on it. */
  lemma {:induction false} CoordinatesInFull(tokens: seq<Digest>, dims: nat, i: nat)
    requires i < dims
    ensures AccumulatedAll(tokens, dims)[i] == Coordinate(tokens, dims, i)
  {
    if tokens != [] {
      var front, last := tokens[..|tokens| - 1], tokens[|tokens| - 1];
      CoordinatesInFull(front, dims, i);
      OneToken(AccumulatedAll(front, dims), last, i);
      CoordinateAppend(front, last, dims, i);
      OnlyToken(last, dims, i);
      assert tokens == front + [last];
    }
  }

  lemma Divided(x: real, norm: real)
    requires norm != 0.0
    ensures x / norm * norm == x
  {
  }

  lemma LengthPositive(v: seq<real>, sqrt: Sqrt, length: real)
    requires IsSqrt(sqrt) && !IsZero(v) && length == sqrt(Dot(v, v))
    ensures length > 0.0
  {
    DotSelf(v);
    var root := Root(sqrt, Dot(v, v));
    if length == 0.0 {
      SameProduct(length, length, 0.0, 0.0);
      OnlyZeroVector(v);
    }
  }

  /** Normalising keeps the direction: every coordinate is the one of the vector over its length. */
  lemma NormalisedInFull(v: seq<real>, sqrt: Sqrt, length: real, i: nat)
    requires IsSqrt(sqrt) && i < |v| && !IsZero(v) && length == sqrt(Dot(v, v))
    ensures length > 0.0 && Normalised(v, sqrt)[i] == v[i] / length
  {
    LengthPositive(v, sqrt, length);
  }

  lemma RatioTimes(d: real, l: real, r: real, product: real, ratio: real)
    requires l > 0.0 && r > 0.0 && product == l * r && ratio == Ratio(d, l, r)
    ensures ratio * product == d
  {
    ProductPositive(l, r, product);
    Divided(d, product);
  }

  /** The cosine times the two lengths is the inner product; it is 0 when a vector has no length. */
  lemma CosineInFull(left: seq<real>, right: seq<real>, sqrt: Sqrt, l: real, r: real, product: real, cosine: real)
    requires IsSqrt(sqrt) && l == sqrt(Dot(left, left)) && r == sqrt(Dot(right, right)) && product == l * r
    requires cosine == Cosine(left, right, sqrt)
    ensures l == 0.0 || r == 0.0 ==> cosine == 0.0
    ensures l != 0.0 && r != 0.0 ==> cosine * product == Dot(left, right)
  {
    DotSelf(left);
    DotSelf(right);
    var root := Root(sqrt, Dot(left, left));
    var other := Root(sqrt, Dot(right, right));
    if l != 0.0 && r != 0.0 { RatioTimes(Dot(left, right), l, r, product, cosine); }
  }

  /** 58 parts of one score and 42 of the other; a score with its boosts is kept between 0 and 1; and a negative cosine
      counts as 0. */
  lemma ScoresInFull(query: seq<Digest>, metric: seq<Digest>, dims: nat, sqrt: Sqrt, lexical: real, vector: real,
                     merged: real, boost: real)
    requires dims > 0
    ensures 100.0 * MergedScore(lexical, vector) == 58.0 * lexical + 42.0 * vector
    ensures RerankScore(merged, boost)
         == if merged + boost < 0.0 then 0.0 else if merged + boost > 1.0 then 1.0 else merged + boost
    ensures var (left, right) := (Normalised(AccumulatedAll(query, dims), sqrt),
                                  Normalised(AccumulatedAll(metric, dims), sqrt));
            VectorScore(query, metric, dims, sqrt)
            == if Cosine(left, right, sqrt) > 0.0 then Cosine(left, right, sqrt) else 0.0
  {
  }
}
