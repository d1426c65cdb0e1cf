/** Cosine similarity over real vectors, with the square root as a parameter. */
module Similarity {

  function Dot(a: seq<real>, b: seq<real>): real
    requires |a| == |b|
  {
    if a == [] then 0.0
    else
      var n := |a| - 1;
      Dot(a[..n], b[..n]) + a[n] * b[n]
  }

  /** `sqrt` is the square root on the non-negative reals. */
  ghost predicate IsSqrt(sqrt: real -> real) {
    forall x: real | 0.0 <= x :: 0.0 <= sqrt(x) && sqrt(x) * sqrt(x) == x
  }

  lemma Square(x: real)
    ensures 0.0 <= x * x
  {
  }

  /** The step of Cauchy-Schwarz: one more pair of coordinates keeps the inequality. */
  lemma CauchyStep(d: real, p: real, q: real, x: real, y: real)
    requires 0.0 <= p && 0.0 <= q && d * d <= p * q
    ensures (d + x * y) * (d + x * y) <= (p + x * x) * (q + y * y)
  {
    var s := p * (y * y) + q * (x * x);
    Square(x);
    Square(y);
    assert 0.0 <= s;
    CrossTerm(d, p, q, x, y);
    assert 2.0 * d * (x * y) <= s;
    assert (d + x * y) * (d + x * y) == d * d + 2.0 * d * (x * y) + (x * x) * (y * y);
    assert (p + x * x) * (q + y * y) == p * q + s + (x * x) * (y * y);
  }

  lemma CrossTerm(d: real, p: real, q: real, x: real, y: real)
    requires 0.0 <= p && 0.0 <= q && d * d <= p * q
    ensures 2.0 * d * (x * y) <= p * (y * y) + q * (x * x)
  {
    var u, v, w, k := p * (y * y), q * (x * x), d * (x * y), (x * y) * (x * y);
    Square(x);
    Square(y);
    Square(x * y);
    Times(d * d, p * q, k);
    assert w * w == (d * d) * k by {
      Regroup(d, d, x * y, x * y);
    }
    assert u * v == (p * q) * k by {
      Regroup(p, q, y * y, x * x);
      Regroup(y, x, y, x);
    }
    NonNegativeProduct(p, y * y);
    NonNegativeProduct(q, x * x);
    MeanBound(u, v, w);
  }

  lemma Regroup(a: real, b: real, c: real, d: real)
    ensures (a * c) * (b * d) == (a * b) * (c * d)
  {
  }

  lemma NonNegativeProduct(a: real, b: real)
    requires 0.0 <= a && 0.0 <= b
    ensures 0.0 <= a * b
  {
  }

  lemma Times(a: real, b: real, k: real)
    requires a <= b && 0.0 <= k
    ensures a * k <= b * k
  {
  }

  lemma PositiveProduct(a: real, b: real)
    requires 0.0 < a && 0.0 < b
    ensures 0.0 < a * b
  {
  }

  lemma SquaresGrow(x: real, y: real)
    requires 0.0 <= x < y
    ensures x * x < y * y
  {
    PositiveProduct(y - x, y + x);
    assert (y - x) * (y + x) == y * y - x * x;
  }

  lemma RootOrder(x: real, y: real)
    requires 0.0 <= y && x * x <= y * y
    ensures -y <= x <= y
  {
    if y < x {
      SquaresGrow(y, x);
    } else if x < -y {
      SquaresGrow(y, -x);
    }
  }

  lemma MeanBound(u: real, v: real, w: real)
    requires 0.0 <= u && 0.0 <= v && w * w <= u * v
    ensures 2.0 * w <= u + v
  {
    Square(u - v);
    assert (u + v) * (u + v) == 4.0 * (u * v) + (u - v) * (u - v);
    assert (2.0 * w) * (2.0 * w) == 4.0 * (w * w);
    RootOrder(2.0 * w, u + v);
  }

  lemma {:induction false} NormNonNegative(a: seq<real>)
    ensures 0.0 <= Dot(a, a)
  {
    if a != [] {
      NormNonNegative(a[..|a| - 1]);
      Square(a[|a| - 1]);
    }
  }

  /** The inequality of Cauchy and Schwarz, for vectors of any length. */
  lemma {:induction false} CauchySchwarz(a: seq<real>, b: seq<real>)
    requires |a| == |b|
    ensures Dot(a, b) * Dot(a, b) <= Dot(a, a) * Dot(b, b)
  {
    if a != [] {
      var n := |a| - 1;
      CauchySchwarz(a[..n], b[..n]);
      NormNonNegative(a[..n]);
      NormNonNegative(b[..n]);
      CauchyStep(Dot(a[..n], b[..n]), Dot(a[..n], a[..n]), Dot(b[..n], b[..n]), a[n], b[n]);
    }
  }

  datatype Similarity = Mismatch | Of(value: real)

  /** The three accumulators, and the quotient unless a norm is zero. */
  method CosineSimilarity(a: seq<real>, b: seq<real>, sqrt: real -> real) returns (r: Similarity)
    requires IsSqrt(sqrt)
    ensures r.Mismatch? <==> |a| != |b|
    ensures r.Of? ==> -1.0 <= r.value <= 1.0
    ensures r.Of? ==> r.value * (sqrt(Dot(a, a)) * sqrt(Dot(b, b))) == Dot(a, b)
    ensures r.Of? && (Dot(a, a) == 0.0 || Dot(b, b) == 0.0) ==> r.value == 0.0
    ensures r.Of? ==> ReachesBound(a, b, r.value)
  {
    if |a| != |b| {
      return Mismatch;
    }
    var dotProduct, normA, normB := 0.0, 0.0, 0.0;
    for i := 0 to |a|
      invariant dotProduct == Dot(a[..i], b[..i]) && normA == Dot(a[..i], a[..i]) && normB == Dot(b[..i], b[..i])
    {
      assert a[..i + 1][..i] == a[..i] && b[..i + 1][..i] == b[..i];
      dotProduct := dotProduct + a[i] * b[i];
      normA := normA + a[i] * a[i];
      normB := normB + b[i] * b[i];
    }
    assert a[..|a|] == a && b[..|b|] == b;
    CauchySchwarz(a, b);
    NormNonNegative(a);
    NormNonNegative(b);
    if normA == 0.0 || normB == 0.0 {
      ZeroNorm(dotProduct, normA, normB);
      ZeroIsNotScaled(a, b);
      return Of(0.0);
    }
    var ra, rb := sqrt(normA), sqrt(normB);
    QuotientInRange(dotProduct, normA, normB, ra, rb);
    ParallelValue(a, b, ra, rb);
    return Of(dotProduct / (ra * rb));
  }

  /** A vector and a non-zero multiple of it that is not zero have similarity 1 or -1. */
  ghost predicate ReachesBound(a: seq<real>, b: seq<real>, value: real)
    requires |a| == |b|
  {
    forall c: real | c != 0.0 && a == Scaled(c, b) && Dot(b, b) != 0.0 :: value == if c > 0.0 then 1.0 else -1.0
  }

  lemma ParallelValue(a: seq<real>, b: seq<real>, ra: real, rb: real)
    requires |a| == |b| && 0.0 <= ra && 0.0 <= rb && ra * ra == Dot(a, a) && rb * rb == Dot(b, b) && 0.0 < ra * rb
    ensures ReachesBound(a, b, Dot(a, b) / (ra * rb))
  {
    forall c: real | c != 0.0 && a == Scaled(c, b) && Dot(b, b) != 0.0
      ensures Dot(a, b) / (ra * rb) == if c > 0.0 then 1.0 else -1.0
    {
      MultipleValue(c, b, ra, rb);
    }
  }

  lemma MultipleValue(c: real, b: seq<real>, ra: real, rb: real)
    requires c != 0.0 && Dot(b, b) != 0.0 && 0.0 <= ra && 0.0 <= rb && 0.0 < ra * rb
    requires ra * ra == Dot(Scaled(c, b), Scaled(c, b)) && rb * rb == Dot(b, b)
    ensures Dot(Scaled(c, b), b) / (ra * rb) == if c > 0.0 then 1.0 else -1.0
  {
    var n := Dot(b, b);
    NormNonNegative(b);
    ScaledNorms(c, b);
    ParallelQuotient(c, n, Dot(Scaled(c, b), b), ra, rb);
  }

  lemma ZeroNorm(d: real, p: real, q: real)
    requires d * d <= p * q && (p == 0.0 || q == 0.0)
    ensures d == 0.0
  {
    assert d * d <= 0.0 * 0.0;
    RootOrder(d, 0.0);
  }

  lemma QuotientInRange(d: real, p: real, q: real, ra: real, rb: real)
    requires 0.0 < p && 0.0 < q && 0.0 <= ra && 0.0 <= rb && ra * ra == p && rb * rb == q && d * d <= p * q
    ensures 0.0 < ra * rb && -1.0 <= d / (ra * rb) <= 1.0
  {
    var m := ra * rb;
    assert ra != 0.0 && rb != 0.0;
    assert 0.0 < m;
    Regroup(ra, rb, ra, rb);
    RootOrder(d, m);
    Divide(d, m);
  }

  lemma Divide(d: real, m: real)
    requires 0.0 < m && -m <= d <= m
    ensures -1.0 <= d / m <= 1.0
  {
    assert d / m <= m / m;
    assert (-m) / m <= d / m;
  }

  // ----- What the value means -----

  /** Every coordinate counts: changing one changes the product by exactly its share. */
  lemma {:induction false} DotAt(a: seq<real>, b: seq<real>, i: nat, x: real)
    requires |a| == |b| && i < |a|
    ensures Dot(a[i := x], b) == Dot(a, b) + (x - a[i]) * b[i]
  {
    var n := |a| - 1;
    if i == n {
      assert a[i := x][..n] == a[..n];
    } else {
      assert a[i := x][..n] == a[..n][i := x];
      DotAt(a[..n], b[..n], i, x);
    }
  }

  /** The zero vector has product zero with every vector. */
  lemma {:induction false} DotOfZero(a: seq<real>, b: seq<real>)
    requires |a| == |b| && forall i | 0 <= i < |a| :: a[i] == 0.0
    ensures Dot(a, b) == 0.0
  {
    if a != [] {
      DotOfZero(a[..|a| - 1], b[..|b| - 1]);
    }
  }

  lemma {:induction false} DotCommutes(a: seq<real>, b: seq<real>)
    requires |a| == |b|
    ensures Dot(a, b) == Dot(b, a)
  {
    if a != [] {
      DotCommutes(a[..|a| - 1], b[..|b| - 1]);
    }
  }

  function Scaled(c: real, a: seq<real>): (r: seq<real>)
    ensures |r| == |a|
  {
    if a == [] then [] else Scaled(c, a[..|a| - 1]) + [c * a[|a| - 1]]
  }

  lemma {:induction false} DotScales(c: real, a: seq<real>, b: seq<real>)
    requires |a| == |b|
    ensures Dot(Scaled(c, a), b) == c * Dot(a, b)
  {
    if a != [] {
      var n := |a| - 1;
      DotScales(c, a[..n], b[..n]);
      assert Scaled(c, a)[..n] == Scaled(c, a[..n]);
      assert c * (Dot(a[..n], b[..n]) + a[n] * b[n]) == c * Dot(a[..n], b[..n]) + (c * a[n]) * b[n];
    }
  }

  lemma ScaledNorms(c: real, a: seq<real>)
    ensures Dot(Scaled(c, a), a) == c * Dot(a, a)
    ensures Dot(Scaled(c, a), Scaled(c, a)) == c * (c * Dot(a, a))
  {
    DotScales(c, a, a);
    DotScales(c, a, Scaled(c, a));
    DotCommutes(a, Scaled(c, a));
  }

  lemma ZeroIsNotScaled(a: seq<real>, b: seq<real>)
    requires |a| == |b| && (Dot(a, a) == 0.0 || Dot(b, b) == 0.0)
    ensures ReachesBound(a, b, 0.0)
  {
    forall c: real | c != 0.0 && Dot(b, b) != 0.0
      ensures a != Scaled(c, b)
    {
      MultipleIsNotZero(c, b);
    }
  }

  lemma MultipleIsNotZero(c: real, b: seq<real>)
    requires c != 0.0 && Dot(b, b) != 0.0
    ensures Dot(Scaled(c, b), Scaled(c, b)) != 0.0
  {
    ScaledNorms(c, b);
    NonZeroProduct(c, Dot(b, b));
    NonZeroProduct(c, c * Dot(b, b));
  }

  lemma NonZeroProduct(x: real, y: real)
    requires x != 0.0 && y != 0.0
    ensures x * y != 0.0
  {
  }

  lemma SameSquares(x: real, y: real)
    requires 0.0 <= x && 0.0 <= y && x * x == y * y
    ensures x == y
  {
    RootOrder(x, y);
    RootOrder(y, x);
  }

  /** The quotient of a vector with norm `rb` and its multiple with norm `ra`. */
  lemma ParallelQuotient(c: real, n: real, d: real, ra: real, rb: real)
    requires d == c * n && c != 0.0 && 0.0 < n && 0.0 <= ra && 0.0 <= rb && rb * rb == n && ra * ra == c * (c * n)
    requires ra * rb != 0.0
    ensures d / (ra * rb) == if c > 0.0 then 1.0 else -1.0
  {
    var m := if c > 0.0 then c * n else (-c) * n;
    Regroup(ra, rb, ra, rb);
    assert m * m == (c * (c * n)) * n by {
      SquareOfMultiple(c, n);
    }
    NonNegativeProduct(ra, rb);
    NonNegativeProduct(if c > 0.0 then c else -c, n);
    SameSquares(ra * rb, m);
    assert c > 0.0 ==> d == m;
    assert c < 0.0 ==> d == -m;
    Quotients(m);
  }

  lemma SquareOfMultiple(c: real, n: real)
    ensures (c * n) * (c * n) == (c * (c * n)) * n
    ensures ((-c) * n) * ((-c) * n) == (c * (c * n)) * n
  {
  }

  lemma Quotients(m: real)
    requires m != 0.0
    ensures m / m == 1.0 && (-m) / m == -1.0
  {
  }
}
