/** Real vectors, and why a cosine lies between -1 and 1. */
module Vectors {

  type Vector = seq<real>

  function Dot(a: Vector, b: Vector): real
    requires |a| == |b|
  {
    if a == [] then 0.0 else a[0] * b[0] + Dot(a[1..], b[1..])
  }

  /** An exact, non-negative Euclidean norm. */
  ghost predicate IsNorm(norm: Vector -> real) {
    forall v: Vector :: norm(v) >= 0.0 && norm(v) * norm(v) == Dot(v, v)
  }

  /** `cosine_similarity` */
  function CosineSimilarity(a: Vector, b: Vector, norm: Vector -> real): real {
    if |a| != |b| || a == [] then 0.0
    else if norm(a) == 0.0 || norm(b) == 0.0 then 0.0
    else Dot(a, b) / (norm(a) * norm(b))
  }

  /** The squared length of `p a - q b`. */
  function Residual(a: Vector, b: Vector, p: real, q: real): (r: real)
    requires |a| == |b|
    ensures r >= 0.0
  {
    if a == [] then 0.0
    else
      var d := p * a[0] - q * b[0];
      assert d * d >= 0.0;
      d * d + Residual(a[1..], b[1..], p, q)
  }

  lemma {:induction false} ResidualExpands(a: Vector, b: Vector, p: real, q: real)
    requires |a| == |b|
    ensures Residual(a, b, p, q) == p * p * Dot(a, a) - 2.0 * p * q * Dot(a, b) + q * q * Dot(b, b)
  {
    if a == [] {
    } else {
      var x, y := a[0], b[0];
      var aa, ab, bb := Dot(a[1..], a[1..]), Dot(a[1..], b[1..]), Dot(b[1..], b[1..]);
      ResidualExpands(a[1..], b[1..], p, q);
      SquareOfDifference(p, x, q, y);
      Distribute(p * p, x * x, aa);
      Distribute(2.0 * p * q, x * y, ab);
      Distribute(q * q, y * y, bb);
    }
  }

  lemma SquareOfDifference(p: real, x: real, q: real, y: real)
    ensures (p * x - q * y) * (p * x - q * y) == p * p * (x * x) - 2.0 * p * q * (x * y) + q * q * (y * y)
  {
    var u, v := p * x, q * y;
    assert (u - v) * (u - v) == u * u - 2.0 * (u * v) + v * v;
    assert u * u == p * p * (x * x);
    assert v * v == q * q * (y * y);
    assert u * v == p * q * (x * y);
  }

  lemma Distribute(c: real, x: real, y: real)
    ensures c * (x + y) == c * x + c * y
  {
  }

  lemma {:induction false} SelfDotIsNonNegative(b: Vector)
    ensures Dot(b, b) >= 0.0
  {
    if b == [] {
    } else {
      SelfDotIsNonNegative(b[1..]);
      assert b[0] * b[0] >= 0.0;
    }
  }

  lemma {:induction false} DotCommutes(a: Vector, b: Vector)
    requires |a| == |b|
    ensures Dot(a, b) == Dot(b, a)
  {
    if a == [] {
    } else {
      DotCommutes(a[1..], b[1..]);
    }
  }

  /** The Cauchy-Schwarz inequality. */
  lemma CauchySchwarz(a: Vector, b: Vector)
    requires |a| == |b|
    ensures Dot(a, b) * Dot(a, b) <= Dot(a, a) * Dot(b, b)
  {
    hide Dot, Residual;
    SelfDotIsNonNegative(a);
    SelfDotIsNonNegative(b);
    if Dot(b, b) > 0.0 {
      CauchySchwarzNonNull(a, b);
    } else if Dot(a, a) > 0.0 {
      CauchySchwarzNonNull(b, a);
      DotCommutes(a, b);
    } else {
      ResidualExpands(a, b, 1.0, 1.0);
      ResidualExpands(a, b, 1.0, -1.0);
    }
  }

  lemma CauchySchwarzNonNull(a: Vector, b: Vector)
    requires |a| == |b| && Dot(b, b) > 0.0
    ensures Dot(a, b) * Dot(a, b) <= Dot(a, a) * Dot(b, b)
  {
    hide Dot, Residual;
    ResidualExpands(a, b, Dot(b, b), Dot(a, b));
    FactorResidual(Residual(a, b, Dot(b, b), Dot(a, b)), Dot(a, a), Dot(a, b), Dot(b, b));
  }

  lemma FactorResidual(r: real, aa: real, ab: real, bb: real)
    requires bb > 0.0 && r >= 0.0
    requires r == bb * bb * aa - 2.0 * bb * ab * ab + ab * ab * bb
    ensures ab * ab <= aa * bb
  {
    var gap := aa * bb - ab * ab;
    assert r == bb * gap by {
      assert bb * bb * aa == bb * (aa * bb);
      assert 2.0 * bb * ab * ab == 2.0 * (bb * (ab * ab)) && ab * ab * bb == bb * (ab * ab);
    }
    SignOfFactor(bb, gap);
  }

  lemma SignOfFactor(x: real, y: real)
    requires x > 0.0 && x * y >= 0.0
    ensures y >= 0.0
  {
  }

  /** With an exact norm every cosine lies between -1 and 1. */
  lemma CosineIsBounded(a: Vector, b: Vector, norm: Vector -> real)
    requires IsNorm(norm)
    ensures -1.0 <= CosineSimilarity(a, b, norm) <= 1.0
  {
    if |a| == |b| && a != [] && norm(a) != 0.0 && norm(b) != 0.0 {
      CauchySchwarz(a, b);
      var x, y, d := norm(a), norm(b), Dot(a, b);
      var n := x * y;
      assert x > 0.0 && y > 0.0;
      PositiveProduct(x, y);
      assert n * n == (x * x) * (y * y);
      assert d * d <= n * n;
      RootBound(d, n);
      QuotientBound(d, n);
      assert CosineSimilarity(a, b, norm) == d / n;
    }
  }

  lemma PositiveProduct(x: real, y: real)
    requires x > 0.0 && y > 0.0
    ensures x * y > 0.0
  {
  }

  lemma RootBound(d: real, n: real)
    requires n > 0.0 && d * d <= n * n
    ensures -n <= d <= n
  {
    SquaresAreOrdered(n, d);
    SquaresAreOrdered(n, -d);
    assert (-d) * (-d) == d * d;
  }

  lemma SquaresAreOrdered(n: real, d: real)
    ensures 0.0 < n < d ==> n * n < d * d
  {
    if 0.0 < n < d {
      assert n * (d - n) > 0.0;
      assert d * (d - n) > 0.0;
    }
  }

  lemma QuotientBound(d: real, n: real)
    requires n > 0.0 && -n <= d <= n
    ensures -1.0 <= d / n <= 1.0
  {
    var q := d / n;
    assert q * n == d;
  }
}
