/** The algebra behind BiQuad::poles, BiQuad::zeros and BiQuad::stable: the
    quadratic formula evaluated with a principal complex square root, and the
    test that both poles lie strictly inside the unit circle.

    Dafny has no square root, so std::sqrt is a parameter: any function that
    returns the non-negative square root of a non-negative real. Every result
    below holds for every such function. */
module Roots {
  import opened Complex

  /** `sqrt` behaves as std::sqrt on the non-negative reals. */
  ghost predicate IsSqrt(sqrt: real -> real)
  {
    forall x :: 0.0 <= x ==> 0.0 <= sqrt(x) && sqrt(x) * sqrt(x) == x
  }

  /** std::sqrt of the complex number (d, +0): the root with non-negative
      real part, and on the imaginary axis the one with non-negative
      imaginary part. */
  function PrincipalSqrt(d: real, sqrt: real -> real): (ds: Complex)
    requires IsSqrt(sqrt)
    ensures 0.0 <= ds.re && 0.0 <= ds.im
    ensures ds.re == 0.0 || ds.im == 0.0
  {
    if 0.0 <= d then Complex(sqrt(d), 0.0) else Complex(0.0, sqrt(-d))
  }

  /** The principal square root squares back to d. */
  lemma PrincipalSqrtSquares(d: real, sqrt: real -> real)
    requires IsSqrt(sqrt)
    ensures Mul(PrincipalSqrt(d, sqrt), PrincipalSqrt(d, sqrt)) == Real(d)
  {
    if 0.0 <= d {
      var r := sqrt(d);
      assert r * r == d;
    } else {
      var r := sqrt(-d);
      assert r * r == -d;
    }
  }

  /** The value of a*z^2 + b*z + c at a complex point z. */
  function Quadratic(a: real, b: real, c: real, z: Complex): Complex
  {
    Add(Add(Scale(a, Mul(z, z)), Scale(b, z)), Real(c))
  }

  /** Two numbers whose sum is -p and whose product is q are both roots of
      z^2 + p*z + q (the converse of Vieta's formulas). */
  lemma {:induction false} VietaRoots(p: real, q: real, z1: Complex, z2: Complex)
    requires Add(z1, z2) == Real(-p) && Mul(z1, z2) == Real(q)
    ensures Quadratic(1.0, p, q, z1) == Real(0.0)
    ensures Quadratic(1.0, p, q, z2) == Real(0.0)
  {
    assert z2 == Complex(-p - z1.re, -z1.im);
    assert z1 == Complex(-p - z2.re, -z2.im);
  }

  /** The poles of a normalised section, as BiQuad::poles computes them:
      0.5*(-a1 + ds) and 0.5*(-a1 - ds) with ds the principal square root of
      a1^2 - 4*a2, in that order. */
  function PolePair(a1: real, a2: real, sqrt: real -> real): (ps: seq<Complex>)
    requires IsSqrt(sqrt)
    ensures |ps| == 2 && Add(ps[0], ps[1]) == Real(-a1)
  {
    var ds := PrincipalSqrt(a1 * a1 - 4.0 * a2, sqrt);
    [Scale(0.5, Add(Real(-a1), ds)), Scale(0.5, Sub(Real(-a1), ds))]
  }

  /** The two poles multiply to a2 and are the two roots of z^2 + a1*z + a2. */
  lemma PolesAreRoots(a1: real, a2: real, sqrt: real -> real)
    requires IsSqrt(sqrt)
    ensures Mul(PolePair(a1, a2, sqrt)[0], PolePair(a1, a2, sqrt)[1]) == Real(a2)
    ensures forall k :: 0 <= k < |PolePair(a1, a2, sqrt)| ==> Quadratic(1.0, a1, a2, PolePair(a1, a2, sqrt)[k]) == Real(0.0)
  {
    var ps := PolePair(a1, a2, sqrt);
    PrincipalSqrtSquares(a1 * a1 - 4.0 * a2, sqrt);
    QuadraticFormula(a1, a2, PrincipalSqrt(a1 * a1 - 4.0 * a2, sqrt));
    VietaRoots(a1, a2, ps[0], ps[1]);
  }

  /** The quadratic formula: with ds*ds == p^2 - 4*q, the numbers
      0.5*(-p + ds) and 0.5*(-p - ds) sum to -p and multiply to q. */
  lemma QuadraticFormula(p: real, q: real, ds: Complex)
    requires Mul(ds, ds) == Real(p * p - 4.0 * q)
    ensures Add(Scale(0.5, Add(Real(-p), ds)), Scale(0.5, Sub(Real(-p), ds))) == Real(-p)
    ensures Mul(Scale(0.5, Add(Real(-p), ds)), Scale(0.5, Sub(Real(-p), ds))) == Real(q)
  {
    var u, v := ds.re, ds.im;
    assert u * u - v * v == p * p - 4.0 * q;
    assert u * v + v * u == 0.0;
    var z1 := Scale(0.5, Add(Real(-p), ds));
    var z2 := Scale(0.5, Sub(Real(-p), ds));
    assert z1 == Complex(0.5 * (u - p), 0.5 * v);
    assert z2 == Complex(-0.5 * (u + p), -0.5 * v);
    assert z1.re * z2.re - z1.im * z2.im == 0.25 * (p * p - (u * u - v * v));
    assert z1.re * z2.im + z1.im * z2.re == -0.25 * (u * v + v * u);
  }

  /** The zeros of a section, as BiQuad::zeros computes them:
      0.5*(-b1 + ds)/b0 and 0.5*(-b1 - ds)/b0 with ds the principal square
      root of b1^2 - 4*b0*b2, in that order. */
  function ZeroPair(b0: real, b1: real, b2: real, sqrt: real -> real): (zs: seq<Complex>)
    requires IsSqrt(sqrt)
    requires b0 != 0.0
    ensures |zs| == 2
  {
    var ds := PrincipalSqrt(b1 * b1 - 4.0 * b0 * b2, sqrt);
    [DivReal(Scale(0.5, Add(Real(-b1), ds)), b0), DivReal(Scale(0.5, Sub(Real(-b1), ds)), b0)]
  }

  /** The two zeros sum to -b1/b0, multiply to b2/b0 and are the two roots of
      z^2 + (b1/b0)*z + b2/b0, that is of b0*z^2 + b1*z + b2. */
  lemma {:induction false} ZerosAreRoots(b0: real, b1: real, b2: real, sqrt: real -> real)
    requires IsSqrt(sqrt) && b0 != 0.0
    ensures var zs := ZeroPair(b0, b1, b2, sqrt);
      Add(zs[0], zs[1]) == Real(-b1 / b0) && Mul(zs[0], zs[1]) == Real(b2 / b0)
    ensures forall k :: 0 <= k < |ZeroPair(b0, b1, b2, sqrt)| ==> Quadratic(1.0, b1 / b0, b2 / b0, ZeroPair(b0, b1, b2, sqrt)[k]) == Real(0.0)
  {
    PrincipalSqrtSquares(b1 * b1 - 4.0 * b0 * b2, sqrt);
    ScaledRoots(b0, b1, b2, PrincipalSqrt(b1 * b1 - 4.0 * b0 * b2, sqrt), ZeroPair(b0, b1, b2, sqrt));
  }

  /** ZerosAreRoots for a given square root ds of the discriminant. */
  lemma ScaledRoots(b0: real, b1: real, b2: real, ds: Complex, zs: seq<Complex>)
    requires b0 != 0.0 && Mul(ds, ds) == Real(b1 * b1 - 4.0 * b0 * b2)
    requires zs == [DivReal(Scale(0.5, Add(Real(-b1), ds)), b0), DivReal(Scale(0.5, Sub(Real(-b1), ds)), b0)]
    ensures Add(zs[0], zs[1]) == Real(-b1 / b0) && Mul(zs[0], zs[1]) == Real(b2 / b0)
    ensures forall k :: 0 <= k < |zs| ==> Quadratic(1.0, b1 / b0, b2 / b0, zs[k]) == Real(0.0)
  {
    var w1, w2 := Scale(0.5, Add(Real(-b1), ds)), Scale(0.5, Sub(Real(-b1), ds));
    QuadraticFormula(b1, b0 * b2, ds);
    DivIsScale(w1, b0);
    DivIsScale(w2, b0);
    ScaledPair(1.0 / b0, w1, w2, -b1, b0 * b2);
    DivisionFacts(b0, b1, b2);
    VietaRoots(b1 / b0, b2 / b0, zs[0], zs[1]);
  }

  lemma DivisionFacts(b0: real, b1: real, b2: real)
    requires b0 != 0.0
    ensures (1.0 / b0) * -b1 == -b1 / b0 == -(b1 / b0)
    ensures (1.0 / b0) * (1.0 / b0) * (b0 * b2) == b2 / b0
  {
    assert (1.0 / b0) * b0 == 1.0;
  }

  /** Dividing by a non-zero k is scaling by 1/k. */
  lemma DivIsScale(w: Complex, k: real)
    requires k != 0.0
    ensures DivReal(w, k) == Scale(1.0 / k, w)
  {
    assert w.re / k == (1.0 / k) * w.re;
    assert w.im / k == (1.0 / k) * w.im;
  }

  /** Scaling two numbers by c scales their sum by c and their product by c^2. */
  lemma ScaledPair(c: real, w1: Complex, w2: Complex, s: real, p: real)
    requires Add(w1, w2) == Real(s) && Mul(w1, w2) == Real(p)
    ensures Add(Scale(c, w1), Scale(c, w2)) == Real(c * s)
    ensures Mul(Scale(c, w1), Scale(c, w2)) == Real(c * c * p)
  {
    ScaledParts(c, w1.re, w1.im, w2.re, w2.im, s, p);
  }

  /** ScaledPair on the real and imaginary parts. */
  lemma ScaledParts(c: real, x1: real, y1: real, x2: real, y2: real, s: real, p: real)
    requires x1 + x2 == s && y1 + y2 == 0.0 && x1 * x2 - y1 * y2 == p && x1 * y2 + y1 * x2 == 0.0
    ensures c * x1 + c * x2 == c * s && c * y1 + c * y2 == 0.0
    ensures (c * x1) * (c * x2) - (c * y1) * (c * y2) == c * c * p
    ensures (c * x1) * (c * y2) + (c * y1) * (c * x2) == 0.0
  {
    assert (c * x1) * (c * x2) - (c * y1) * (c * y2) == c * c * (x1 * x2 - y1 * y2);
    assert (c * x1) * (c * y2) + (c * y1) * (c * x2) == c * c * (x1 * y2 + y1 * x2);
  }

  /** std::abs(z) < 1, stated without the square root of the modulus. */
  predicate InsideUnitCircle(z: Complex)
  {
    NormSq(z) < 1.0
  }

  predicate AllInside(ps: seq<Complex>)
  {
    forall k :: 0 <= k < |ps| ==> InsideUnitCircle(ps[k])
  }

  /** The stability triangle of the second-order polynomial z^2 + a1*z + a2
      (the Jury criterion), a test on the coefficients alone. */
  predicate StabilityTriangle(a1: real, a2: real)
  {
    -1.0 < a2 < 1.0 && -(1.0 + a2) < a1 < 1.0 + a2
  }

  /** For k > 0: x*x < k*k exactly when -k < x < k. */
  lemma SquareBelow(x: real, k: real)
    requires 0.0 < k
    ensures x * x < k * k <==> -k < x < k
  {
    assert k * k - x * x == (k - x) * (k + x);
    if -k < x < k {
      assert 0.0 < (k - x) * (k + x);
    } else if x <= -k {
      assert (k - x) * (k + x) <= 0.0 by {
        assert 0.0 <= k - x && k + x <= 0.0;
      }
    } else {
      assert (k - x) * (k + x) <= 0.0 by {
        assert k - x <= 0.0 && 0.0 <= k + x;
      }
    }
  }

  /** Real poles (non-negative discriminant, r its root): both lie in the open
      unit interval exactly when the stability triangle holds. */
  lemma RealPolesInside(a1: real, a2: real, r: real)
    requires 0.0 <= r && r * r == a1 * a1 - 4.0 * a2
    ensures (-1.0 < 0.5 * (r - a1) < 1.0 && -1.0 < 0.5 * (-a1 - r) < 1.0) <==> StabilityTriangle(a1, a2)
  {
    assert (-1.0 < 0.5 * (r - a1) < 1.0 && -1.0 < 0.5 * (-a1 - r) < 1.0) <==> (r < 2.0 + a1 && r < 2.0 - a1);
    if 0.0 < 2.0 + a1 {
      SquareBelow(r, 2.0 + a1);
    }
    if 0.0 < 2.0 - a1 {
      SquareBelow(r, 2.0 - a1);
    }
    assert (2.0 + a1) * (2.0 + a1) == 4.0 + 4.0 * a1 + a1 * a1;
    assert (2.0 - a1) * (2.0 - a1) == 4.0 - 4.0 * a1 + a1 * a1;
    assert (r < 2.0 + a1 && r < 2.0 - a1) <==> (-2.0 < a1 < 2.0 && -1.0 - a1 < a2 && a1 - 1.0 < a2);
    if -2.0 < a1 < 2.0 {
      SquareBelow(a1, 2.0);
      assert a2 < 1.0;
    }
  }

  /** Complex poles (negative discriminant): both have squared modulus a2,
      and the stability triangle then reduces to a2 < 1. */
  lemma ComplexPolesInside(a1: real, a2: real, r: real)
    requires a1 * a1 - 4.0 * a2 < 0.0
    requires 0.0 <= r && r * r == -(a1 * a1 - 4.0 * a2)
    ensures NormSq(Complex(-0.5 * a1, 0.5 * r)) == a2
    ensures NormSq(Complex(-0.5 * a1, -0.5 * r)) == a2
    ensures a2 < 1.0 <==> StabilityTriangle(a1, a2)
  {
    assert 0.0 < a2 by {
      assert 0.0 <= a1 * a1;
    }
    assert (1.0 + a2) * (1.0 + a2) - a1 * a1 > (1.0 - a2) * (1.0 - a2) by {
      assert (1.0 + a2) * (1.0 + a2) - 4.0 * a2 == (1.0 - a2) * (1.0 - a2);
    }
    assert (1.0 - a2) * (1.0 - a2) >= 0.0;
    SquareBelow(a1, 1.0 + a2);
  }

  /** The quadratic-formula test of BiQuad::stable agrees with the stability
      triangle, whatever square root is used: both poles lie strictly inside
      the unit circle exactly when |a2| < 1 and |a1| < 1 + a2. */
  lemma {:induction false} PolesInsideIffStabilityTriangle(a1: real, a2: real, sqrt: real -> real)
    requires IsSqrt(sqrt)
    ensures AllInside(PolePair(a1, a2, sqrt)) <==> StabilityTriangle(a1, a2)
  {
    var d := a1 * a1 - 4.0 * a2;
    var ps := PolePair(a1, a2, sqrt);
    if 0.0 <= d {
      var r := sqrt(d);
      assert ps == [Real(0.5 * (r - a1)), Real(0.5 * (-a1 - r))];
      RealPairInside(a1, a2, r);
    } else {
      var r := sqrt(-d);
      assert ps == [Complex(-0.5 * a1, 0.5 * r), Complex(-0.5 * a1, -0.5 * r)];
      ComplexPolesInside(a1, a2, r);
      assert AllInside(ps) <==> a2 < 1.0;
    }
  }

  lemma RealPairInside(a1: real, a2: real, r: real)
    requires 0.0 <= r && r * r == a1 * a1 - 4.0 * a2
    ensures AllInside([Real(0.5 * (r - a1)), Real(0.5 * (-a1 - r))]) <==> StabilityTriangle(a1, a2)
  {
    var x0, x1 := 0.5 * (r - a1), 0.5 * (-a1 - r);
    var ps := [Real(x0), Real(x1)];
    assert NormSq(ps[0]) == x0 * x0 + 0.0 * 0.0 == x0 * x0;
    assert NormSq(ps[1]) == x1 * x1 + 0.0 * 0.0 == x1 * x1;
    SquareBelow(x0, 1.0);
    SquareBelow(x1, 1.0);
    assert AllInside(ps) <==> (-1.0 < x0 < 1.0 && -1.0 < x1 < 1.0);
    RealPolesInside(a1, a2, r);
  }
}
