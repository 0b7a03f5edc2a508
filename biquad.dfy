/** One second-order section (class BiQuad): five coefficients, two delay
    words and the flag that decides whether a coefficient change clears the
    delay words. */
module Sections {
  import opened Complex
  import opened Roots
  import opened Recurrence
  import opened Pidf

  class BiQuad {
    /** B[0], B[1], B[2]: the numerator coefficients. */
    var b0: real
    var b1: real
    var b2: real
    /** A[0], A[1]: a1 and a2 of the denominator normalised to a0 = 1. */
    var a1: real
    var a2: real
    /** wz[0], wz[1]: the delay words of direct form II transposed. */
    var w0: real
    var w1: real
    var resetStateOnGainChange: bool

    function Coeffs(): Coefficients
      reads this`b0, this`b1, this`b2, this`a1, this`a2
    {
      Coefficients(b0, b1, b2, a1, a2)
    }

    function Delay(): State
      reads this`w0, this`w1
    {
      State(w0, w1)
    }

    /** The unity transfer function, H(z) = 1, from rest. */
    constructor Unity()
      ensures Coeffs() == Identity && Delay() == Rest && resetStateOnGainChange
    {
      resetStateOnGainChange := true;
      new;
      Set(1.0, 0.0, 0.0, 0.0, 0.0);
    }

    /** A section with a0 already 1, from rest. */
    constructor Normalized(b0: real, b1: real, b2: real, a1: real, a2: real)
      ensures Coeffs() == Coefficients(b0, b1, b2, a1, a2) && Delay() == Rest && resetStateOnGainChange
    {
      resetStateOnGainChange := true;
      new;
      Set(b0, b1, b2, a1, a2);
    }

    /** A section from all six coefficients: it holds what Normalized holds
        for the five others divided by a0, from rest. */
    constructor Unnormalized(b0: real, b1: real, b2: real, a0: real, a1: real, a2: real)
      requires a0 != 0.0
      ensures Coeffs() == Normalize(b0, b1, b2, a0, a1, a2) && Delay() == Rest && resetStateOnGainChange
    {
      resetStateOnGainChange := true;
      new;
      Set(b0 / a0, b1 / a0, b2 / a0, a1 / a0, a2 / a0);
    }

    /** Every coefficient change: stores the five coefficients, and clears the
        delay words exactly when resetStateOnGainChange is set. */
    method Set(b0: real, b1: real, b2: real, a1: real, a2: real)
      modifies this
      ensures Coeffs() == Coefficients(b0, b1, b2, a1, a2)
      ensures Delay() == if old(resetStateOnGainChange) then Rest else old(Delay())
      ensures resetStateOnGainChange == old(resetStateOnGainChange)
    {
      this.b0, this.b1, this.b2 := b0, b1, b2;
      this.a1, this.a2 := a1, a2;
      if resetStateOnGainChange {
        w0 := 0.0;
        w1 := 0.0;
      }
    }

    /** A PIDF controller discretised with the Tustin transform; the new
        coefficients go through Set, so the reset policy applies. */
    method PIDF(kp: real, ki: real, kd: real, n: real, ts: real)
      requires n * ts + 2.0 != 0.0
      modifies this
      ensures Coeffs() == PidfCoefficients(kp, ki, kd, n, ts)
      ensures Delay() == if old(resetStateOnGainChange) then Rest else old(Delay())
      ensures resetStateOnGainChange == old(resetStateOnGainChange)
    {
      var a1 := -4.0 / (n * ts + 2.0);
      var a2 := -(n * ts - 2.0) / (n * ts + 2.0);
      var bd := n * ts + 2.0;
      var b0 := (4.0 * kp + 4.0 * kd * n + 2.0 * ki * ts + 2.0 * kp * n * ts + ki * n * ts * ts) / (2.0 * bd);
      var b1 := (ki * n * ts * ts - 4.0 * kp - 4.0 * kd * n) / bd;
      var b2 := (4.0 * kp + 4.0 * kd * n - 2.0 * ki * ts - 2.0 * kp * n * ts + ki * n * ts * ts) / (2.0 * bd);
      Set(b0, b1, b2, a1, a2);
    }

    /** One sample of direct form II transposed: only the delay words change. */
    method Step(x: real) returns (y: real)
      modifies this`w0, this`w1
      ensures (y, Delay()) == StepSpec(Coeffs(), old(Delay()), x)
    {
      y := b0 * x + w0;
      w0 := b1 * x - a1 * y + w1;
      w1 := b2 * x - a2 * y;
      assert y == StepSpec(Coeffs(), old(Delay()), x).0;
      assert Delay() == StepSpec(Coeffs(), old(Delay()), x).1;
    }

    /** The two poles in the order the quadratic formula gives them; they
        sum to -a1, and Roots.PolesAreRoots shows that they are the roots of
        z^2 + a1 z + a2. */
    function Poles(sqrt: real -> real): (ps: seq<Complex>)
      requires IsSqrt(sqrt)
      reads this
      ensures |ps| == 2 && Add(ps[0], ps[1]) == Real(-a1)
      ensures ps == PolePair(a1, a2, sqrt)
    {
      PolePair(a1, a2, sqrt)
    }

    /** The two zeros; BiQuad::zeros divides by b0. Roots.ZerosAreRoots shows
        that they are the roots of b0 z^2 + b1 z + b2. */
    function Zeros(sqrt: real -> real): (zs: seq<Complex>)
      requires IsSqrt(sqrt) && b0 != 0.0
      reads this
      ensures |zs| == 2 && zs == ZeroPair(b0, b1, b2, sqrt)
    {
      ZeroPair(b0, b1, b2, sqrt)
    }

    /** Folds "modulus below 1" over the poles; the answer is the stability
        triangle of the denominator. */
    method Stable(sqrt: real -> real) returns (stable: bool)
      requires IsSqrt(sqrt)
      ensures stable <==> AllInside(Poles(sqrt))
      ensures stable <==> StabilityTriangle(a1, a2)
    {
      stable := true;
      var ps := Poles(sqrt);
      var i := 0;
      while i < |ps|
        invariant 0 <= i <= |ps|
        invariant stable <==> AllInside(ps[..i])
      {
        stable := stable && NormSq(ps[i]) < 1.0;
        assert ps[..i + 1] == ps[..i] + [ps[i]];
        i := i + 1;
      }
      assert ps[..i] == ps;
      PolesInsideIffStabilityTriangle(a1, a2, sqrt);
    }

    method SetResetStateOnGainChange(v: bool)
      modifies this`resetStateOnGainChange
      ensures resetStateOnGainChange == v
    {
      resetStateOnGainChange := v;
    }
  }
}
