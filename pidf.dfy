/** BiQuad::PIDF: the coefficients of a PID controller with a first-order
    filter on its derivative, Kp + Ki/s + Kd*N*s/(s + N), discretised with
    the trapezoidal (Tustin) substitution s = 2(z - 1)/(Ts(z + 1)). */
module Pidf {
  import opened Recurrence
  import opened Roots

  /** The five coefficients BiQuad::PIDF hands to `set`. The only division is
      by N*Ts + 2, which must not be zero. */
  function PidfCoefficients(kp: real, ki: real, kd: real, n: real, ts: real): Coefficients
    requires n * ts + 2.0 != 0.0
  {
    var bd := n * ts + 2.0;
    Coefficients(
      (4.0 * kp + 4.0 * kd * n + 2.0 * ki * ts + 2.0 * kp * n * ts + ki * n * ts * ts) / (2.0 * bd),
      (ki * n * ts * ts - 4.0 * kp - 4.0 * kd * n) / bd,
      (4.0 * kp + 4.0 * kd * n - 2.0 * ki * ts - 2.0 * kp * n * ts + ki * n * ts * ts) / (2.0 * bd),
      -4.0 / (n * ts + 2.0),
      -(n * ts - 2.0) / (n * ts + 2.0))
  }

  /** The continuous-time PIDF controller evaluated at s. */
  function Controller(kp: real, ki: real, kd: real, n: real, s: real): real
    requires s != 0.0 && s + n != 0.0
  {
    kp + ki / s + kd * n * s / (s + n)
  }

  /** The trapezoidal substitution for s at the point z. */
  function Tustin(ts: real, z: real): real
    requires ts != 0.0 && z != -1.0
  {
    2.0 * (z - 1.0) / (ts * (z + 1.0))
  }

  /** The numerator b0 z^2 + b1 z + b2 of a section's transfer function. */
  function Numerator(c: Coefficients, z: real): real
  {
    c.b0 * z * z + c.b1 * z + c.b2
  }

  /** The denominator z^2 + a1 z + a2 of a section's transfer function. */
  function Denominator(c: Coefficients, z: real): real
  {
    z * z + c.a1 * z + c.a2
  }

  /** The transfer function of a section, (b0 z^2 + b1 z + b2) / (z^2 + a1 z + a2),
      which is (b0 + b1 z^-1 + b2 z^-2) / (1 + a1 z^-1 + a2 z^-2) for z != 0. */
  function Response(c: Coefficients, z: real): real
    requires Denominator(c, z) != 0.0
  {
    Numerator(c, z) / Denominator(c, z)
  }

  /** The pole of the discretised derivative filter, (2 - N Ts) / (2 + N Ts). */
  function FilterPole(n: real, ts: real): real
    requires n * ts + 2.0 != 0.0
  {
    (2.0 - n * ts) / (2.0 + n * ts)
  }

  /** The denominator of a PIDF section factors as (z - 1)(z - (2 - N Ts)/(2 + N Ts)):
      one pole is the integrator at z = 1, the other the discretised
      derivative-filter pole. */
  lemma {:induction false} PidfPoles(kp: real, ki: real, kd: real, n: real, ts: real, z: real)
    requires n * ts + 2.0 != 0.0
    ensures var c := PidfCoefficients(kp, ki, kd, n, ts);
      c.a1 == -1.0 - FilterPole(n, ts) && c.a2 == FilterPole(n, ts) &&
      Denominator(c, z) == (z - 1.0) * (z - FilterPole(n, ts))
  {
    ClearedCoefficients(kp, ki, kd, n, ts);
    FactorPoles(PidfCoefficients(kp, ki, kd, n, ts), n, ts, z);
  }

  /** k p = 2 (2 - N Ts) for the clearing factor k. */
  lemma FilterPoleCleared(n: real, ts: real)
    requires n * ts + 2.0 != 0.0
    ensures ClearingFactor(n, ts) * FilterPole(n, ts) == 2.0 * (2.0 - n * ts)
  {
  }

  lemma FactorPoles(c: Coefficients, n: real, ts: real, z: real)
    requires n * ts + 2.0 != 0.0 && ClearedDenominator(c, n, ts)
    ensures c.a1 == -1.0 - FilterPole(n, ts) && c.a2 == FilterPole(n, ts)
    ensures Denominator(c, z) == (z - 1.0) * (z - FilterPole(n, ts))
  {
    FilterPoleCleared(n, ts);
    var k, p := ClearingFactor(n, ts), FilterPole(n, ts);
    assert k != 0.0;
    assert k * (c.a2 - p) == 0.0;
    assert k * (c.a1 + 1.0 + p) == 0.0;
  }

  /** Because of the integrator pole at z = 1, a PIDF section never passes
      the stability test: BiQuad::stable reports false after every PIDF. */
  lemma {:induction false} PidfNeverStable(kp: real, ki: real, kd: real, n: real, ts: real)
    requires n * ts + 2.0 != 0.0
    ensures !StabilityTriangle(PidfCoefficients(kp, ki, kd, n, ts).a1, PidfCoefficients(kp, ki, kd, n, ts).a2)
  {
    PidfPoles(kp, ki, kd, n, ts, 1.0);
  }

  /** BiQuad::PIDF implements its documented design: wherever both sides are
      defined, the section's transfer function at z equals the continuous
      PIDF controller at the Tustin image of z. */
  lemma {:induction false} PidfIsTustinDiscretisation(kp: real, ki: real, kd: real, n: real, ts: real, z: real)
    requires n * ts + 2.0 != 0.0 && ts != 0.0
    requires z != 1.0 && z != -1.0 && 2.0 * (z - 1.0) + n * ts * (z + 1.0) != 0.0
    ensures var c := PidfCoefficients(kp, ki, kd, n, ts);
      var s := Tustin(ts, z);
      Denominator(c, z) != 0.0 && s != 0.0 && s + n != 0.0 &&
      Response(c, z) == Controller(kp, ki, kd, n, s)
  {
    ClearedCoefficients(kp, ki, kd, n, ts);
    TustinFromCleared(PidfCoefficients(kp, ki, kd, n, ts), kp, ki, kd, n, ts, z);
  }

  /* The proof multiplies both sides out: the section's numerator and
     denominator by 2 (N Ts + 2), the controller by
     2 (z - 1)(2 (z - 1) + N Ts (z + 1)). The polynomials involved are named
     so that each step below only sees them as a whole. */

  /** 2 (N Ts + 2): twice the common denominator of the coefficients of BiQuad::PIDF. */
  function ClearingFactor(n: real, ts: real): real
  {
    2.0 * (n * ts + 2.0)
  }

  /** b0, b1 and b2 of BiQuad::PIDF times 2 (N Ts + 2). */
  function ClearedB0(kp: real, ki: real, kd: real, n: real, ts: real): real
  {
    4.0 * kp + 4.0 * kd * n + 2.0 * ki * ts + 2.0 * kp * n * ts + ki * n * ts * ts
  }

  function ClearedB1(kp: real, ki: real, kd: real, n: real, ts: real): real
  {
    2.0 * (ki * n * ts * ts - 4.0 * kp - 4.0 * kd * n)
  }

  function ClearedB2(kp: real, ki: real, kd: real, n: real, ts: real): real
  {
    4.0 * kp + 4.0 * kd * n - 2.0 * ki * ts - 2.0 * kp * n * ts + ki * n * ts * ts
  }

  function TustinDenominator(n: real, ts: real, z: real): real
  {
    2.0 * (z - 1.0) * (2.0 * (z - 1.0) + n * ts * (z + 1.0))
  }

  function TustinNumerator(kp: real, ki: real, kd: real, n: real, ts: real, z: real): real
  {
    2.0 * (z - 1.0) * (2.0 * (z - 1.0) + n * ts * (z + 1.0)) * kp
    + ki * ts * (z + 1.0) * (2.0 * (z - 1.0) + n * ts * (z + 1.0))
    + 4.0 * kd * n * (z - 1.0) * (z - 1.0)
  }

  /** The Tustin identity for any coefficients that satisfy the equations of
      BiQuad::PIDF with their common denominator cleared. */
  lemma TustinFromCleared(c: Coefficients, kp: real, ki: real, kd: real, n: real, ts: real, z: real)
    requires ts != 0.0 && z != 1.0 && z != -1.0 && 2.0 * (z - 1.0) + n * ts * (z + 1.0) != 0.0
    requires ClearedEquations(c, kp, ki, kd, n, ts)
    ensures var s := Tustin(ts, z);
      Denominator(c, z) != 0.0 && s != 0.0 && s + n != 0.0 &&
      Response(c, z) == Controller(kp, ki, kd, n, s)
  {
    DenominatorIdentity(c, n, ts, z);
    NumeratorIdentity(c, kp, ki, kd, n, ts, z);
    ControllerIdentity(kp, ki, kd, n, ts, z);
    SameQuotient(Numerator(c, z), Denominator(c, z), ClearingFactor(n, ts),
                 TustinNumerator(kp, ki, kd, n, ts, z), TustinDenominator(n, ts, z));
  }

  /** Scaling numerator and denominator by the same factor keeps the quotient. */
  lemma SameQuotient(num: real, den: real, k: real, p: real, m: real)
    requires k * num == p && k * den == m && m != 0.0
    ensures den != 0.0 && num / den == p / m
  {
    assert k != 0.0;
    assert (num / den) * m == p by {
      assert (num / den) * den == num;
      assert (num / den) * (k * den) == k * num;
    }
  }

  /** c satisfies the equations of BiQuad::PIDF with the common denominator cleared. */
  predicate ClearedEquations(c: Coefficients, kp: real, ki: real, kd: real, n: real, ts: real)
  {
    ClearedNumerator(c, kp, ki, kd, n, ts) && ClearedDenominator(c, n, ts)
  }

  /** b0, b1 and b2 of c satisfy the equations of BiQuad::PIDF with the common denominator cleared. */
  predicate ClearedNumerator(c: Coefficients, kp: real, ki: real, kd: real, n: real, ts: real)
  {
    && ClearingFactor(n, ts) * c.b0 == ClearedB0(kp, ki, kd, n, ts)
    && ClearingFactor(n, ts) * c.b1 == ClearedB1(kp, ki, kd, n, ts)
    && ClearingFactor(n, ts) * c.b2 == ClearedB2(kp, ki, kd, n, ts)
  }

  /** a1 and a2 of c satisfy the equations of BiQuad::PIDF with the common denominator cleared. */
  predicate ClearedDenominator(c: Coefficients, n: real, ts: real)
  {
    ClearingFactor(n, ts) * c.a1 == -8.0 && ClearingFactor(n, ts) * c.a2 == 2.0 * (2.0 - n * ts)
  }

  lemma ClearedCoefficients(kp: real, ki: real, kd: real, n: real, ts: real)
    requires n * ts + 2.0 != 0.0
    ensures ClearedEquations(PidfCoefficients(kp, ki, kd, n, ts), kp, ki, kd, n, ts)
  {
    ClearedFromQuotients(PidfCoefficients(kp, ki, kd, n, ts), kp, ki, kd, n, ts);
  }

  lemma ClearedFromQuotients(c: Coefficients, kp: real, ki: real, kd: real, n: real, ts: real)
    requires n * ts + 2.0 != 0.0
    requires c.b0 == (4.0 * kp + 4.0 * kd * n + 2.0 * ki * ts + 2.0 * kp * n * ts + ki * n * ts * ts) / (2.0 * (n * ts + 2.0))
    requires c.b1 == (ki * n * ts * ts - 4.0 * kp - 4.0 * kd * n) / (n * ts + 2.0)
    requires c.b2 == (4.0 * kp + 4.0 * kd * n - 2.0 * ki * ts - 2.0 * kp * n * ts + ki * n * ts * ts) / (2.0 * (n * ts + 2.0))
    requires c.a1 == -4.0 / (n * ts + 2.0)
    requires c.a2 == -(n * ts - 2.0) / (n * ts + 2.0)
    ensures ClearedEquations(c, kp, ki, kd, n, ts)
  {
    ClearedB0Equation(c, kp, ki, kd, n, ts);
    ClearedB1Equation(c, kp, ki, kd, n, ts);
    ClearedB2Equation(c, kp, ki, kd, n, ts);
    ClearedA1Equation(c, kp, ki, kd, n, ts);
    ClearedA2Equation(c, kp, ki, kd, n, ts);
  }

  lemma ClearedB0Equation(c: Coefficients, kp: real, ki: real, kd: real, n: real, ts: real)
    requires n * ts + 2.0 != 0.0
    requires c.b0 == (4.0 * kp + 4.0 * kd * n + 2.0 * ki * ts + 2.0 * kp * n * ts + ki * n * ts * ts) / (2.0 * (n * ts + 2.0))
    ensures ClearingFactor(n, ts) * c.b0 == ClearedB0(kp, ki, kd, n, ts)
  {
  }

  lemma ClearedB1Equation(c: Coefficients, kp: real, ki: real, kd: real, n: real, ts: real)
    requires n * ts + 2.0 != 0.0
    requires c.b1 == (ki * n * ts * ts - 4.0 * kp - 4.0 * kd * n) / (n * ts + 2.0)
    ensures ClearingFactor(n, ts) * c.b1 == ClearedB1(kp, ki, kd, n, ts)
  {
  }

  lemma ClearedB2Equation(c: Coefficients, kp: real, ki: real, kd: real, n: real, ts: real)
    requires n * ts + 2.0 != 0.0
    requires c.b2 == (4.0 * kp + 4.0 * kd * n - 2.0 * ki * ts - 2.0 * kp * n * ts + ki * n * ts * ts) / (2.0 * (n * ts + 2.0))
    ensures ClearingFactor(n, ts) * c.b2 == ClearedB2(kp, ki, kd, n, ts)
  {
  }

  lemma ClearedA1Equation(c: Coefficients, kp: real, ki: real, kd: real, n: real, ts: real)
    requires n * ts + 2.0 != 0.0
    requires c.a1 == -4.0 / (n * ts + 2.0)
    ensures ClearingFactor(n, ts) * c.a1 == -8.0
  {
  }

  lemma ClearedA2Equation(c: Coefficients, kp: real, ki: real, kd: real, n: real, ts: real)
    requires n * ts + 2.0 != 0.0
    requires c.a2 == -(n * ts - 2.0) / (n * ts + 2.0)
    ensures ClearingFactor(n, ts) * c.a2 == 2.0 * (2.0 - n * ts)
  {
  }

  lemma DenominatorIdentity(c: Coefficients, n: real, ts: real, z: real)
    requires ClearedDenominator(c, n, ts)
    ensures ClearingFactor(n, ts) * Denominator(c, z) == TustinDenominator(n, ts, z)
  {
    var k := ClearingFactor(n, ts);
    assert k * Denominator(c, z) == k * (z * z) + (k * c.a1) * z + k * c.a2;
  }

  lemma NumeratorIdentity(c: Coefficients, kp: real, ki: real, kd: real, n: real, ts: real, z: real)
    requires ClearedNumerator(c, kp, ki, kd, n, ts)
    ensures ClearingFactor(n, ts) * Numerator(c, z) == TustinNumerator(kp, ki, kd, n, ts, z)
  {
    var k := ClearingFactor(n, ts);
    assert k * Numerator(c, z) == (k * c.b0) * (z * z) + (k * c.b1) * z + k * c.b2;
    NumeratorPolynomial(kp, ki, kd, n, ts, z);
  }

  lemma NumeratorPolynomial(kp: real, ki: real, kd: real, n: real, ts: real, z: real)
    ensures ClearedB0(kp, ki, kd, n, ts) * (z * z) + ClearedB1(kp, ki, kd, n, ts) * z + ClearedB2(kp, ki, kd, n, ts)
         == TustinNumerator(kp, ki, kd, n, ts, z)
  {
    var u, v, q := z - 1.0, z + 1.0, z * z;
    var kpt, kit, kin := kp * n * ts, ki * ts, ki * n * ts * ts;
    assert ClearedB0(kp, ki, kd, n, ts) * q == (4.0 * kp + 4.0 * kd * n + 2.0 * ki * ts + 2.0 * kp * n * ts + ki * n * ts * ts) * q;
    assert ClearedB1(kp, ki, kd, n, ts) * z == 2.0 * (ki * n * ts * ts - 4.0 * kp - 4.0 * kd * n) * z;
    assert 2.0 * u * (2.0 * u + n * ts * v) * kp == 4.0 * kp * (u * u) + 2.0 * kpt * (u * v);
    assert ki * ts * v * (2.0 * u + n * ts * v) == 2.0 * kit * (u * v) + kin * (v * v);
    assert u * u == q - 2.0 * z + 1.0 && u * v == q - 1.0 && v * v == q + 2.0 * z + 1.0;
  }

  lemma ControllerIdentity(kp: real, ki: real, kd: real, n: real, ts: real, z: real)
    requires ts != 0.0 && z != 1.0 && z != -1.0 && 2.0 * (z - 1.0) + n * ts * (z + 1.0) != 0.0
    ensures Tustin(ts, z) != 0.0 && Tustin(ts, z) + n != 0.0
    ensures TustinDenominator(n, ts, z) != 0.0
    ensures Controller(kp, ki, kd, n, Tustin(ts, z)) == TustinNumerator(kp, ki, kd, n, ts, z) / TustinDenominator(n, ts, z)
  {
    ControllerCleared(kp, ki, kd, n, ts, z);
    DivideOut(Controller(kp, ki, kd, n, Tustin(ts, z)), TustinDenominator(n, ts, z), TustinNumerator(kp, ki, kd, n, ts, z));
  }

  lemma DivideOut(q: real, m: real, p: real)
    requires m != 0.0 && q * m == p
    ensures q == p / m
  {
  }

  lemma ControllerCleared(kp: real, ki: real, kd: real, n: real, ts: real, z: real)
    requires ts != 0.0 && z != 1.0 && z != -1.0 && 2.0 * (z - 1.0) + n * ts * (z + 1.0) != 0.0
    ensures Tustin(ts, z) != 0.0 && Tustin(ts, z) + n != 0.0
    ensures TustinDenominator(n, ts, z) != 0.0
    ensures Controller(kp, ki, kd, n, Tustin(ts, z)) * TustinDenominator(n, ts, z) == TustinNumerator(kp, ki, kd, n, ts, z)
  {
    TustinFacts(n, ts, z);
    TustinFactored(kp, ki, kd, n, ts, z);
    ControllerProduct(kp, ki, kd, n, Tustin(ts, z), Warp(ts, z), Lag(z), FilterFactor(n, ts, z),
                      TustinDenominator(n, ts, z), TustinNumerator(kp, ki, kd, n, ts, z));
  }

  /** The factors of s = 2 (z - 1) / (Ts (z + 1)) and of s + N. */
  function Lag(z: real): real
  {
    2.0 * (z - 1.0)
  }

  function Warp(ts: real, z: real): real
  {
    ts * (z + 1.0)
  }

  function FilterFactor(n: real, ts: real, z: real): real
  {
    2.0 * (z - 1.0) + n * ts * (z + 1.0)
  }

  /** s t = u and (s + N) t = w, all of s, s + N, u and w non-zero. */
  predicate SubstitutionFactors(n: real, s: real, t: real, u: real, w: real)
  {
    s != 0.0 && s + n != 0.0 && s * t == u && (s + n) * t == w && u != 0.0 && w != 0.0
  }

  /** m and p are the denominator and numerator of the controller cleared by u w. */
  predicate ClearedController(kp: real, ki: real, kd: real, n: real, t: real, u: real, w: real, m: real, p: real)
  {
    m == u * w && p == u * w * kp + ki * t * w + kd * n * u * u
  }

  /** The cleared Tustin polynomials in terms of the named factors. */
  lemma TustinFactored(kp: real, ki: real, kd: real, n: real, ts: real, z: real)
    ensures ClearedController(kp, ki, kd, n, Warp(ts, z), Lag(z), FilterFactor(n, ts, z),
                              TustinDenominator(n, ts, z), TustinNumerator(kp, ki, kd, n, ts, z))
  {
  }

  /** s Ts (z + 1) = 2 (z - 1) and (s + N) Ts (z + 1) = 2 (z - 1) + N Ts (z + 1). */
  lemma TustinFacts(n: real, ts: real, z: real)
    requires ts != 0.0 && z != 1.0 && z != -1.0 && 2.0 * (z - 1.0) + n * ts * (z + 1.0) != 0.0
    ensures SubstitutionFactors(n, Tustin(ts, z), Warp(ts, z), Lag(z), FilterFactor(n, ts, z))
  {
    var s, t := Tustin(ts, z), ts * (z + 1.0);
    assert t != 0.0;
    assert s * t == 2.0 * (z - 1.0);
  }

  /** The controller at s, multiplied by m = u w where s t = u and (s + N) t = w. */
  lemma ControllerProduct(kp: real, ki: real, kd: real, n: real, s: real, t: real, u: real, w: real, m: real, p: real)
    requires SubstitutionFactors(n, s, t, u, w)
    requires ClearedController(kp, ki, kd, n, t, u, w, m, p)
    ensures s != 0.0 && s + n != 0.0 && m != 0.0 && Controller(kp, ki, kd, n, s) * m == p
  {
    var i, d := ki / s, kd * n * s / (s + n);
    assert i * s == ki;
    assert i * (u * w) == ki * t * w by {
      assert u * w == s * t * w;
    }
    assert d * (s + n) == kd * n * s;
    assert d * (u * w) == kd * n * u * u by {
      assert u * w == u * (s + n) * t;
      assert d * (u * w) == u * t * (kd * n * s);
    }
  }
}
