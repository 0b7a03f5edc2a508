/** The value-level meaning of one BiQuad section: its five normalised
    coefficients, its two delay words, one sample of the direct form II
    transposed recurrence (BiQuad::step), and what running that recurrence
    over an input sequence computes. */
module Recurrence {

  /** b0, b1, b2 over the normalised denominator 1 + a1 z^-1 + a2 z^-2. */
  datatype Coefficients = Coefficients(b0: real, b1: real, b2: real, a1: real, a2: real)

  /** The two delay words wz[0] and wz[1]. */
  datatype State = State(w0: real, w1: real)

  /** Both delay words zero: the state every constructor leaves. */
  const Rest: State := State(0.0, 0.0)

  /** The unity transfer function stored by the no-argument constructor. */
  const Identity: Coefficients := Coefficients(1.0, 0.0, 0.0, 0.0, 0.0)

  /** One sample of direct form II transposed: the output for input x and the
      next state. The old w1 feeds the new w0. */
  function StepSpec(c: Coefficients, s: State, x: real): (real, State)
  {
    var y := c.b0 * x + s.w0;
    (y, State(c.b1 * x - c.a1 * y + s.w1, c.b2 * x - c.a2 * y))
  }

  /** Steps a section through the inputs xs in order, starting in state s;
      gives the outputs and the final state. */
  function Run(c: Coefficients, s: State, xs: seq<real>): (r: (seq<real>, State))
    ensures |r.0| == |xs|
    decreases |xs|
  {
    if xs == [] then ([], s)
    else
      var prev := Run(c, s, xs[..|xs| - 1]);
      var next := StepSpec(c, prev.1, xs[|xs| - 1]);
      (prev.0 + [next.0], next.1)
  }

  /** A signal read at time n, zero before time 0 (zero initial conditions). */
  function At(s: seq<real>, n: int): real
  {
    if 0 <= n < |s| then s[n] else 0.0
  }

  /** The right-hand side of the difference equation at time n:
      b0 x[n] + b1 x[n-1] + b2 x[n-2] - a1 y[n-1] - a2 y[n-2]. */
  function Recursion(c: Coefficients, xs: seq<real>, ys: seq<real>, n: int): real
  {
    c.b0 * At(xs, n) + c.b1 * At(xs, n - 1) + c.b2 * At(xs, n - 2) - c.a1 * At(ys, n - 1) - c.a2 * At(ys, n - 2)
  }

  /** ys is the response of H(z) = (b0 + b1 z^-1 + b2 z^-2) / (1 + a1 z^-1 + a2 z^-2)
      to xs from rest. */
  ghost predicate SolvesDifferenceEquation(c: Coefficients, xs: seq<real>, ys: seq<real>)
  {
    |ys| == |xs| && forall n {:trigger Recursion(c, xs, ys, n)} :: 0 <= n < |xs| ==> ys[n] == Recursion(c, xs, ys, n)
  }

  /** What the delay words hold after the inputs xs and outputs ys. */
  function Memory(c: Coefficients, xs: seq<real>, ys: seq<real>): State
  {
    var n := |xs|;
    State(c.b1 * At(xs, n - 1) + c.b2 * At(xs, n - 2) - c.a1 * At(ys, n - 1) - c.a2 * At(ys, n - 2),
          c.b2 * At(xs, n - 1) - c.a2 * At(ys, n - 1))
  }

  /** The transposed direct form II recurrence started from rest computes the
      response of the section's difference equation, and its delay words
      hold exactly the pending feed-forward and feedback terms. */
  lemma {:induction false} RealisesDifferenceEquation(c: Coefficients, xs: seq<real>)
    ensures SolvesDifferenceEquation(c, xs, Run(c, Rest, xs).0)
    ensures Run(c, Rest, xs).1 == Memory(c, xs, Run(c, Rest, xs).0)
    decreases |xs|
  {
    if xs != [] {
      var m := |xs| - 1;
      RealisesDifferenceEquation(c, xs[..m]);
      assert xs == xs[..m] + [xs[m]];
      ExtendSolution(c, xs[..m], Run(c, Rest, xs[..m]).0, xs[m]);
    }
  }

  /** One more step of the recurrence from the state Memory(c, xs, ys)
      extends a solution of the difference equation by one sample. */
  lemma ExtendSolution(c: Coefficients, xs: seq<real>, ys: seq<real>, x: real)
    requires SolvesDifferenceEquation(c, xs, ys)
    ensures var next := StepSpec(c, Memory(c, xs, ys), x);
      SolvesDifferenceEquation(c, xs + [x], ys + [next.0])
      && next.1 == Memory(c, xs + [x], ys + [next.0])
  {
    var m := |xs|;
    var next := StepSpec(c, Memory(c, xs, ys), x);
    var xs2, ys2 := xs + [x], ys + [next.0];
    assert forall n :: n < m ==> At(xs2, n) == At(xs, n) && At(ys2, n) == At(ys, n);
    StepIsRecursion(c, xs, ys, xs2, ys2, x);
    forall n | 0 <= n < m
      ensures ys2[n] == Recursion(c, xs2, ys2, n)
    {
      RecursionLocal(c, xs, ys, xs2, ys2, n);
    }
  }

  /** The recursion at time n only looks at times n, n-1 and n-2. */
  lemma RecursionLocal(c: Coefficients, xs: seq<real>, ys: seq<real>, xs2: seq<real>, ys2: seq<real>, n: int)
    requires forall k :: n - 2 <= k <= n ==> At(xs, k) == At(xs2, k)
    requires forall k :: n - 2 <= k < n ==> At(ys, k) == At(ys2, k)
    ensures Recursion(c, xs, ys, n) == Recursion(c, xs2, ys2, n)
  {
    assert At(xs, n) == At(xs2, n) && At(xs, n - 1) == At(xs2, n - 1) && At(xs, n - 2) == At(xs2, n - 2);
    assert At(ys, n - 1) == At(ys2, n - 1) && At(ys, n - 2) == At(ys2, n - 2);
  }

  /** The new output and state of one step from Memory(c, xs, ys). */
  lemma StepIsRecursion(c: Coefficients, xs: seq<real>, ys: seq<real>, xs2: seq<real>, ys2: seq<real>, x: real)
    requires |ys| == |xs|
    requires xs2 == xs + [x] && ys2 == ys + [StepSpec(c, Memory(c, xs, ys), x).0]
    requires forall k :: k < |xs| ==> At(xs2, k) == At(xs, k) && At(ys2, k) == At(ys, k)
    ensures ys2[|xs|] == Recursion(c, xs2, ys2, |xs|)
    ensures StepSpec(c, Memory(c, xs, ys), x).1 == Memory(c, xs2, ys2)
  {
    var m := |xs|;
    var x1, x2, y1, y2 := At(xs, m - 1), At(xs, m - 2), At(ys, m - 1), At(ys, m - 2);
    assert At(xs2, m - 1) == x1 && At(xs2, m - 2) == x2 && At(ys2, m - 1) == y1 && At(ys2, m - 2) == y2;
    assert At(xs2, m) == x;
    assert At(ys2, m) == ys2[m];
  }

  /** The coefficients the six-argument constructor stores: all six divided
      by a0, the leading denominator coefficient then being 1. */
  function Normalize(b0: real, b1: real, b2: real, a0: real, a1: real, a2: real): Coefficients
    requires a0 != 0.0
  {
    Coefficients(b0 / a0, b1 / a0, b2 / a0, a1 / a0, a2 / a0)
  }

  /** The difference equation with an explicit leading coefficient a0, at n:
      a0 y[n] + a1 y[n-1] + a2 y[n-2] == b0 x[n] + b1 x[n-1] + b2 x[n-2]. */
  predicate ScaledEquationAt(b0: real, b1: real, b2: real, a0: real, a1: real, a2: real,
                             xs: seq<real>, ys: seq<real>, n: int)
  {
    a0 * At(ys, n) + a1 * At(ys, n - 1) + a2 * At(ys, n - 2)
    == b0 * At(xs, n) + b1 * At(xs, n - 1) + b2 * At(xs, n - 2)
  }

  /** Normalising by a0 keeps the difference equation: a section built from
      (b0, b1, b2, a0, a1, a2) computes, from rest, outputs that satisfy the
      equation with leading coefficient a0 at every n. */
  lemma {:induction false} NormalizedSolvesScaledEquation(b0: real, b1: real, b2: real, a0: real, a1: real, a2: real, xs: seq<real>)
    requires a0 != 0.0
    ensures var ys := Run(Normalize(b0, b1, b2, a0, a1, a2), Rest, xs).0;
      forall n :: 0 <= n < |xs| ==> ScaledEquationAt(b0, b1, b2, a0, a1, a2, xs, ys, n)
  {
    var c := Normalize(b0, b1, b2, a0, a1, a2);
    var ys := Run(c, Rest, xs).0;
    RealisesDifferenceEquation(c, xs);
    forall n | 0 <= n < |xs|
      ensures ScaledEquationAt(b0, b1, b2, a0, a1, a2, xs, ys, n)
    {
      assert At(ys, n) == ys[n] == Recursion(c, xs, ys, n);
      ScaleRecursion(b0, b1, b2, a0, a1, a2, xs, ys, n);
    }
  }

  lemma ScaleRecursion(b0: real, b1: real, b2: real, a0: real, a1: real, a2: real,
                       xs: seq<real>, ys: seq<real>, n: int)
    requires a0 != 0.0
    requires At(ys, n) == Recursion(Normalize(b0, b1, b2, a0, a1, a2), xs, ys, n)
    ensures ScaledEquationAt(b0, b1, b2, a0, a1, a2, xs, ys, n)
  {
    var x0, x1, x2, y1, y2 := At(xs, n), At(xs, n - 1), At(xs, n - 2), At(ys, n - 1), At(ys, n - 2);
    assert At(ys, n) == (b0 / a0) * x0 + (b1 / a0) * x1 + (b2 / a0) * x2 - (a1 / a0) * y1 - (a2 / a0) * y2;
    assert a0 * ((b0 / a0) * x0) == b0 * x0;
    assert a0 * ((b1 / a0) * x1) == b1 * x1;
    assert a0 * ((b2 / a0) * x2) == b2 * x2;
    assert a0 * ((a1 / a0) * y1) == a1 * y1;
    assert a0 * ((a2 / a0) * y2) == a2 * y2;
  }

  /** The unity section started from rest passes every input through and
      stays at rest. */
  lemma {:induction false} IdentityPassesThrough(xs: seq<real>)
    ensures Run(Identity, Rest, xs) == (xs, Rest)
    decreases |xs|
  {
    if xs != [] {
      IdentityPassesThrough(xs[..|xs| - 1]);
      assert xs[..|xs| - 1] + [xs[|xs| - 1]] == xs;
    }
  }

  /** From rest, a silent input gives a silent output whatever the
      coefficients: after a coefficient change that reset the state, the
      section carries nothing over from before. */
  lemma {:induction false} RestIsSilent(c: Coefficients, n: nat)
    ensures Run(c, Rest, seq(n, _ => 0.0)) == (seq(n, _ => 0.0), Rest)
  {
    if n > 0 {
      RestIsSilent(c, n - 1);
      assert seq(n, _ => 0.0)[..n - 1] == seq(n - 1, _ => 0.0);
      assert seq(n - 1, _ => 0.0) + [0.0] == seq(n, _ => 0.0);
    }
  }
}
