/** The value-level meaning of a chain of sections (class BiQuadChain). A
    chain holds references, and the same section may be added twice; the
    specification therefore names sections by keys of any type K and keeps
    their coefficients and delay words in maps, so that a section that
    occurs twice is stepped twice. */
module Cascade {
  import opened Complex
  import opened Roots
  import opened Recurrence

  /** Every key of the chain has coefficients and a state. */
  predicate Covers<K(==)>(keys: seq<K>, coeffs: map<K, Coefficients>, states: map<K, State>)
  {
    forall i :: 0 <= i < |keys| ==> keys[i] in coeffs && keys[i] in states
  }

  /** One sample through the chain: the value enters the first section, each
      section's output is the next one's input, and each section's delay
      words advance. The empty chain returns its input. */
  function CascadeStep<K(==)>(keys: seq<K>, coeffs: map<K, Coefficients>, states: map<K, State>, x: real): (r: (real, map<K, State>))
    requires Covers(keys, coeffs, states)
    ensures r.1.Keys == states.Keys
    ensures keys == [] ==> r == (x, states)
    decreases |keys|
  {
    if keys == [] then (x, states)
    else
      var prev := CascadeStep(keys[..|keys| - 1], coeffs, states, x);
      var k := keys[|keys| - 1];
      var next := StepSpec(coeffs[k], prev.1[k], prev.0);
      (next.0, prev.1[k := next.1])
  }

  /** Stepping a chain leaves the delay words of every section outside it alone. */
  lemma {:induction false} CascadeFrame<K>(keys: seq<K>, coeffs: map<K, Coefficients>, states: map<K, State>, x: real, k: K)
    requires Covers(keys, coeffs, states) && k in states && k !in keys
    ensures CascadeStep(keys, coeffs, states, x).1[k] == states[k]
    decreases |keys|
  {
    if keys != [] {
      var m := |keys| - 1;
      assert Covers(keys[..m], coeffs, states);
      assert k !in keys[..m] && k != keys[m];
      CascadeFrame(keys[..m], coeffs, states, x, k);
    }
  }

  /** The chain's first i + 1 sections: the first i, then section i. */
  lemma CascadeStepNext<K>(keys: seq<K>, i: nat, coeffs: map<K, Coefficients>, states: map<K, State>, x: real)
    requires Covers(keys, coeffs, states) && i < |keys|
    ensures Covers(keys[..i], coeffs, states) && Covers(keys[..i + 1], coeffs, states)
    ensures var prev := CascadeStep(keys[..i], coeffs, states, x);
      var next := StepSpec(coeffs[keys[i]], prev.1[keys[i]], prev.0);
      CascadeStep(keys[..i + 1], coeffs, states, x) == (next.0, prev.1[keys[i] := next.1])
  {
    assert keys[..i + 1][..i] == keys[..i];
  }

  lemma CoversAppend<K>(keys: seq<K>, more: seq<K>, coeffs: map<K, Coefficients>, states: map<K, State>)
    requires Covers(keys, coeffs, states) && Covers(more, coeffs, states)
    ensures Covers(keys + more, coeffs, states)
  {
  }

  /** Covering depends only on the keys of the state map. */
  lemma CoversSameKeys<K>(keys: seq<K>, coeffs: map<K, Coefficients>, states: map<K, State>, states2: map<K, State>)
    requires Covers(keys, coeffs, states) && states2.Keys == states.Keys
    ensures Covers(keys, coeffs, states2)
  {
  }

  /** A chain split in two behaves as the first part followed by the second:
      the output of the first part is the input of the second, which starts
      from the states the first part left. */
  lemma {:induction false} CascadeAppend<K>(keys: seq<K>, more: seq<K>, coeffs: map<K, Coefficients>, states: map<K, State>, x: real)
    requires Covers(keys, coeffs, states) && Covers(more, coeffs, states)
    ensures Covers(keys + more, coeffs, states)
    ensures var first := CascadeStep(keys, coeffs, states, x);
      Covers(more, coeffs, first.1) &&
      CascadeStep(keys + more, coeffs, states, x) == CascadeStep(more, coeffs, first.1, first.0)
    decreases |more|
  {
    CoversAppend(keys, more, coeffs, states);
    var first := CascadeStep(keys, coeffs, states, x);
    CoversSameKeys(more, coeffs, states, first.1);
    if more == [] {
      assert keys + more == keys;
    } else {
      var m := |more| - 1;
      assert Covers(more[..m], coeffs, states);
      CascadeAppend(keys, more[..m], coeffs, states, x);
      assert (keys + more)[..|keys + more| - 1] == keys + more[..m];
    }
  }

  /** A two-section chain returns bq2.step(bq1.step(x)); when both entries
      are the same section, the second step starts from the state the first
      one left, and with distinct sections from its own earlier state. */
  lemma CascadePair<K>(k1: K, k2: K, coeffs: map<K, Coefficients>, states: map<K, State>, x: real)
    requires k1 in coeffs && k1 in states && k2 in coeffs && k2 in states
    ensures Covers([k1, k2], coeffs, states)
    ensures var first := StepSpec(coeffs[k1], states[k1], x);
      var mid := states[k1 := first.1];
      var second := StepSpec(coeffs[k2], mid[k2], first.0);
      CascadeStep([k1, k2], coeffs, states, x) == (second.0, mid[k2 := second.1])
    ensures k1 != k2 ==> CascadeStep([k1, k2], coeffs, states, x).0
                         == StepSpec(coeffs[k2], states[k2], StepSpec(coeffs[k1], states[k1], x).0).0
  {
    assert [k1, k2][..1] == [k1];
    assert [k1][..0] == [];
  }

  /** The chain stepped through the inputs xs in order: the outputs and the
      final states. */
  function Drive<K(==)>(keys: seq<K>, coeffs: map<K, Coefficients>, states: map<K, State>, xs: seq<real>): (r: (seq<real>, map<K, State>))
    requires Covers(keys, coeffs, states)
    ensures |r.0| == |xs| && r.1.Keys == states.Keys
    decreases |xs|
  {
    if xs == [] then ([], states)
    else
      var prev := Drive(keys, coeffs, states, xs[..|xs| - 1]);
      CoversSameKeys(keys, coeffs, states, prev.1);
      var next := CascadeStep(keys, coeffs, prev.1, xs[|xs| - 1]);
      (prev.0 + [next.0], next.1)
  }

  /** Distinct keys: no section occurs twice in the chain. */
  predicate Distinct<K(==)>(keys: seq<K>)
  {
    forall i, j :: 0 <= i < j < |keys| ==> keys[i] != keys[j]
  }

  /** The series connection of the sections: each section runs over the
      whole output signal of the sections before it. */
  function Pipe<K(==)>(keys: seq<K>, coeffs: map<K, Coefficients>, states: map<K, State>, xs: seq<real>): (ys: seq<real>)
    requires Covers(keys, coeffs, states)
    ensures |ys| == |xs|
    decreases |keys|
  {
    if keys == [] then xs
    else
      var k := keys[|keys| - 1];
      Run(coeffs[k], states[k], Pipe(keys[..|keys| - 1], coeffs, states, xs)).0
  }

  /** Adding a section k that is not yet in the chain: driven sample by
      sample, the longer chain outputs what k computes when run over the
      whole output of the shorter chain, and k ends in the state that run
      leaves; the other sections end as in the shorter chain. */
  lemma {:induction false} DriveAppend<K>(keys: seq<K>, k: K, coeffs: map<K, Coefficients>, states: map<K, State>, xs: seq<real>)
    requires Covers(keys, coeffs, states) && k in coeffs && k in states && k !in keys
    ensures Covers(keys + [k], coeffs, states)
    ensures var short := Drive(keys, coeffs, states, xs);
      var run := Run(coeffs[k], states[k], short.0);
      Drive(keys + [k], coeffs, states, xs) == (run.0, short.1[k := run.1])
    decreases |xs|
  {
    var keys2 := keys + [k];
    assert Covers(keys2, coeffs, states);
    if xs != [] {
      var m := |xs| - 1;
      assert xs[..m] + [xs[m]] == xs;
      DriveAppend(keys, k, coeffs, states, xs[..m]);
      DriveAppendStep(keys, k, coeffs, states, xs[..m], xs[m]);
    } else {
      assert states[k := states[k]] == states;
    }
  }

  /** The induction step of DriveAppend: one more sample. */
  lemma DriveAppendStep<K>(keys: seq<K>, k: K, coeffs: map<K, Coefficients>, states: map<K, State>, xs: seq<real>, x: real)
    requires Covers(keys, coeffs, states) && k in coeffs && k in states && k !in keys
    requires Covers(keys + [k], coeffs, states)
    requires var short := Drive(keys, coeffs, states, xs);
      var run := Run(coeffs[k], states[k], short.0);
      Drive(keys + [k], coeffs, states, xs) == (run.0, short.1[k := run.1])
    ensures var short := Drive(keys, coeffs, states, xs + [x]);
      var run := Run(coeffs[k], states[k], short.0);
      Drive(keys + [k], coeffs, states, xs + [x]) == (run.0, short.1[k := run.1])
  {
    var keys2 := keys + [k];
    var xs2 := xs + [x];
    assert xs2[..|xs2| - 1] == xs;
    // the chains after the samples xs
    var short' := Drive(keys, coeffs, states, xs);
    var run' := Run(coeffs[k], states[k], short'.0);
    var st := short'.1[k := run'.1];
    // sample x through the shorter chain, which leaves k alone
    CoversSameKeys(keys, coeffs, states, short'.1);
    var r := CascadeStep(keys, coeffs, short'.1, x);
    CascadeIgnoresOthers(keys, k, run'.1, coeffs, short'.1, x);
    // then through k
    var next := StepSpec(coeffs[k], run'.1, r.0);
    CoversSameKeys(keys2, coeffs, states, st);
    assert keys2[..|keys2| - 1] == keys;
    assert CascadeStep(keys2, coeffs, st, x) == (next.0, r.1[k := run'.1][k := next.1]);
    Overwrite(r.1, k, run'.1, next.1);
    // the same, seen from the shorter chain and the run of k
    var short := Drive(keys, coeffs, states, xs2);
    assert short.0[..|xs|] == short'.0;
  }

  lemma Overwrite<K, V>(m: map<K, V>, k: K, a: V, b: V)
    ensures m[k := a][k := b] == m[k := b]
  {
  }

  /** Stepping a chain that does not contain k neither reads nor writes k's state. */
  lemma {:induction false} CascadeIgnoresOthers<K>(keys: seq<K>, k: K, s: State, coeffs: map<K, Coefficients>, states: map<K, State>, x: real)
    requires Covers(keys, coeffs, states) && k !in keys && k in states
    ensures Covers(keys, coeffs, states[k := s])
    ensures var r := CascadeStep(keys, coeffs, states, x);
      CascadeStep(keys, coeffs, states[k := s], x) == (r.0, r.1[k := s])
    decreases |keys|
  {
    CoversSameKeys(keys, coeffs, states, states[k := s]);
    if keys != [] {
      var m := |keys| - 1;
      assert Covers(keys[..m], coeffs, states);
      CascadeIgnoresOthers(keys[..m], k, s, coeffs, states, x);
      var prev := CascadeStep(keys[..m], coeffs, states, x);
      var key := keys[m];
      assert key != k;
      assert prev.1[k := s][key] == prev.1[key];
      var next := StepSpec(coeffs[key], prev.1[key], prev.0);
      assert prev.1[k := s][key := next.1] == prev.1[key := next.1][k := s];
    }
  }

  /** A chain of distinct sections driven sample by sample is the series
      connection of its sections: its output signal is each section's
      response to the output signal of the sections before it. */
  lemma {:induction false} DriveIsPipe<K>(keys: seq<K>, coeffs: map<K, Coefficients>, states: map<K, State>, xs: seq<real>)
    requires Covers(keys, coeffs, states) && Distinct(keys)
    ensures Drive(keys, coeffs, states, xs).0 == Pipe(keys, coeffs, states, xs)
    decreases |keys|
  {
    if keys == [] {
      DriveEmpty(coeffs, states, xs);
    } else {
      var m := |keys| - 1;
      var k := keys[m];
      assert Covers(keys[..m], coeffs, states);
      DriveIsPipe(keys[..m], coeffs, states, xs);
      assert k !in keys[..m];
      DriveAppend(keys[..m], k, coeffs, states, xs);
      assert keys[..m] + [k] == keys;
    }
  }

  /** The empty chain passes every signal through unchanged. */
  lemma {:induction false} DriveEmpty<K>(coeffs: map<K, Coefficients>, states: map<K, State>, xs: seq<real>)
    ensures Drive([], coeffs, states, xs) == (xs, states)
    decreases |xs|
  {
    if xs != [] {
      DriveEmpty(coeffs, states, xs[..|xs| - 1]);
      assert xs[..|xs| - 1] + [xs[|xs| - 1]] == xs;
    }
  }

  /** The coefficients of the chain's sections in chain order. */
  function CoeffsOf<K(==)>(keys: seq<K>, coeffs: map<K, Coefficients>): (cs: seq<Coefficients>)
    requires forall i :: 0 <= i < |keys| ==> keys[i] in coeffs
    ensures |cs| == |keys| && forall i :: 0 <= i < |keys| ==> cs[i] == coeffs[keys[i]]
  {
    seq(|keys|, i requires 0 <= i < |keys| => coeffs[keys[i]])
  }

  /** BiQuadChain::poles: each section's pole pair, in chain order. */
  function ChainPoles(cs: seq<Coefficients>, sqrt: real -> real): (ps: seq<Complex>)
    requires IsSqrt(sqrt)
    ensures |ps| == 2 * |cs|
  {
    if cs == [] then []
    else ChainPoles(cs[..|cs| - 1], sqrt) + PolePair(cs[|cs| - 1].a1, cs[|cs| - 1].a2, sqrt)
  }

  /** Entries 2i and 2i+1 of the chain's poles are the poles of section i. */
  lemma {:induction false} ChainPolesInOrder(cs: seq<Coefficients>, sqrt: real -> real, i: nat)
    requires IsSqrt(sqrt) && i < |cs|
    ensures ChainPoles(cs, sqrt)[2 * i..2 * i + 2] == PolePair(cs[i].a1, cs[i].a2, sqrt)
    decreases |cs|
  {
    var m := |cs| - 1;
    if i < m {
      ChainPolesInOrder(cs[..m], sqrt, i);
      var front := ChainPoles(cs[..m], sqrt);
      assert ChainPoles(cs, sqrt)[..|front|] == front;
    } else {
      assert 2 * i == |ChainPoles(cs[..m], sqrt)|;
    }
  }

  /** One more section appends its pole pair. */
  lemma ChainPolesNext(cs: seq<Coefficients>, i: nat, sqrt: real -> real)
    requires IsSqrt(sqrt) && i < |cs|
    ensures ChainPoles(cs[..i + 1], sqrt) == ChainPoles(cs[..i], sqrt) + PolePair(cs[i].a1, cs[i].a2, sqrt)
  {
    assert cs[..i + 1][..i] == cs[..i];
  }

  /** The coefficient sets whose zeros are defined: b0 is non-zero. */
  predicate ZerosDefined(cs: seq<Coefficients>)
  {
    forall i :: 0 <= i < |cs| ==> cs[i].b0 != 0.0
  }

  /** BiQuadChain::zeros: each section's zero pair, in chain order. */
  function ChainZeros(cs: seq<Coefficients>, sqrt: real -> real): (zs: seq<Complex>)
    requires IsSqrt(sqrt) && ZerosDefined(cs)
    ensures |zs| == 2 * |cs|
  {
    if cs == [] then []
    else ChainZeros(cs[..|cs| - 1], sqrt) + ZeroPair(cs[|cs| - 1].b0, cs[|cs| - 1].b1, cs[|cs| - 1].b2, sqrt)
  }

  /** Entries 2i and 2i+1 of the chain's zeros are the zeros of section i. */
  lemma {:induction false} ChainZerosInOrder(cs: seq<Coefficients>, sqrt: real -> real, i: nat)
    requires IsSqrt(sqrt) && ZerosDefined(cs) && i < |cs|
    ensures ChainZeros(cs, sqrt)[2 * i..2 * i + 2] == ZeroPair(cs[i].b0, cs[i].b1, cs[i].b2, sqrt)
    decreases |cs|
  {
    var m := |cs| - 1;
    if i < m {
      ChainZerosInOrder(cs[..m], sqrt, i);
      var front := ChainZeros(cs[..m], sqrt);
      assert ChainZeros(cs, sqrt)[..|front|] == front;
    } else {
      assert 2 * i == |ChainZeros(cs[..m], sqrt)|;
    }
  }

  /** One more section appends its zero pair. */
  lemma ChainZerosNext(cs: seq<Coefficients>, i: nat, sqrt: real -> real)
    requires IsSqrt(sqrt) && ZerosDefined(cs) && i < |cs|
    ensures ZerosDefined(cs[..i]) && ZerosDefined(cs[..i + 1])
    ensures ChainZeros(cs[..i + 1], sqrt) == ChainZeros(cs[..i], sqrt) + ZeroPair(cs[i].b0, cs[i].b1, cs[i].b2, sqrt)
  {
    assert forall j :: 0 <= j <= i ==> cs[..i + 1][j] == cs[j];
    assert cs[..i + 1][..i] == cs[..i];
  }

  /** Every section passes the stability test. */
  predicate AllStable(cs: seq<Coefficients>)
  {
    forall i :: 0 <= i < |cs| ==> StabilityTriangle(cs[i].a1, cs[i].a2)
  }

  /** A chain is stable exactly when all the poles it reports lie inside the
      unit circle, which is exactly when every section is stable; the empty
      chain is stable. */
  lemma {:induction false} ChainStableIffPolesInside(cs: seq<Coefficients>, sqrt: real -> real)
    requires IsSqrt(sqrt)
    ensures AllInside(ChainPoles(cs, sqrt)) <==> AllStable(cs)
    decreases |cs|
  {
    if cs != [] {
      var m := |cs| - 1;
      ChainStableIffPolesInside(cs[..m], sqrt);
      PolesInsideIffStabilityTriangle(cs[m].a1, cs[m].a2, sqrt);
      AllInsideAppend(ChainPoles(cs[..m], sqrt), PolePair(cs[m].a1, cs[m].a2, sqrt));
      AllStableLast(cs);
    }
  }

  lemma AllStableLast(cs: seq<Coefficients>)
    requires cs != []
    ensures AllStable(cs) <==> AllStable(cs[..|cs| - 1]) && StabilityTriangle(cs[|cs| - 1].a1, cs[|cs| - 1].a2)
  {
    assert forall i :: 0 <= i < |cs| - 1 ==> cs[..|cs| - 1][i] == cs[i];
  }

  lemma AllInsideAppend(ps: seq<Complex>, qs: seq<Complex>)
    ensures AllInside(ps + qs) <==> AllInside(ps) && AllInside(qs)
  {
    if AllInside(ps) && AllInside(qs) {
      forall j | 0 <= j < |ps + qs|
        ensures InsideUnitCircle((ps + qs)[j])
      {
        if j >= |ps| {
          assert (ps + qs)[j] == qs[j - |ps|];
        }
      }
    }
    if AllInside(ps + qs) {
      forall j | 0 <= j < |ps|
        ensures InsideUnitCircle(ps[j])
      {
        assert (ps + qs)[j] == ps[j];
      }
      forall j | 0 <= j < |qs|
        ensures InsideUnitCircle(qs[j])
      {
        assert (ps + qs)[|ps| + j] == qs[j];
      }
    }
  }
}
