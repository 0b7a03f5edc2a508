/** A chain of sections (class BiQuadChain): a sequence of references to
    BiQuad objects, stepped in the order they were added. The same section
    may be added more than once; it is then stepped once per occurrence. */
module Chains {
  import opened Complex
  import opened Roots
  import opened Recurrence
  import opened Cascade
  import opened Sections

  class BiQuadChain {
    var biquads: seq<BiQuad>

    /** The chain starts empty. */
    constructor ()
      ensures biquads == []
    {
      biquads := [];
    }

    /** The sections the chain refers to. */
    function Members(): set<BiQuad>
      reads this
    {
      set bq | bq in biquads
    }

    /** Each referenced section's coefficients. */
    function CoeffMap(): (cm: map<BiQuad, Coefficients>)
      reads this, Members()`b0, Members()`b1, Members()`b2, Members()`a1, Members()`a2
      ensures forall i :: 0 <= i < |biquads| ==> biquads[i] in cm && cm[biquads[i]] == biquads[i].Coeffs()
    {
      map bq | bq in biquads :: bq.Coeffs()
    }

    /** Each referenced section's delay words. */
    function StateMap(): (sm: map<BiQuad, State>)
      reads this, Members()`w0, Members()`w1
      ensures sm.Keys == Members()
      ensures forall i :: 0 <= i < |biquads| ==> biquads[i] in sm && sm[biquads[i]] == biquads[i].Delay()
    {
      map bq | bq in biquads :: bq.Delay()
    }

    /** The coefficients of the sections in chain order. */
    function Coeffs(): (cs: seq<Coefficients>)
      reads this, Members()`b0, Members()`b1, Members()`b2, Members()`a1, Members()`a2
      ensures |cs| == |biquads| && forall i :: 0 <= i < |biquads| ==> cs[i] == biquads[i].Coeffs()
    {
      CoeffsOf(biquads, CoeffMap())
    }

    /** Appends bq and returns this same chain, so that calls can be chained. */
    method Add(bq: BiQuad) returns (chain: BiQuadChain)
      modifies this
      ensures chain == this && biquads == old(biquads) + [bq]
    {
      biquads := biquads + [bq];
      chain := this;
    }

    /** chain * bq: appends bq to this chain and returns it. */
    method Times(bq: BiQuad) returns (chain: BiQuadChain)
      modifies this
      ensures chain == this && biquads == old(biquads) + [bq]
    {
      chain := Add(bq);
    }

    /** One sample through every section in chain order: each section's
        output is the next one's input, and each occurrence of a section
        advances its delay words. Coefficients do not change. */
    method Step(x: real) returns (y: real)
      modifies Members()`w0, Members()`w1
      ensures Covers(biquads, old(CoeffMap()), old(StateMap()))
      ensures var r := CascadeStep(biquads, old(CoeffMap()), old(StateMap()), x);
        y == r.0 && StateMap() == r.1
      ensures CoeffMap() == old(CoeffMap())
    {
      ghost var coeffs, states := CoeffMap(), StateMap();
      y := x;
      var i := 0;
      while i < |biquads|
        invariant 0 <= i <= |biquads|
        invariant CoeffMap() == coeffs
        invariant Covers(biquads, coeffs, states)
        invariant (y, StateMap()) == CascadeStep(biquads[..i], coeffs, states, x)
      {
        CascadeStepNext(biquads, i, coeffs, states, x);
        y := StepSection(biquads[i], y);
        i := i + 1;
      }
      assert biquads[..i] == biquads;
    }

    /** One section of the chain steps; in the chain's map of delay words
        only its entry changes. */
    method StepSection(bq: BiQuad, x: real) returns (y: real)
      requires bq in biquads
      modifies bq`w0, bq`w1
      ensures (y, bq.Delay()) == StepSpec(bq.Coeffs(), old(bq.Delay()), x)
      ensures StateMap() == old(StateMap())[bq := bq.Delay()]
      ensures CoeffMap() == old(CoeffMap())
    {
      y := bq.Step(x);
    }

    /** BiQuadChain::poles_zeros: the pole pairs, or with zeros set the zero
        pairs, of the sections concatenated in chain order. */
    method PolesZeros(zeros: bool, sqrt: real -> real) returns (chain: seq<Complex>)
      requires IsSqrt(sqrt)
      requires zeros ==> ZerosDefined(Coeffs())
      ensures chain == if zeros then ChainZeros(Coeffs(), sqrt) else ChainPoles(Coeffs(), sqrt)
    {
      ghost var cs := Coeffs();
      chain := [];
      var i := 0;
      while i < |biquads|
        invariant 0 <= i <= |biquads|
        invariant zeros ==> ZerosDefined(cs[..i]) && chain == ChainZeros(cs[..i], sqrt)
        invariant !zeros ==> chain == ChainPoles(cs[..i], sqrt)
      {
        ghost var c := cs[i];
        assert c == biquads[i].Coeffs();
        var bq := if zeros then biquads[i].Zeros(sqrt) else biquads[i].Poles(sqrt);
        chain := chain + bq;
        if zeros {
          ChainZerosNext(cs, i, sqrt);
        } else {
          ChainPolesNext(cs, i, sqrt);
        }
        i := i + 1;
      }
      assert cs[..i] == cs == Coeffs();
    }

    /** Two values per section: the poles of section i at 2i and 2i+1. */
    method Poles(sqrt: real -> real) returns (ps: seq<Complex>)
      requires IsSqrt(sqrt)
      ensures ps == ChainPoles(Coeffs(), sqrt) && |ps| == 2 * |biquads|
    {
      ps := PolesZeros(false, sqrt);
    }

    /** Two values per section: the zeros of section i at 2i and 2i+1. */
    method Zeros(sqrt: real -> real) returns (zs: seq<Complex>)
      requires IsSqrt(sqrt) && ZerosDefined(Coeffs())
      ensures zs == ChainZeros(Coeffs(), sqrt) && |zs| == 2 * |biquads|
    {
      zs := PolesZeros(true, sqrt);
    }

    /** The AND of every section's stability test: true for the empty chain,
        and true exactly when all the chain's poles lie inside the unit circle. */
    method Stable(sqrt: real -> real) returns (stable: bool)
      requires IsSqrt(sqrt)
      ensures stable <==> AllStable(Coeffs())
      ensures stable <==> AllInside(ChainPoles(Coeffs(), sqrt))
    {
      ghost var cs := Coeffs();
      stable := true;
      var i := 0;
      while i < |biquads|
        invariant 0 <= i <= |biquads|
        invariant stable <==> AllStable(cs[..i])
      {
        var s := biquads[i].Stable(sqrt);
        assert cs[i].a1 == biquads[i].a1 && cs[i].a2 == biquads[i].a2;
        stable := stable && s;
        AllStableLast(cs[..i + 1]);
        assert cs[..i + 1][..i] == cs[..i];
        i := i + 1;
      }
      assert cs[..i] == cs == Coeffs();
      ChainStableIffPolesInside(cs, sqrt);
    }
  }

  /** bq1 * bq2: a new chain holding bq1 then bq2. */
  method Product(bq1: BiQuad, bq2: BiQuad) returns (bqc: BiQuadChain)
    ensures fresh(bqc) && bqc.biquads == [bq1, bq2]
  {
    bqc := new BiQuadChain();
    var chain := bqc.Add(bq1);
    chain := chain.Add(bq2);
  }
}
