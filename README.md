# BiQuad: a verified model of a second-order digital filter library

This project models the core of the biquad filter library in Dafny. The model covers two classes.

`BiQuad` is one second-order section. It stores the transfer function
H(z) = (b0 + b1 z^-1 + b2 z^-2) / (1 + a1 z^-1 + a2 z^-2) and two delay words. It also stores a flag that decides whether a change of coefficients clears those delay words. It advances one sample at a time in direct form II transposed. It can be built from five normalised coefficients or from six raw ones. It can be loaded with a Tustin-discretised PIDF controller. It reports its poles and zeros and whether both poles lie inside the unit circle.

`BiQuadChain` is a cascade of references to such sections. It steps a sample through them in the order they were added. It concatenates their poles and zeros and ANDs their stability tests.

Arithmetic is over Dafny's `real`. Every division the library performs without a guard is a precondition here:

- a0 != 0 for the six-coefficient constructor;
- N Ts + 2 != 0 for `PIDF`;
- b0 != 0 for `zeros`.

std::sqrt is a parameter `sqrt: real -> real`. It may be any function that returns the non-negative square root of a non-negative real (`Roots.IsSqrt`). Every result holds for every such function. A complex number is a pair of reals. `std::abs(p) < 1` is the same test as `re^2 + im^2 < 1`.

Modules, in dependency order:

- `Complex`: complex arithmetic.
- `Roots`: the quadratic formula as `poles`/`zeros` evaluate it, and the unit-circle test. This module proves that the test is equivalent to the stability triangle |a2| < 1, |a1| < 1 + a2.
- `Recurrence`: the value-level meaning of one section. It covers one step, a run over a signal, and the difference equation that the run solves.
- `Pidf`: the PIDF coefficient formulas and their properties. One pole is always at z = 1, and the section's response is the continuous controller at the Tustin image of z.
- `Sections`: class `BiQuad`.
- `Cascade`: the value-level meaning of a chain. Sections are named by keys, so a section added twice is stepped twice. For distinct sections, this module proves that stepping the chain sample by sample is the series connection of the sections.
- `Chains`: class `BiQuadChain` and the free `operator*`.

## Model

| member | source | states |
|---|---|---|
| Recurrence.Run | BiQuad.cpp:47-58 | stepping a section through a signal gives exactly one output per input sample |
| Recurrence.RealisesDifferenceEquation | BiQuad.cpp:47-58 | from rest, the DF-II-transposed recurrence produces outputs that satisfy y[n] = b0 x[n] + b1 x[n-1] + b2 x[n-2] - a1 y[n-1] - a2 y[n-2] at every n. The delay words then hold exactly the pending feed-forward and feedback terms |
| Recurrence.NormalizedSolvesScaledEquation | BiQuad.cpp:13-16 | a section built from six coefficients divides them by a0. From rest it satisfies a0 y[n] + a1 y[n-1] + a2 y[n-2] = b0 x[n] + b1 x[n-1] + b2 x[n-2] |
| Recurrence.IdentityPassesThrough | BiQuad.cpp:3-6 | the unity section (1, 0, 0, 0, 0), started from rest, returns every input unchanged and stays at rest |
| Recurrence.RestIsSilent | BiQuad.cpp:40-43 | after a reset to zero state, a silent input gives a silent output and the state stays zero, whatever the coefficients |
| Roots.PrincipalSqrt | BiQuad.cpp:64-65 | the complex square root of the discriminant has non-negative real and imaginary parts, and one of them is zero |
| Roots.PrincipalSqrtSquares | BiQuad.cpp:64-65 | that square root squares back to the discriminant |
| Roots.PolePair | BiQuad.cpp:60-72 | poles returns exactly two values, (-a1 + ds)/2 then (-a1 - ds)/2, and their sum is -a1 |
| Roots.PolesAreRoots | BiQuad.cpp:60-72 | the two poles multiply to a2, and both are roots of z^2 + a1 z + a2 |
| Roots.QuadraticFormula | BiQuad.cpp:67-68 | given ds^2 = p^2 - 4q, the two values (-p ± ds)/2 sum to -p and multiply to q |
| Roots.ZeroPair | BiQuad.cpp:74-86 | zeros returns exactly two values, (-b1 + ds)/(2 b0) then (-b1 - ds)/(2 b0) |
| Roots.ZerosAreRoots | BiQuad.cpp:74-86 | the two zeros sum to -b1/b0 and multiply to b2/b0. Both are roots of z^2 + (b1/b0) z + b2/b0, which has the same roots as b0 z^2 + b1 z + b2 because b0 != 0 |
| Roots.PolesInsideIffStabilityTriangle | BiQuad.cpp:88-94 | both poles computed by the quadratic formula have modulus below 1 exactly when -1 < a2 < 1 and -(1 + a2) < a1 < 1 + a2. This holds for real and for complex poles, in both directions |
| Pidf.PidfPoles | BiQuad.cpp:22-23 | the PIDF denominator z^2 + a1 z + a2 factors as (z - 1)(z - (2 - N Ts)/(2 + N Ts)). This means a1 = -1 - p and a2 = p, where p is the filter pole |
| Pidf.PidfNeverStable | BiQuad.cpp:22-23 | the integrator pole at z = 1 means a PIDF section never passes the stability test, for any gains |
| Pidf.PidfIsTustinDiscretisation | BiQuad.cpp:18-33 | wherever both sides are defined, the transfer function of the stored coefficients at z equals Kp + Ki/s + Kd N s/(s + N), where s = 2(z - 1)/(Ts (z + 1)) |
| Sections.BiQuad.Unity | BiQuad.cpp:3-6 | the default constructor stores (1, 0, 0, 0, 0), sets the flag and leaves the state at zero |
| Sections.BiQuad.Normalized | BiQuad.cpp:8-11 | the five-coefficient constructor stores them as given, sets the flag and leaves the state at zero |
| Sections.BiQuad.Unnormalized | BiQuad.cpp:13-16 | the six-coefficient constructor stores (b0/a0, b1/a0, b2/a0, a1/a0, a2/a0), sets the flag and leaves the state at zero |
| Sections.BiQuad.Set | BiQuad.cpp:35-45 | stores exactly the five coefficients. It zeroes both delay words when the flag is set and otherwise leaves them unchanged. The flag itself does not change |
| Sections.BiQuad.PIDF | BiQuad.cpp:18-33 | stores the coefficients of lines 22-29 through Set, so the reset policy applies |
| Sections.BiQuad.Step | BiQuad.cpp:47-58 | returns y = b0 x + w0 and sets w0 to b1 x - a1 y + w1 (the old w1) and w1 to b2 x - a2 y. Only the delay words change |
| Sections.BiQuad.Poles | BiQuad.cpp:60-72 | exactly two values, whose sum is -a1. They are the pole pair of the stored a1, a2 |
| Sections.BiQuad.Zeros | BiQuad.cpp:74-86 | exactly two values, the zero pair of the stored b0, b1, b2 |
| Sections.BiQuad.Stable | BiQuad.cpp:88-94 | the fold of "modulus below 1" over the poles. It holds exactly when every pole lies inside the unit circle, which is exactly the stability triangle of a1, a2 |
| Sections.BiQuad.SetResetStateOnGainChange | BiQuad.cpp:96-98 | records the flag and changes nothing else |
| Cascade.CascadeStep | BiQuad.cpp:111-122 | the empty chain returns its input, and stepping keeps the set of sections that have a state |
| Cascade.CascadeFrame | BiQuad.cpp:118-119 | stepping a chain leaves the delay words of every section outside the chain unchanged |
| Cascade.CascadeAppend | BiQuad.cpp:111-122 | a chain split in two behaves as the first part followed by the second. The second part starts from the first part's output and from the states the first part left |
| Cascade.CascadePair | BiQuad.cpp:111-122 | a two-section chain returns bq2.step(bq1.step(x)). When both entries are the same section, the second step starts from the state the first one left. With two distinct sections, the second one steps from its own earlier state |
| Cascade.Drive | BiQuad.cpp:111-122 | stepping the chain through a signal gives one output per input and keeps the set of sections that have a state |
| Cascade.DriveEmpty | BiQuad.cpp:111-122 | the empty chain passes every signal through unchanged and changes no state |
| Cascade.DriveAppend | BiQuad.cpp:111-122 | a new distinct section at the end runs over the whole output signal of the shorter chain. It ends in the state that run leaves, and the other sections end as before |
| Cascade.DriveIsPipe | BiQuad.cpp:111-122 | for distinct sections, stepping the chain sample by sample is the series connection. Each section responds to the complete output of the sections before it |
| Cascade.ChainPoles | BiQuad.cpp:124-143 | a chain of n sections reports 2n poles |
| Cascade.ChainPolesInOrder | BiQuad.cpp:132-135 | entries 2i and 2i+1 of the chain's poles are the pole pair of section i, so the pairs appear in chain order |
| Cascade.ChainZeros | BiQuad.cpp:124-147 | a chain of n sections reports 2n zeros |
| Cascade.ChainZerosInOrder | BiQuad.cpp:132-135 | entries 2i and 2i+1 of the chain's zeros are the zero pair of section i |
| Cascade.ChainStableIffPolesInside | BiQuad.cpp:149-154 | every section is stable exactly when every pole of the chain lies inside the unit circle |
| Chains.BiQuadChain.constructor | BiQuad.h:152-155 | a new chain holds no sections |
| Chains.BiQuadChain.Add | BiQuad.cpp:100-103 | appends the section at the end, leaves earlier entries unchanged, and returns this same chain |
| Chains.BiQuadChain.Times | BiQuad.cpp:156-159 | chain * bq appends bq to this chain and returns it |
| Chains.Product | BiQuad.cpp:105-109 | bq1 * bq2 is a new chain holding exactly [bq1, bq2] |
| Chains.BiQuadChain.Step | BiQuad.cpp:111-122 | the output and every section's new delay words are those of the cascade specification, with aliased sections stepped once per occurrence. No coefficient changes |
| Chains.BiQuadChain.StepSection | BiQuad.cpp:119 | one section of the chain steps, and in the chain's map of states only its entry changes |
| Chains.BiQuadChain.PolesZeros | BiQuad.cpp:124-139 | the loop's concatenation equals the in-order concatenation of each section's zero pair (when zeros is set) or pole pair (otherwise) |
| Chains.BiQuadChain.Poles | BiQuad.cpp:141-143 | the in-order concatenation of the pole pairs, 2n values |
| Chains.BiQuadChain.Zeros | BiQuad.cpp:145-147 | the in-order concatenation of the zero pairs, 2n values |
| Chains.BiQuadChain.Stable | BiQuad.cpp:149-154 | the AND of every section's test. It is true for the empty chain, and true exactly when all the chain's poles lie inside the unit circle |

## Left out

- IEEE double arithmetic (rounding, overflow, NaN and infinity) is modelled by exact reals. The unguarded divisions are preconditions instead of producing infinities.
- std::sqrt and std::abs on std::complex are not modelled directly. The square root is a parameter constrained by `Roots.IsSqrt`, and the modulus test is the squared-modulus test.
- `set` is private in the C++ class. Dafny can express this only with export sets, which this model does not use, so `Sections.BiQuad.Set` is callable here.
- The inline arrays B[3], A[2] and wz[2] are scalar fields b0..b2, a1, a2, w0, w1. They are value members of the object, so no aliasing between them is possible.
- Raw pointers in the chain are object references. Their lifetime and ownership are not modelled. A section may be added more than once, and the chain's step handles that case.
- The series-connection theorem (`Cascade.DriveIsPipe`) is stated for chains whose sections are distinct. With a repeated section, the chain's behaviour is still given exactly by `Cascade.CascadeStep`.
- The demo driver main.cpp is not part of this model: it only prints values.
- The usage example in the header's doc comment is not modelled.
- The header does not declare the two `operator*` overloads. They are modelled as the .cpp defines them.
- Sections.BiQuad.Unnormalized: requires a0 != 0, where C++ would store infinities or NaN.
- Sections.BiQuad.PIDF: requires N Ts + 2 != 0, where C++ would store infinities or NaN.
- Sections.BiQuad.Zeros: requires b0 != 0, where C++ would return infinities or NaN. Its own contract gives only the count; that the zeros are the roots of the numerator is `Roots.ZerosAreRoots`, a lemma about the same `Roots.ZeroPair` value.
- Sections.BiQuad.Poles: its own contract gives the count and the sum; the product and the root property are `Roots.PolesAreRoots`, a lemma about the same `Roots.PolePair` value.
- Roots.PolePair: its own contract gives the count and the sum; the product and the root property are the lemma `Roots.PolesAreRoots`.
- Roots.ZeroPair: its own contract gives the count; the sum, the product and the root property are the lemma `Roots.ZerosAreRoots`.
- Roots.PrincipalSqrt: its own contract gives the signs of the parts; that it squares back to its argument is the lemma `Roots.PrincipalSqrtSquares`.
