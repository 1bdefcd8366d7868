# Proofs about the keyless prover

This project models the arithmetic at the heart of the prover service and proves it correct in Dafny 4.11:
the CPU path of the Groth16 prover in `rust-rapidsnark/rapidsnark/src`, layer by layer, and the token field
parser and quote tracker of the prover service. `dafny verify dfyconfig.toml` checks everything.

## What is modelled

Each layer is a program with a specification, and each specification is what the layer above relies on.

- **Limbs and fields.** `Limbs` gives the `mpn_` primitives their meaning on limb arrays. `RawField` holds the
  four-limb Montgomery code as straight-line methods over mutable arrays, once for both fields, with the
  constants of each checked in its constructor; `fr_raw_generic.cpp` and `fr_generic.cpp` repeat the base field
  files line by line. `Montgomery` and `Modular` hold the number theory.
  `MontgomeryRing` shows that the residues form a commutative ring, so that the results below, stated for
  every commutative ring, hold of the limbs. `FieldElement` is the tagged element with its four
  representations.
- **Transform and quotient.** `Fft` is the in-place transform over an array, `FftStages` the meaning of its
  stages, `Fourier` the algebra of the transform, `BitReversal` the index network, `FftSetup` the table
  construction, and `ScalarRoots` gives the root for the real scalar field, with the half-order power of 5
  computed step by step in `ScalarCertificates`. `Quotient`, `ProverQuotient` and
  `QuotientSum` follow the prover from the values of a and b to the sum over the points of the key.
- **Group operations.** `Naf` and `ScalarMul` are the signed-digit recoding and the multiplication that scans
  it. `ParallelMultiexp` is the bucket algorithm on its shared array, with `Windows`, `BucketSums` and
  `BucketArray` for the sums; both work in any abelian group. `CurvePoints` holds the inversion-free point
  formulas on mutable points; `XyzzFormulas` and `AffineCurve` relate them to chord and tangent, `CurveLaws`
  says which points those are, and `CurveGroup` makes the abelian group of them. Polynomial identities are
  decided by `RingSolver`, a normaliser proved sound for every commutative ring.
- **Accumulation.** `Accumulation` is a step machine: threads, the phases of one locked update, 1024 lock
  words, shared arrays, any interleaving.
- **Assembly.** `ProofAssembly` joins the sums into a proof and derives the pairing equation.
- **Token text.** `Utf8` is the encoding that byte offsets refer to, `FieldParser` is the cursor-driven parser,
  `FieldLayout` the exact set of texts it accepts, `StringBodies` the two quote trackers.

Loops that the source runs in parallel take their iterations from a set in an arbitrary order, and the thread
that runs an iteration is arbitrary too. Methods keep the branches, the order of writes and the aliasing the
source allows; where a result depends on whether the destination is an operand the contract says how.

## Where the code does less than one might expect

- `Fq_toMontgomery` on a short operand does not write the short value of another destination. The result is
  valid exactly when that value already agreed (`FieldElement.ToMontgomery`); the operations of the field use
  only the limbs of such results.
- `Fq_add` and `Fq_sub` write the tag of the result before they convert the operand without Montgomery limbs.
  When that operand is the destination itself, it is taken for converted, and plain limbs come out wrong for
  every value but 0 (`FieldElement.PlainInPlace`; `FieldElement.Add` and `FieldElement.Sub` give the exact
  conditions). The other operations are right in place.
- `Fq_rawNegLS` returns q, not 0, when both operands are 0, and 0 when its destination is its long operand
  (`RawField.Raw.RawNegLS`). Its caller passes a nonzero short operand, and is wrong in place of the
  subtrahend (`FieldElement.ShortLessInPlace`).
- The parser takes the first character after an opening quote without looking at it, although its comment
  speaks of pushing the quote, so an empty quoted text is misread (`FieldLayout.LegalParsesBack`).
- The quote tracker of the service differs from the circuit's reference on empty strings and on quotes behind
  an even run of backslashes (`StringBodies.AgreeIff` gives the exact condition).
- A comment in `multiexp.cpp` says that the last bit of a chunk is always zero. It need not be, and nothing
  relies on it.

## Model

| member | source | states |
|---|---|---|
| BitReversal.BRIsReversal | rust-rapidsnark/rapidsnark/src/fft.cpp:31-39 | the shift-and-mask network, with 64-bit shifts of 32-bit masks, reverses the d low bits of any index below 2^d, for every d up to 32 |
| BitReversal.RevInvolution | rust-rapidsnark/rapidsnark/src/fft.cpp:182-190 | reversing bits twice gives the index back, so exchanging every i above its partner permutes the array |
| Fft.FFT.ReversePermutation | rust-rapidsnark/rapidsnark/src/fft.cpp:173-193 | afterwards entry i holds what stood at its bit-reversed index, whichever order the iterations run in |
| Fft.FFT.OmegaIsRoot | rust-rapidsnark/rapidsnark/src/fft.cpp:89-105 | the entry the table gives for order 2^k has its 2^(k-1)-th power equal to -1, and squares to the entry for order 2^(k-1) |
| Fft.FFT.OneButterfly | rust-rapidsnark/rapidsnark/src/fft.cpp:218-227 | one iteration changes two entries, to sum and difference with the twiddled upper one, and no others |
| Fft.FFT.Butterflies | rust-rapidsnark/rapidsnark/src/fft.cpp:208-229 | a stage does every butterfly exactly once in any order |
| FftStages.StageZero | rust-rapidsnark/rapidsnark/src/fft.cpp:205-206 | the bit-reversed array already holds all transforms of length one |
| FftStages.StageStep | rust-rapidsnark/rapidsnark/src/fft.cpp:208-229 | if blocks hold transforms of the strided subsequences before a stage, blocks twice as long do after it |
| FftStages.StageLast | rust-rapidsnark/rapidsnark/src/fft.cpp:205-230 | after the last stage the one block is the transform of the whole input |
| Fft.FFT.Fft | rust-rapidsnark/rapidsnark/src/fft.cpp:205-230 | for every 2^d up to the table and every input, entry i becomes the sum over j of a[j] * w^(i*j), w the root of order 2^d |
| Fft.FFT.Ifft | rust-rapidsnark/rapidsnark/src/fft.cpp:242-263 | the inverse by transform, index reflection and scaling is the scaled sum with w^(-i*j), lengths 1 and 2 included |
| Fft.ReflectAndScale | rust-rapidsnark/rapidsnark/src/fft.cpp:246-263 | the loop over 1 to n/2 and the two last lines scale every entry once and move it to minus its index |
| Fourier.Butterfly | rust-rapidsnark/rapidsnark/src/fft.cpp:223-226 | values of a polynomial at w^j and w^(j+n/2) from those of its even and odd parts at w^(2j) |
| Fourier.DftTwice | rust-rapidsnark/rapidsnark/src/fft.cpp:242-263 | two transforms in a row multiply by n and reflect indices; only w^(n/2) = -1 is used, no primality and no field |
| Fourier.InverseAfterDft | rust-rapidsnark/rapidsnark/src/fft.cpp:242-263 | ifft undoes fft |
| Fourier.DftAfterInverse | rust-rapidsnark/rapidsnark/src/fft.cpp:242-263 | fft undoes ifft |
| Fft.FFT.RoundTrip | rust-rapidsnark/rapidsnark/src/fft.cpp:195-264 | with the tables of the constructor the two transforms undo each other on every array of 2^d entries, d from 0 to s |
| FftSetup.Exp | rust-rapidsnark/rapidsnark/src/fr.cpp:259-278 | square-and-multiply from the top bit computes base^scalar for every scalar of the given size, zero included |
| FftSetup.SpansCover | rust-rapidsnark/rapidsnark/src/fft.cpp:112-117 | every index from 2 up lies in some span of the parallel fill, for every number of spans, more than roots included |
| FftSetup.FillRoots | rust-rapidsnark/rapidsnark/src/fft.cpp:107-126 | after the fill roots[i] = roots[1]^i for every i, in any order of the spans, overlaps included |
| FftSetup.HalfOrderPower | rust-rapidsnark/rapidsnark/src/fft.cpp:64-70 | in a field of odd prime order the half-order power of a non-residue is -1 |
| FftSetup.FindNonResidue | rust-rapidsnark/rapidsnark/src/fft.cpp:64-72 | the search stops at the least integer from 2 up whose half-order power is not 1, and that power is -1 |
| FftSetup.RootFromNonResidue | rust-rapidsnark/rapidsnark/src/fft.cpp:99-100 | the power of a non-residue by (q - 1) / 2^s, which may still be even when the halving stopped at the wanted power, is a root of order exactly 2^s |
| FftSetup.TwoPart | rust-rapidsnark/rapidsnark/src/fft.cpp:76-82 | the halving loop leaves aux = (q - 1) / 2^s without a remainder, and s below the wanted power exactly when 2 to that power does not divide q - 1 |
| FftSetup.HasTwosIs | rust-rapidsnark/rapidsnark/src/fft.cpp:76-82 | a number halves evenly d times exactly when 2^d divides it |
| FftSetup.InversePowers | rust-rapidsnark/rapidsnark/src/fft.cpp:102-134 | entry i of the table is the inverse of 2^i |
| FftSetup.Make | rust-rapidsnark/rapidsnark/src/fft.cpp:44-140 | roots[1] is the power by (q - 1) / 2^s of the least non-residue, s the logarithm of the domain and at least 1, on tables with which every transform above is right; or the domain is refused, exactly when the largest power of two in it does not divide q - 1 |
| ScalarRoots.FiveIsNonResidue | rust-rapidsnark/rapidsnark/src/fft.cpp:64-72 | 5 is no square in the real scalar ring: its half-order power is -1, computed through all 254 bits of the exponent |
| ScalarRoots.TheRoot | rust-rapidsnark/rapidsnark/src/fft.cpp:99-100 | 5^((q - 1) / 2^s) has order exactly 2^s in the real scalar ring, for every s from 1 to 28 |
| ScalarRoots.ScalarFFT | rust-rapidsnark/rapidsnark/src/fft.cpp:89-134 | over the real scalar ring, for every s up to 28, tables on which every transform above is right, with roots[1] = 5^((q - 1) / 2^s) (the division written as a shift), nothing assumed of the field |
| Quotient.EvalMul | rust-rapidsnark/rapidsnark/src/groth16.cpp:160-167 | values of a product polynomial are products of values |
| Quotient.FoldedDft | rust-rapidsnark/rapidsnark/src/groth16.cpp:160-167 | on the n-th roots a polynomial of length 2n takes the values of its halves added up |
| Quotient.InterpolantIsFolded | rust-rapidsnark/rapidsnark/src/groth16.cpp:160-167 | the interpolant of the pointwise product is the sum of the halves of A * B |
| Quotient.QuotientIdentity | rust-rapidsnark/rapidsnark/src/groth16.cpp:160-275 | A * B - C is the upper half of A * B times X^n - 1, coefficient by coefficient |
| Quotient.EvalTimesXnMinusOne | rust-rapidsnark/rapidsnark/src/groth16.cpp:264-275 | the polynomial called H * (X^n - 1) above has at every x the value H(x) * (x^n - 1) |
| Quotient.QuotientOnCoset | rust-rapidsnark/rapidsnark/src/groth16.cpp:264-275 | where X^n = -1 the difference a * b - c is -2 H |
| ProverQuotient.ShiftToCoset | rust-rapidsnark/rapidsnark/src/groth16.cpp:182-190 | multiplying entry i by the i-th power of the root of order 2n turns coefficients of p(X) into those of p(zX) |
| ProverQuotient.TwistedDft | rust-rapidsnark/rapidsnark/src/groth16.cpp:182-195 | the transform of the shifted coefficients lists p at z, z^3, z^5, ... |
| ProverQuotient.ToCoset | rust-rapidsnark/rapidsnark/src/groth16.cpp:172-199 | ifft, shift and fft in place take values on the n-th roots to values of the interpolant on the coset |
| ProverQuotient.QuotientPolynomial | rust-rapidsnark/rapidsnark/src/groth16.cpp:160-275 | there is one H with A * B - C = H * (X^n - 1), as coefficients and as values everywhere |
| ProverQuotient.QuotientValues | rust-rapidsnark/rapidsnark/src/groth16.cpp:160-275 | the array handed to the last multi-exponentiation holds -2 * H(z^(2k+1)) at k, out of Montgomery form, where A, B interpolate a, b, C their pointwise product, and A * B - C = H * (X^n - 1) |
| QuotientSum.MemoryScalar | rust-rapidsnark/rapidsnark/src/groth16.cpp:283 | element i of the array of field elements is scalar i of the bytes the array occupies |
| QuotientSum.CommitQuotient | rust-rapidsnark/rapidsnark/src/groth16.cpp:160-283 | in the real scalar field pih is the sum over k of values[k] times pointsH[k], where values[k], encoded (times R modulo q), is the element -2 * H(z^(2k+1)) and A * B - C = H * (X^n - 1) |
| Log2.Log2IsFloor | rust-rapidsnark/rapidsnark/src/misc.hpp:8-20 | the smear, the multiplication and the table lookup give the floor of the binary logarithm of every nonzero 32-bit word |
| Log2.Log2OfZero | rust-rapidsnark/rapidsnark/src/misc.hpp:8-20 | the lookup gives 0 for the word 0 |
| Windows.LoadShiftMask | rust-rapidsnark/rapidsnark/src/multiexp.cpp:30-45 | the 64-bit load, shift and mask read exactly the window bits, also when the load is moved down to stay inside the scalar and the mask narrowed at its end |
| Windows.WindowsMakeScalar | rust-rapidsnark/rapidsnark/src/multiexp.cpp:227-246 | the windows, each times two to its place, add up to the little-endian scalar |
| ParallelMultiexp.Multiexp.GetChunk | rust-rapidsnark/rapidsnark/src/multiexp.cpp:30-45 | window chunkIdx of scalar scalarIdx, for every scalar of at least 8 bytes and every window including the last, shorter one |
| ParallelMultiexp.Multiexp.InitAccs | rust-rapidsnark/rapidsnark/src/multiexp.cpp:14-27 | all buckets of all threads are empty |
| ParallelMultiexp.Multiexp.ProcessChunk | rust-rapidsnark/rapidsnark/src/multiexp.cpp:50-75 | in any order and on any threads, every bucket gains over all rows the sum of the bases with its window value |
| ParallelMultiexp.Multiexp.PackThreads | rust-rapidsnark/rapidsnark/src/multiexp.cpp:113-134 | the first row gets the sum of every bucket over the threads and the other rows are emptied |
| BucketArray.WindowResult | rust-rapidsnark/rapidsnark/src/multiexp.cpp:238-247 | from empty buckets, filling and merging leave a first row whose weighted sum is the sum of window value times base |
| BucketArray.ClearAgain | rust-rapidsnark/rapidsnark/src/multiexp.cpp:235-247 | after a window every bucket but that of zero is empty again, so one initialisation serves all windows |
| BucketSums.Fold | rust-rapidsnark/rapidsnark/src/multiexp.cpp:152-183 | folding the upper half of the buckets onto the lower and adding 2^(nBits-1) times its plain sum keeps the weighted sum |
| BucketSums.BucketsWeigh | rust-rapidsnark/rapidsnark/src/multiexp.cpp:58-75 | weighing the buckets by their numbers gives every base times its window value |
| ParallelMultiexp.Multiexp.Reduce | rust-rapidsnark/rapidsnark/src/multiexp.cpp:137-184 | returns the sum over v of v times bucket v as it was, empties buckets 1 to 2^nBits - 1 and leaves all others alone; bucket 0 has no effect |
| ParallelMultiexp.Multiexp.Window | rust-rapidsnark/rapidsnark/src/multiexp.cpp:238-247 | one window from clear buckets to clear buckets, worth the sum of window value times base |
| BucketSums.WindowTerm | rust-rapidsnark/rapidsnark/src/multiexp.cpp:251-257 | 2^b times what is left above a window plus the window is what is left below it, summed over all points |
| ParallelMultiexp.Multiexp.Combine | rust-rapidsnark/rapidsnark/src/multiexp.cpp:251-257 | doubling and adding the window results from the top gives the sum of scalar times base |
| ParallelMultiexp.Multiexp.MultiExp | rust-rapidsnark/rapidsnark/src/multiexp.cpp:187-260 | r is the sum of scalar_i * base_i for every n below 2^32, 0 and 1 included, every number of threads and every distribution of the work |
| Naf.StepKeepsValue | rust-rapidsnark/rapidsnark/src/naf.cpp:10-42 | no step of the automaton loses or gains value |
| Naf.PrefixValue | rust-rapidsnark/rapidsnark/src/naf.cpp:5-51 | the digits put out and what is pending make up the scalar modulo the next power of two |
| Naf.DigitsSumToScalar | rust-rapidsnark/rapidsnark/src/naf.cpp:55-74 | the weighted sum of the signed digits is the scalar |
| Naf.NonAdjacent | rust-rapidsnark/rapidsnark/src/naf.cpp:13-41 | of two neighbouring digits one is zero |
| Naf.DrainsAbove | rust-rapidsnark/rapidsnark/src/naf.cpp:63-73 | no digit above index 8 * scalarSize is nonzero |
| Naf.BuildNafTable | rust-rapidsnark/rapidsnark/src/naf.cpp:5-51 | entry in holds the eight digits and the state the automaton reaches from the ten bits of in |
| Naf.EntryDigits | rust-rapidsnark/rapidsnark/src/naf.cpp:44-46 | the mask 0x03 in every byte gives the digits back although the state is stored in the same word |
| Naf.EntryFlags | rust-rapidsnark/rapidsnark/src/naf.cpp:44-46 | bits 2 and 3 of an entry are the carry and the pending bit |
| Naf.Window | rust-rapidsnark/rapidsnark/src/naf.cpp:63-73 | the index made from the state, seven bits of the byte and one of the next finds the next eight digits of the scalar |
| Naf.BuildNaf | rust-rapidsnark/rapidsnark/src/naf.cpp:55-74 | byte k of the output is digit k of the recoding, for every scalar of at least one byte |
| ScalarMul.ScanIsEnough | rust-rapidsnark/rapidsnark/src/exp.hpp:12-19 | the 8 * scalarSize + 2 digits that are scanned are worth the whole scalar |
| ScalarMul.NafMulByScalar | rust-rapidsnark/rapidsnark/src/exp.hpp:10-31 | r becomes scalar times base for every scalar and base, also when r is the same object as base |
| Limbs.AddN | rust-rapidsnark/rapidsnark/src/fq_raw_generic.cpp:14 | mpn_add_n: sum and carry, in place too |
| Limbs.Add1 | rust-rapidsnark/rapidsnark/src/fq_raw_generic.cpp:24 | mpn_add_1: four-limb sum with one limb and the carry out |
| Limbs.AddShorter | rust-rapidsnark/rapidsnark/src/fq_raw_generic.cpp:126 | mpn_add: sum with a shorter operand at an offset and the carry out |
| Limbs.SubN | rust-rapidsnark/rapidsnark/src/fq_raw_generic.cpp:34 | mpn_sub_n: difference and borrow |
| Limbs.Sub1 | rust-rapidsnark/rapidsnark/src/fq_raw_generic.cpp:61 | mpn_sub_1: difference with one limb and the borrow out |
| Limbs.Mul1 | rust-rapidsnark/rapidsnark/src/fq_raw_generic.cpp:120 | mpn_mul_1: product with one limb and the top limb |
| Limbs.AddMul1 | rust-rapidsnark/rapidsnark/src/fq_raw_generic.cpp:123 | mpn_addmul_1: sum with a one-limb multiple and the top limb |
| Limbs.Cmp | rust-rapidsnark/rapidsnark/src/fq_raw_generic.cpp:16 | mpn_cmp orders the numbers |
| RawField.BaseModulus | rust-rapidsnark/rapidsnark/src/fq_raw_generic.cpp:6-8 | q and np of the base field satisfy what the reduction relies on |
| RawField.ScalarModulus | rust-rapidsnark/rapidsnark/src/fr_raw_generic.cpp:5-7 | q and np of the scalar field satisfy what the reduction relies on |
| RawField.BasePowers | rust-rapidsnark/rapidsnark/src/fq_generic.cpp:7-8 | R2 and R3 of the base field act as R^2 and R^3 |
| RawField.ScalarPowers | rust-rapidsnark/rapidsnark/src/fr_generic.cpp:7-8 | R2 and R3 of the scalar field act as R^2 and R^3 |
| RawField.Raw.Base | rust-rapidsnark/rapidsnark/src/fq_raw_generic.cpp:6-8 | the constants of the base field, half = (q - 1) / 2 included |
| RawField.Raw.Scalar | rust-rapidsnark/rapidsnark/src/fr_raw_generic.cpp:5-7 | the constants of the scalar field |
| RawField.Raw.RawAdd | rust-rapidsnark/rapidsnark/src/fq_raw_generic.cpp:12-20 | sum modulo q below q, in place too; for any operands up to 2^256 + q together, the sum less q once it has reached q |
| RawField.Raw.RawAddLS | rust-rapidsnark/rapidsnark/src/fq_raw_generic.cpp:22-30 | sum of four limbs and one limb modulo q, below q |
| RawField.Raw.RawSub | rust-rapidsnark/rapidsnark/src/fq_raw_generic.cpp:32-40 | difference modulo q below q; for any operands, the difference with q added once when it is negative, and 2^256 if it still is |
| RawField.Raw.RawSubSL | rust-rapidsnark/rapidsnark/src/fq_raw_generic.cpp:47-57 | one limb minus four limbs modulo q, below q |
| RawField.Raw.RawSubLS | rust-rapidsnark/rapidsnark/src/fq_raw_generic.cpp:59-67 | four limbs minus one limb modulo q, below q |
| RawField.Raw.RawNeg | rust-rapidsnark/rapidsnark/src/fq_raw_generic.cpp:69-81 | the negative, zero for zero |
| RawField.Raw.RawNegLS | rust-rapidsnark/rapidsnark/src/fq_raw_generic.cpp:84-93 | the negated sum, below q exactly unless both operands are zero, when q itself comes out; 0 when the destination is the long operand, which is overwritten before it is read |
| RawField.Raw.RawCopyS2L | rust-rapidsnark/rapidsnark/src/fq_raw_generic.cpp:265-280 | sign extension and one addition of q give the residue of any signed 64-bit number |
| RawField.Raw.ClearLow | rust-rapidsnark/rapidsnark/src/fq_raw_generic.cpp:122-123 | adding q times np0 clears the low limb, never carries out of five limbs and leaves less than 2q above |
| RawField.Raw.NextRow | rust-rapidsnark/rapidsnark/src/fq_raw_generic.cpp:125-126 | the stored carry is zero and the dropped one too: the next row is exactly b * a[i] plus the shifted row before |
| Montgomery.OneMore | rust-rapidsnark/rapidsnark/src/fq_raw_generic.cpp:120-141 | one more row keeps 2^(64 i) * t equal to b times the limbs used so far plus a multiple of q |
| Montgomery.Divided | rust-rapidsnark/rapidsnark/src/fq_raw_generic.cpp:143-148 | what is left after four rows and at most one subtraction is the unique residue below q of the product over R |
| RawField.Raw.RawMMul | rust-rapidsnark/rapidsnark/src/fq_raw_generic.cpp:108-149 | a * b / R modulo q, below q, for any four limbs a and any b below q, r an operand or not |
| RawField.Raw.RawMMul1 | rust-rapidsnark/rapidsnark/src/fq_raw_generic.cpp:156-191 | a * b / R modulo q, below q, for a single limb b |
| RawField.Raw.RawFromMontgomery | rust-rapidsnark/rapidsnark/src/fq_raw_generic.cpp:198-233 | a / R modulo q for any four limbs |
| RawField.Raw.RawToMontgomery | rust-rapidsnark/rapidsnark/src/fq_raw_generic.cpp:193-196 | a * R modulo q for any four limbs |
| Montgomery.InverseThroughR3 | rust-rapidsnark/rapidsnark/src/fr.cpp:238-250 | an inverse of the limbs times R3 is the Montgomery inverse |
| RawField.Raw.RawInv | rust-rapidsnark/rapidsnark/src/fr.cpp:238-250 | for every element with an inverse, the element times the result is one in Montgomery form, also in place; the call for the modular inverse is a function with its defining property |
| RawField.Export | rust-rapidsnark/rapidsnark/src/fr.cpp:245-246 | writing the limbs of a number below 2^256 over zeros, none above its highest, leaves the number |
| MontgomeryRing.DecodeEncode | rust-rapidsnark/rapidsnark/src/fq_raw_generic.cpp:193-233 | to Montgomery form and back is the identity modulo q |
| MontgomeryRing.EncodeDecode | rust-rapidsnark/rapidsnark/src/fq_raw_generic.cpp:193-233 | decoding and encoding again gives the number back modulo q |
| MontgomeryRing.DecodeIsomorphism | rust-rapidsnark/rapidsnark/src/fq_raw_generic.cpp:12-233 | reading x as x / R is an isomorphism from the residues with the raw operations onto the integers modulo q: sums, products and the one are respected, it is one to one, and encoding is its inverse |
| MontgomeryRing.ResiduesAreARing | rust-rapidsnark/rapidsnark/src/fq_raw_generic.cpp:12-149 | elements that add, negate and Montgomery-multiply as numbers below q do, for any modulus with an inverse of the radix, obey every law of a commutative ring |
| MontgomeryRing.BaseRing | rust-rapidsnark/rapidsnark/src/fq_raw_generic.cpp:12-149 | residues below q with the raw addition, negation and Montgomery product are a commutative ring |
| MontgomeryRing.ScalarRing | rust-rapidsnark/rapidsnark/src/fr_raw_generic.cpp:11-148 | residues below the scalar modulus with the raw operations are a commutative ring |
| MontgomeryRing.BaseRingIsNumbers | rust-rapidsnark/rapidsnark/src/fq_raw_generic.cpp:12-149 | dividing by R maps the base ring one to one into the numbers modulo q: sum, product and one go to sum, product and 1 |
| MontgomeryRing.ScalarRingIsNumbers | rust-rapidsnark/rapidsnark/src/fr_raw_generic.cpp:11-148 | the same of the scalar ring |
| FieldElement.ToMontgomery | rust-rapidsnark/rapidsnark/src/fq_generic.cpp:296-324 | the limbs encode the value; the result is a valid element exactly when the operand is no plain short one or the short value of the destination before the call agreed with its |
| FieldElement.StaleShortValue | rust-rapidsnark/rapidsnark/src/fq_generic.cpp:318-323 | converting 1 into another element that held 0 leaves the limbs of 1 beside the short value 0, an invalid element |
| FieldElement.ToNormal | rust-rapidsnark/rapidsnark/src/fq_generic.cpp:18-29 | keeps the value, in place too, and leaves no long element in Montgomery form |
| FieldElement.ToLongNormal | rust-rapidsnark/rapidsnark/src/fq_generic.cpp:274-294 | keeps the value and gives plain limbs, in place too |
| FieldElement.OverflowIsRange | rust-rapidsnark/rapidsnark/src/fq_generic.cpp:332-337 | the two bits that are looked at tell exactly whether a sum left 32 bits |
| FieldElement.Add | rust-rapidsnark/rapidsnark/src/fq_generic.cpp:653-720 | for all sixteen pairs of representations, into another element or in place, a valid sum modulo q exactly when r is not the operand that is converted, or its limbs encode its value as they stand and one subtraction of q suffices |
| FieldElement.Sub | rust-rapidsnark/rapidsnark/src/fq_generic.cpp:463-527 | for all sixteen pairs a valid difference exactly when the same holds for the converted operand and, if r is the plain long subtrahend of a negative short, the two are equal |
| FieldElement.PlainInPlace | rust-rapidsnark/rapidsnark/src/fq_generic.cpp:372-397 | where r has plain limbs and the other operand Montgomery limbs, adding or subtracting in place is right for the value 0 and wrong for every other |
| FieldElement.ShortLessInPlace | rust-rapidsnark/rapidsnark/src/fq_generic.cpp:399-412 | a negative short less plain limbs in place of the latter is right exactly when both have one value, so -1 less 0 is wrong |
| FieldElement.Neg | rust-rapidsnark/rapidsnark/src/fq_generic.cpp:1008-1034 | valid negative for every representation, in place too, also of the least 32-bit number |
| FieldElement.Mul | rust-rapidsnark/rapidsnark/src/fq_generic.cpp:193-271 | valid product for all sixteen pairs of representations, r an operand or not |
| FieldElement.Square | rust-rapidsnark/rapidsnark/src/fq_generic.cpp:1945-1985 | valid square for every representation, in place too |
| MontgomeryRing.RepairedProduct | rust-rapidsnark/rapidsnark/src/fq_generic.cpp:75-81 | two plain operands and R3 give the product in Montgomery form |
| MontgomeryRing.MixedProduct | rust-rapidsnark/rapidsnark/src/fq_generic.cpp:83-99 | one encoded and one plain operand give the plain product |
| FieldElement.RltL1L2 | rust-rapidsnark/rapidsnark/src/fq_generic.cpp:813-854 | comparisons with half and each other decide the order of the signed representatives |
| FieldElement.RgtL1L2 | rust-rapidsnark/rapidsnark/src/fq_generic.cpp:1224-1263 | the comparisons with half and each other decide greater in the signed order |
| FieldElement.Rlt | rust-rapidsnark/rapidsnark/src/fq_generic.cpp:930-984 | order of the signed representatives for all representations |
| FieldElement.Rgt | rust-rapidsnark/rapidsnark/src/fq_generic.cpp:1335-1389 | decides greater in the signed order for all representations |
| FieldElement.Req | rust-rapidsnark/rapidsnark/src/fq_generic.cpp:1105-1159 | true exactly when the values agree, for all representations |
| FieldElement.Lt | rust-rapidsnark/rapidsnark/src/fq_generic.cpp:986-990 | stores 1 or 0 as a valid short element |
| FieldElement.Geq | rust-rapidsnark/rapidsnark/src/fq_generic.cpp:992-999 | stores 1 or 0 for not less in the signed order |
| FieldElement.Gt | rust-rapidsnark/rapidsnark/src/fq_generic.cpp:1391-1395 | stores 1 or 0 for greater in the signed order |
| FieldElement.Leq | rust-rapidsnark/rapidsnark/src/fq_generic.cpp:1397-1404 | stores 1 or 0 for not greater in the signed order |
| FieldElement.Eq | rust-rapidsnark/rapidsnark/src/fq_generic.cpp:1161-1165 | stores whether the values agree |
| AffineCurve.AddOnCurve | rust-rapidsnark/rapidsnark/src/curve.cpp:90-322 | chord and tangent stay on the curve |
| AffineCurve.NegOnCurve | rust-rapidsnark/rapidsnark/src/curve.cpp:584-590 | the reflected point is on the curve and is the additive inverse |
| CurveLaws.SumOnChord | rust-rapidsnark/rapidsnark/src/curve.cpp:106-164 | the reflection of p + q lies on the line through p and q, for points with different x |
| CurveLaws.DoubleOnTangent | rust-rapidsnark/rapidsnark/src/curve.cpp:351-395 | the reflection of 2 p lies on the tangent at p, of slope (3 x^2 + a) / (2 y) |
| CurveLaws.AddCancels | rust-rapidsnark/rapidsnark/src/curve.cpp:90-322 | adding q and then -q gives p back, for all p and q on the curve, exactly unless q is a singular point and p another affine one; so which of a point and its reflection a sum is, is settled |
| CurveLaws.NoneSingular | rust-rapidsnark/rapidsnark/src/curve.cpp:90-322 | on a curve y^2 = x^3 + b where 2, 3 and b are not zero no point is singular, so there cancellation is unconditional |
| XyzzFormulas.CombineIsChord | rust-rapidsnark/rapidsnark/src/curve.cpp:134-164 | the common part of the three additions is the chord construction, and ZZ^3 = ZZZ^2 stays |
| XyzzFormulas.AddRefines | rust-rapidsnark/rapidsnark/src/curve.cpp:106-164 | on well-formed points the formula gives the affine sum, which AddCancels and SumOnChord pin down; vanishing P and R mean the same point, vanishing P alone the point at infinity |
| XyzzFormulas.DoubleRefines | rust-rapidsnark/rapidsnark/src/curve.cpp:351-395 | the doubling formula gives the affine double, infinity for a point of order two |
| CurvePoints.Add | rust-rapidsnark/rapidsnark/src/curve.cpp:91-166 | p3 is the affine sum and well formed, for identity, equal and opposite operands, with p3 any of the operands |
| CurvePoints.AddMixed | rust-rapidsnark/rapidsnark/src/curve.cpp:185-250 | p3 is the affine sum with an affine second operand, special cases included |
| CurvePoints.AddAffines | rust-rapidsnark/rapidsnark/src/curve.cpp:266-322 | p3 is the affine sum of two affine operands, special cases included |
| CurvePoints.Double | rust-rapidsnark/rapidsnark/src/curve.cpp:340-396 | the double, in place too, with the shortcut for a = 0 |
| CurvePoints.DoubleFromAffine | rust-rapidsnark/rapidsnark/src/curve.cpp:411-458 | the double of an affine point |
| CurvePoints.MulByA | rust-rapidsnark/rapidsnark/src/curve.cpp:63-70 | the four cases all multiply by a |
| CurvePoints.Negate | rust-rapidsnark/rapidsnark/src/curve.cpp:585-590 | the affine negative |
| CurvePoints.Copy | rust-rapidsnark/rapidsnark/src/curve.cpp:542-547 | all four coordinates |
| CurvePoints.CopyFromAffine | rust-rapidsnark/rapidsnark/src/curve.cpp:550-562 | the same point in the other coordinates |
| CurvePoints.CopyToAffine | rust-rapidsnark/rapidsnark/src/curve.cpp:565-576 | division gives the affine form of every well-formed point; only (0, 0) is read as infinity afterwards |
| CurvePoints.OriginOffCurve | rust-rapidsnark/rapidsnark/src/curve.cpp:537-539 | (0, 0) cannot be mistaken: it is not on a curve with b other than 0 |
| CurvePoints.IsZero | rust-rapidsnark/rapidsnark/src/curve.cpp:532-534 | zz = 0 says exactly that the point is infinity |
| CurveGroup.AddCommutes | rust-rapidsnark/rapidsnark/src/curve.cpp:90-322 | chord and tangent do not depend on the order of the points |
| CurveGroup.PointsAreAGroup | rust-rapidsnark/rapidsnark/src/curve.cpp:90-590 | elements that add and negate as curve points do form an abelian group, with associativity as the only law taken for granted |
| CurveGroup.TimesIsMultiple | rust-rapidsnark/rapidsnark/src/exp.hpp:10-31 | the multiples computed in such a group are the multiples by chord and tangent, and stay on the curve |
| Accumulation.StepKeeps | rust-rapidsnark/rapidsnark/src/groth16.cpp:145-155 | every atomic step of every thread keeps exclusion, what threads remember, and every cell equal to the sum of the finished terms |
| Accumulation.MutualExclusion | rust-rapidsnark/rapidsnark/src/spinlock.hpp:18-33 | in no state of any run are two threads inside one lock stripe |
| Accumulation.NoUpdateLost | rust-rapidsnark/rapidsnark/src/groth16.cpp:137-156 | in every interleaving, when all threads are done, a[c] is the sum in the ring of wtns[s] * coef over the entries with m = 0 and that c, and b[c] the same over the others |
| Accumulation.SomeThreadGetsOn | rust-rapidsnark/rapidsnark/src/spinlock.hpp:18-33 | no deadlock: in every unfinished reachable state some thread lowers the remaining work in one or two steps |
| Accumulation.StepWork | rust-rapidsnark/rapidsnark/src/spinlock.hpp:18-33 | no step of any thread raises the remaining work, and every step that does not wait lowers it |
| ProofAssembly.BlindingProduct | rust-rapidsnark/rapidsnark/src/groth16.cpp:348-349 | the Montgomery product of two plain factors, converted once, is r * s modulo q exactly |
| ProofAssembly.LimbBytesValue | rust-rapidsnark/rapidsnark/src/groth16.cpp:329-351 | the memory of the limbs, read as little-endian bytes, is the number |
| ProofAssembly.Assemble | rust-rapidsnark/rapidsnark/src/groth16.cpp:328-352 | the new values of pi_a, pi_b, pib1 and pi_c in the two groups |
| ProofAssembly.BlindingCancels | rust-rapidsnark/rapidsnark/src/groth16.cpp:328-352 | all terms with r or s cancel under a bilinear pairing |
| ProofAssembly.PairingEquation | rust-rapidsnark/rapidsnark/src/groth16.cpp:328-352 | e(pi_a, pi_b) = e(alpha + a, beta + b) + e(pi_c - c - h, delta) for all blinding factors, when the two forms of beta + b agree |
| ProofAssembly.SameExponents | rust-rapidsnark/rapidsnark/src/groth16.cpp:332-338 | points with the same exponents in both groups pair alike, so the two forms of beta + b agree |
| Utf8.CharRound | prover-service/src/input_processing/field_parser.rs:38-44 | every character has a lead byte announcing their number by its leading ones, continuation bytes, no more bytes than its code point needs, and its code point as their payload bits |
| Utf8.OnlyBytes | prover-service/src/input_processing/field_parser.rs:38-44 | and no other such bytes stand for that character |
| Utf8.DecodeText | prover-service/src/input_processing/field_parser.rs:38-44 | decoding the bytes of a text gives the text, for every text |
| Utf8.TextDecoded | prover-service/src/input_processing/field_parser.rs:38-44 | bytes that decode to a text are the bytes of that text |
| Utf8.OffsetNext | prover-service/src/input_processing/field_parser.rs:84-94 | byte offsets are lengths of byte strings: each character moves the offset on by its bytes |
| Utf8.FirstAmongBytes | prover-service/src/input_processing/field_parser.rs:166-177 | the first place of a text among characters is, as a byte offset, the first place of its bytes among bytes: no match starts inside a character |
| FieldParser.Parser.Peek | prover-service/src/input_processing/field_parser.rs:84-89 | the character under the cursor with its offset in the UTF-8 bytes, or the end-of-stream error |
| FieldParser.Parser.Next | prover-service/src/input_processing/field_parser.rs:92-94 | the character under the cursor with its offset in the UTF-8 bytes, moving on, or the end-of-stream error |
| FieldParser.Parser.ConsumeWhitespace | prover-service/src/input_processing/field_parser.rs:96-102 | moves to the first character that is no blank and fails exactly at the end |
| FieldParser.Parser.ConsumeNonWhitespaceChar | prover-service/src/input_processing/field_parser.rs:104-118 | skips blanks and takes one of the wanted characters, or reports the character found and its offset |
| FieldParser.Parser.ConsumeString | prover-service/src/input_processing/field_parser.rs:129-149 | the text from the character after the quote, whatever it is, to the next quote |
| FieldParser.Parser.ConsumeUnquoted | prover-service/src/input_processing/field_parser.rs:151-160 | the text up to a blank, comma or brace, or the end-of-stream error |
| FieldParser.Parser.ConsumeValue | prover-service/src/input_processing/field_parser.rs:120-126 | skips blanks, then reads a quoted text or an unquoted one |
| FieldParser.Parser.Parse | prover-service/src/input_processing/field_parser.rs:66-82 | terminates on every input, from any place; the results of the scans in sequence or the first error; on success the bytes of the text start with the whole field, have a colon where it is reported and the bytes of the value where they are |
| FieldParser.ErrorsAreTrue | prover-service/src/input_processing/field_parser.rs:51-64 | an error points to the end of the text when that came too early, and otherwise at the byte offset of a character that is not what was wanted there |
| FieldLayout.PrintedParsesBack | prover-service/src/input_processing/field_parser.rs:66-160 | every readable field, under any spacing and whatever follows, parses back exactly, offsets included |
| FieldLayout.AcceptedIsPrinted | prover-service/src/input_processing/field_parser.rs:66-160 | whatever is accepted is such a field: it starts the input, ends in a comma or brace and has the colon and the value where reported |
| FieldLayout.AcceptsExactlyLayouts | prover-service/src/input_processing/field_parser.rs:66-160 | the parser succeeds exactly on printed readable layouts and reports their parts |
| FieldLayout.LegalParsesBack | prover-service/src/input_processing/field_parser.rs:128-149 | a field without inner quotes comes back exactly when neither its key nor its quoted value is empty |
| FieldLayout.EmptyValueMisread | prover-service/src/input_processing/field_parser.rs:135-142 | a concrete field with an empty quoted value does not parse back |
| FieldLayout.Find | prover-service/src/input_processing/field_parser.rs:166-177 | the first occurrence, or none |
| FieldLayout.FindAndParseField | prover-service/src/input_processing/field_parser.rs:162-189 | the field at the first occurrence of the quoted key, first among characters and among bytes, with its byte index; from that byte on the whole field, the colon and the value stand where reported; the error when there is none, and the key that was asked for |
| StringBodies.QuotesAreUnescaped | circuit/src/misc.rs:53-88 | the quotes that count are those no backslash escapes, where a byte is escaped exactly when the byte before is a backslash that is not escaped itself |
| StringBodies.ReferenceBodies | circuit/src/misc.rs:53-88 | the arrays of quotes and parities give, at each place, whether it lies strictly inside a string |
| StringBodies.LookbackBodies | prover-service/src/input_processing/field_check_input.rs:10-31 | the array holds the two-step lookback at every place |
| StringBodies.AgreeIff | prover-service/src/input_processing/field_check_input.rs:18-28 | on every text of at least two bytes the two agree exactly when no empty string and no visible unescaped quote behind an even run of backslashes occurs |
| StringBodies.AgreeWithoutDoubleBackslash | prover-service/src/input_processing/field_check_input.rs:18-28 | without two backslashes in a row they agree exactly when no quoted string is empty |
| StringBodies.EmptyStringDisagrees | prover-service/src/input_processing/field_check_input.rs:15-28 | two quotes are enough to make them differ |

## Left out

- The GPU branches and the assembly field code: foreign calls; the portable fallbacks are modelled.
- GMP's own code: the `mpn_` primitives are the small methods of `Limbs`, `mpz_powm` is the power in the ring, and `mpz_invert` is a parameter with its defining property.
- CurveGroup.PointsAreAGroup: takes associativity of chord and tangent as a hypothesis, as the existence of the pairing is one of `ProofAssembly`.
- Memory orders and the scheduler: lock operations are single steps, and an iteration of the other parallel loops is one step. Iterations share no place they write, with one exception: with few roots to a span, span 1 of the table fill writes to roots[1], which the others read, the value it already has.
- The three asynchronous coset computations of the prover run one after another: they share only tables that nobody writes.
- Fft.FFT.Fft: asks for a length that is a power of two within the table, as the source asserts, and for tables of at most 2^30 entries, since the source computes sizes in 32-bit integers.
- FftSetup.Make: takes the inverse of two modulo q as a parameter, and a field of prime order with a non-residue as a hypothesis; `ScalarRoots.ScalarFFT` needs neither and takes 5, without the search: that 2 and 3 are squares there is not proved.
- ParallelMultiexp.Multiexp.MultiExp: the second overload with several sizes is not modelled; loop counters are unbounded, so the 32-bit counter of the initialisation loop limits threads times buckets to 2^31 in the source.
- ScalarMul.NafMulByScalar: the digit count is unbounded, a 32-bit integer in the source.
- QuotientSum.CommitQuotient: works on the numbers in the limbs; that the limb methods compute on them what the ring does is stated in `RawField` and `MontgomeryRing`.
- RawField.Raw.RawInv: promises nothing for an element without an inverse, where GMP leaves the result undefined.
- Accumulation.SomeThreadGetsOn: says that some step makes progress, not that a fair scheduler finishes.
- FieldParser.Parser.Parse: error messages are kept as kinds with their data, not as text.
- StringBodies.LookbackBodies: asks for at least two bytes; the source indexes places 0 and 1 and stops with a panic below that.
- The quadratic extension field, curve `eq`, field shifts and bitwise operations, `Fq_toInt`: not on the proving path or easy beside the rest.
- Sampling of the blinding factors, JSON output, logging, file formats, the HTTP service, key fetching, witness generation: plumbing around the modelled core.
