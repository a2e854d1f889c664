# Sapling protocol: a verified model

This project models the hard core of a Rust implementation of Zcash Sapling and proves what the
implementation is for. It has four parts.

**Pedersen hashes and scalar multiplication, inside and outside the circuit.** The group law of the
curve library is taken as a record of operations with named laws (`Groups`, `JubjubGroup`); everything
about coordinates is derived: completeness of the Edwards addition that the circuit enforces
(`EdwardsCurve`), the Montgomery form and the proof that its *incomplete* chord addition agrees with
Edwards addition (`MontgomeryCurve`, `ChordAddition`), the point gadgets (`EccGadgets`) and both
scalar multiplications (`ScalarMultiplication`). `PedersenSpec` is the small specification of the hash
(section 5.4.1.7 of the Zcash Protocol Specification) with the bounds that keep its scalars apart
modulo r_J. The windowed native computation (`PedersenNative`) and the gadget (`PedersenCircuit`) are
loops proved to return that one group element for every input within capacity, and to panic exactly
beyond it. `PedersenWires` and `ScalarWires` prove the other direction: whatever values are put on the
wires, the enforced equations leave only that element. `NoteTree` and `SpendCircuit` put the pieces
together for note commitments, the Merkle path, the conditional anchor and rho, as the prover computes
them; `NoteSoundness` composes the equations instead: any satisfying wires witness a note and a path
to the anchor. `PointWires` adds witnessed points, the small-order test and representations, and
`CircuitSoundness` the whole of both circuits: in any assignment that satisfies the Spend or the Output
circuit, the witness read off the wires satisfies the Spend or the Output statement of the Zcash Protocol
Specification (sections 4.18.2 and 4.18.3) for the exposed public input. `CircuitSynthesis` is the
converse: from a prover's witness synthesis succeeds and exposes that input. `PublicInputs` joins the
three sides: what a circuit makes public is, element by element, what the verifier checks the proof
against, and the witness in a built description is one for exactly what the description exposes.
`SmallCurve` and `Consistency` show that the hypotheses have models.

**Value balance** (`ValueBalance`, `Verifier`, `BatchValidation`, `Builder`, `Permutations`,
`BundleBuilder`, `UnauthorizedBundles`). The signing side and the verifying side of section 4.13 of the
Zcash Protocol Specification meet in one key exactly when the declared balance is the inputs minus the
outputs, over arbitrary lists, shuffles and interleavings, with the 64- and 128-bit edges.

**Authorization** (`RedJubjub`, `Bundles`, `Signing`, `Pczt`, `PcztBundle`). Signing runs in memory and
the roles of a partially created transaction, as state machines over abstract signing and verification
with one law: a signature verifies under the key of its signer.

**Keys** (`Keys`, `Zip32`, `Diversifiers`, `BatchKdf`). ZIP 32 derivation and its 169-byte encoding, the search
for diversifiers, and the batched key derivation.

The flow ends in `UnauthorizedBundles.BuiltBundleVerifies` and `PcztBundle.PcztLifecycle`: whatever a
builder built, once signed by any successful run, passes every signature check of the verifier,
including the binding signature; what is left to decide are its proofs and the small-order tests on
rk and on ephemeral keys.

Field elements are integers and `Residues.Cong` says that two of them are the same residue; the prime
field enters through `Residues.Field.Valid` (every class but zero has an inverse, two is not zero).
Random choices, hashes other than the Pedersen hash, encryption, proof systems and signature schemes are
parameters. Loops that update variables are methods; objects that update fields are classes whose
methods are proved against functions of the state.

## Where the code differs from its documentation or from its other half

- `Builder::add_spend` and `add_output` (src/builder.rs:644, src/builder.rs:662) book a value before
  the range check that may reject it. The reported balance is the net of the accepted items after
  every addition exactly when no addition fails the range check: a non-zero value that takes the net
  accepted so far outside 64 bits but not outside 128, on a spend whose bundle type and anchor are in
  order (`Builder.FailsRangeCheck`, `Builder.BalanceIsNetIff`; a concrete run is
  `Builder.RejectedSpendStaysBooked`). The bundle itself is always built from the accepted items.
- `SaplingMetadata` documents its indices by the n-th call to `add_spend` or `add_output`
  (src/builder.rs:544, src/builder.rs:555). They count accepted calls: the two agree exactly while no
  earlier call of the same kind has failed (`Builder.OutputPositionIff`, `Builder.SpendPositionIff`).
- `decrypt_diversifier` documents that it tries the internal key too. Its second test calls the
  external address again (src/zip32.rs:826), so it never returns the internal scope, and an internal
  address is recovered exactly when both keys have the same incoming viewing key
  (`Diversifiers.DecryptDiversifierIff`, `Diversifiers.InternalAddressIff`; a refused address is
  `Diversifiers.InternalAddressRefused`).
- The IO finalizer documents that no spend authorizing key is left after it has run
  (src/pczt/io_finalizer.rs:69-70). When a dummy cannot be signed it returns with every later dummy
  key in place (`Pczt.DummyFailureIsPartial`; a balanced state that fails so is `Pczt.DummyKeyRemains`).
- The two forms of a build do not always have the same effects: the in-memory form gives a spend of no
  value the root of its own path as anchor (src/builder.rs:298), the PCZT form the anchor of the bundle
  (`PcztBundle.BothFormsAgreeIff`; a dummy that differs is `PcztBundle.NativeDummyFormsDiffer`).
- The circuit carries 32 position bits, the native nullifier a 64-bit position; they agree exactly
  below 2^32 (`SpendCircuit.RhoAgreesIff`).
- The depth of an extended key is one byte. The model lets it wrap, as a build without overflow checks
  does; a key at a positive multiple of 256 child steps does not survive its encoding
  (`Zip32.ReachableRoundTripIff`, `Zip32.PathRoundTrip`); such keys are reachable
  (`Zip32.DeepPathRefused`, `Zip32.RefusedKeyReachable`). A build with overflow checks panics there
  instead.

## Model

| member | source | states |
|---|---|---|
| EdwardsCurve.Jubjub.DenominatorsNonZero | src/circuit/ecc.rs:376-473 | For any two on-curve points neither 1+C nor 1-C vanishes: the addition law is complete |
| EdwardsCurve.Jubjub.SumUnique | src/circuit/ecc.rs:376-473 | The two quotient equations have exactly one solution up to congruence |
| EdwardsCurve.Jubjub.SumOnCurve | src/circuit/ecc.rs:252-278 | The solution of the addition equations is on the curve again |
| EdwardsCurve.Jubjub.AddConstraintsSound | src/circuit/ecc.rs:376-473 | Any wires meeting all six addition equations satisfy the defining equations of the sum |
| EdwardsCurve.Jubjub.DoubleConstraintsSound | src/circuit/ecc.rs:280-373 | Any wires meeting the doubling equations satisfy the defining equations of the sum of the point with itself |
| MontgomeryCurve.ZeroU | src/circuit/constants.rs:99-117 | On the curve u vanishes exactly at the identity and at the point of order two |
| MontgomeryCurve.IntoEdwardsUnique | src/circuit/ecc.rs:485-533 | The conversion equations have the original (u, v) as their only solution |
| MontgomeryCurve.SameX | src/circuit/constants.rs:95-133 | Two points have the same Montgomery x exactly when they are equal or opposite |
| MontgomeryCurve.MontgomeryEquation | src/circuit/constants.rs:119-130 | The image of an on-curve point satisfies the scaled Montgomery equation |
| ChordAddition.ChordIsSum | src/circuit/ecc.rs:545-619 | For different x-coordinates, wires on the chord of two images hold the image of the Edwards sum |
| JubjubConstants.ScaleSquared | src/circuit/constants.rs:21-34 | The hard-coded scale squares to -(A+2) |
| JubjubConstants.ScaledD | src/circuit/constants.rs:13-34 | The hard-coded d times the squared scale is A-2 |
| JubjubConstants.DIsRatio | src/circuit/constants.rs:13-19 | The hard-coded d is -(10240/10241) |
| JubjubConstants.ConstantsValid | src/circuit/constants.rs:13-34 | The hard-coded constants satisfy every equation the proofs assume, given that the field is a field and d no square, and the field order has 255 bits |
| JubjubConstants.UncommittedIsNoPoint | src/tree.rs:22-25 | No solution of the curve equation has the empty leaf as its u, by a computed certificate over the hard-coded d |
| SmallCurve.CurvesExist | src/circuit/ecc.rs:252-473 | The hypotheses on the curve are consistent: eight points modulo 5, with their Edwards sums, satisfy all of them |
| SmallCurve.AllPointsExist | src/circuit/ecc.rs:252-278 | So is the hypothesis that every solution of the curve equation is a point: the eight points are all of them |
| Consistency.GeneratorsExist | src/circuit/ecc.rs:1060-1066 | The assumed group laws with a generator of order r_J are consistent: the integers modulo r_J satisfy them |
| Groups.MulAdd | src/circuit/ecc.rs:205-250 | [k+l]P = [k]P + [l]P for all integers, derived from the group laws |
| Groups.MulMul | src/circuit/ecc.rs:28-74 | [k][l]P = [kl]P for all integers, derived from the group laws |
| Scalars.MultiplesEqualIff | src/value/sums.rs:188-209 | Multiples of a generator are equal exactly for scalars congruent modulo r_J |
| JubjubGroup.SumIsAt | src/circuit/ecc.rs:376-473 | For operands standing for P and Q, wires solve the addition equations exactly when they stand for P + Q |
| JubjubGroup.MontSameX | src/circuit/ecc.rs:543-619 | Represented points share a Montgomery x exactly when they are equal or opposite |
| JubjubGroup.ZeroUHasOrderTwo | src/circuit/ecc.rs:86-101 | A point with u = 0 is killed by two |
| EccGadgets.EdwardsAddCorrect | src/circuit/ecc.rs:376-473 | The addition gadget never divides by zero and returns the group sum |
| EccGadgets.EdwardsAddSound | src/circuit/ecc.rs:376-473 | Any wires meeting the addition constraints hold the group sum |
| EccGadgets.EdwardsDoubleCorrect | src/circuit/ecc.rs:280-373 | The doubling gadget never divides by zero and returns P + P, as add does |
| EccGadgets.EdwardsDoubleSound | src/circuit/ecc.rs:280-373 | Any wires meeting the doubling constraints hold P + P |
| EccGadgets.SelectSound | src/circuit/ecc.rs:149-200 | The selection constraints hold exactly for the point or the neutral element, as the condition says |
| EccGadgets.MontgomeryAddCorrect | src/circuit/ecc.rs:545-619 | For operands neither equal nor opposite the incomplete addition succeeds and gives the image of the group sum |
| EccGadgets.MontgomeryAddSound | src/circuit/ecc.rs:545-619 | Under the same conditions any wires meeting the three chord constraints hold the image of the group sum |
| EccGadgets.IntoEdwardsCorrect | src/circuit/ecc.rs:485-533 | The conversion to Edwards form succeeds and its constraints admit exactly the original point |
| EccGadgets.ToMontgomeryCorrect | src/circuit/constants.rs:95-133 | None exactly at the identity, (0,0) at the point of order two (from which no conversion back exists), otherwise the Montgomery image |
| EccGadgets.IdentityCoordinates | src/circuit/constants.rs:99-102 | v = 1 exactly at the identity |
| ScalarMultiplication.GenerateCircuitGenerator | src/circuit/constants.rs:72-90 | The generator loop yields 84 windows whose entry i in window j is [i * 8^j]P |
| ScalarMultiplication.FixedBaseMultiplication | src/circuit/ecc.rs:28-74 | Window multiplication returns [sum of b_i 2^i]P over the bits the windows cover, last chunk short or not, and an error for no bits |
| ScalarMultiplication.EdwardsMultiplication | src/circuit/ecc.rs:205-250 | Double-and-add returns [sum of b_i 2^i]P for bits of any non-zero length, and an error for none |
| ScalarMultiplication.NotSmallOrderIff | src/circuit/ecc.rs:86-101 | The small-order gadget succeeds exactly when [8]P is not the identity, on a curve of order eight times an odd number |
| ScalarWires.FixedBaseSound | src/circuit/ecc.rs:28-74 | Any wires meeting the lookup and addition constraints of window multiplication hold the multiple that the bits denote |
| ScalarWires.DoublingSound | src/circuit/ecc.rs:205-250 | The chain of doubled bases can only hold [2^i]P |
| ScalarWires.MulSound | src/circuit/ecc.rs:205-250 | Any wires meeting the doubling, selection and addition constraints hold the multiple that the bits denote |
| Powers.ToBitsValue | src/prover.rs:107-119 | The bits (n >> i) & 1 for i below len denote n modulo 2^len |
| Bytes.LeSplit | src/pedersen_hash.rs:88-95 | A little-endian string is its low part plus the shifted high part: the limbs of a scalar |
| PedersenSpec.PersonalizationInjective | src/pedersen_hash.rs:13-30 | Six leading bits determine the personalization, and depth 63 is excluded |
| PedersenSpec.PersonalizationValue | src/pedersen_hash.rs:19-30 | The leading bits are 63 for note commitments and the depth, least significant first, otherwise |
| PedersenSpec.SegmentBound | src/circuit/pedersen_hash.rs:42-76 | After w chunks the running scalar is non-zero and at most 4(16^w-1)/15 in absolute value |
| PedersenSpec.SegmentBelowHalfOrder | src/circuit/pedersen_hash.rs:42-76 | Twice a full segment scalar stays below r_J |
| PedersenSpec.SegmentNotZero | src/pedersen_hash.rs:41-78 | No segment scalar is zero modulo r_J |
| PedersenSpec.SegmentValueInjective | src/pedersen_hash.rs:41-78 | Segments of one length have congruent scalars modulo r_J exactly when they are equal |
| PedersenSpec.SegmentValuesInjective | src/pedersen_hash.rs:32-120 | Inputs of one length have congruent scalars in every segment exactly when they are equal |
| PedersenNative.GenerateExpTable | src/constants.rs:246-276 | The table generator yields 32 tables whose entry i in table j is [i * 256^j]G |
| PedersenNative.WindowIsByte | src/pedersen_hash.rs:84-110 | Every window index read from the limbs, across limb boundaries too, is the scalar's byte at that position |
| PedersenNative.WindowOfScalar | src/pedersen_hash.rs:84-110 | Window k of a scalar below r_J is its digit of weight 256^k |
| PedersenNative.MultiplyByTables | src/pedersen_hash.rs:84-116 | The limb-and-window loop returns [acc]G for every scalar below r_J, with every limb and table access in range |
| PedersenNative.AccumulateChunk | src/pedersen_hash.rs:46-68 | One chunk contributes its signed digit times the weight, modulo r_J |
| PedersenNative.AccumulateSegment | src/pedersen_hash.rs:41-78 | The accumulation loop yields the segment scalar modulo r_J and stops after 63 chunks or at the end of the input |
| PedersenNative.PedersenHash | src/pedersen_hash.rs:32-120 | The native hash returns the specified group element for every input within the generators' capacity, and panics exactly beyond it |
| PedersenCircuit.ChunkAgainstSum | src/circuit/pedersen_hash.rs:42-76 | The new term and the running sum differ in absolute value and they and their sum stay non-zero below half of r_J |
| PedersenCircuit.SmallMultiple | src/circuit/pedersen_hash.rs:42-76 | A non-zero multiple below half of r_J is neither the identity nor of order two, so it has Montgomery coordinates |
| PedersenCircuit.DifferentMultiples | src/circuit/pedersen_hash.rs:42-76 | Multiples of different small absolute value are neither equal nor opposite |
| PedersenCircuit.GeneratePedersenGenerators | src/circuit/constants.rs:137-168 | The lookup generator never meets the point at infinity and its entry i of window w is the image of [(i+1) * 16^w]G |
| PedersenCircuit.LookupIsChunk | src/circuit/pedersen_hash.rs:47-53 | The signed lookup yields the image of the chunk's signed multiple |
| PedersenCircuit.ChainStep | src/circuit/pedersen_hash.rs:57-69 | In the hash no incomplete addition meets operands of equal x, and each gives the running multiple |
| PedersenCircuit.HashSegment | src/circuit/pedersen_hash.rs:42-88 | One segment succeeds and gives the segment scalar times its generator, consuming exactly that segment |
| PedersenCircuit.PedersenHash | src/circuit/pedersen_hash.rs:21-105 | The gadget returns coordinates of the same group element as the native hash for every input within capacity, and panics exactly beyond it |
| PedersenWires.RunningSum | src/circuit/pedersen_hash.rs:42-76 | Any wires meeting the lookup and chord constraints hold, after each chunk, the image of the running multiple |
| PedersenWires.SegmentSound | src/circuit/pedersen_hash.rs:42-88 | Any wires of a segment hold only that segment's multiple of its generator |
| PedersenWires.HashSound | src/circuit/pedersen_hash.rs:21-105 | Any assignment that satisfies all constraints of the hash circuit carries the hash on its output |
| NoteTree.AscendIsNode | src/tree.rs:36-71 | Ascending from a leaf along its authentication path meets, at every level, the node of the tree over all leaves |
| NoteTree.RootIsTreeRoot | src/tree.rs:36-71 | Every leaf below 2^32 with its authentication path has the root of the whole tree |
| NoteTree.EmptyRoots | src/tree.rs:27-34 | The loop of empty roots yields, at every level, the node of the tree of uncommitted leaves at every index |
| NoteTree.NoCommitmentIsUncommitted | src/tree.rs:156-159 | On the real curve no note commitment and no inner node of a tree equals the empty leaf |
| SpendCircuit.ExposeValueCommitment | src/circuit.rs:108-150 | For any witnessed bits the prover computes, without a division by zero, the commitment to a 64-bit value under a reduced trapdoor (every satisfying assignment: NoteSoundness.CvSound) |
| SpendCircuit.CommitNoteCircuit | src/circuit.rs:298-322 | For any trapdoor bits the prover computes the native windowed Pedersen commitment (every satisfying assignment: NoteSoundness.CmSound) |
| SpendCircuit.AscendLevel | src/circuit.rs:334-376 | With the canonical bits that the prover takes, one level computes the native parent, for any representative on the input wire (either decomposition: NoteSoundness.LevelSound) |
| SpendCircuit.AscendPath | src/circuit.rs:324-376 | The ascent that the prover computes ends at the native root and collects bit i of the position at level i (every satisfying assignment: NoteSoundness.AscendSound) |
| SpendCircuit.Decompositions | src/circuit.rs:360-366 | The non-strict bit decomposition of a wire admits its value, its value plus the field order when that fits, and nothing else |
| SpendCircuit.ValueNum | src/circuit.rs:269-279 | The linear combination with doubling coefficients is the value of the bits |
| SpendCircuit.AnchorConstraintIff | src/circuit.rs:378-398 | (cur - rt) * value = 0 holds in the field exactly when the 64-bit value is zero or the root is the anchor |
| SpendCircuit.MixPosition | src/circuit.rs:400-413 | rho is the commitment plus the multiple that the position bits denote |
| SpendCircuit.RhoAgreesIff | src/spec.rs:55-60 | The circuit's rho is the native mixing hash exactly for positions below 2^32 |
| SpendCircuit.PositionWraps | src/spec.rs:55-60 | Position 2^32 carries the bits of position zero but has another native rho |
| SpendCircuit.SynthesizeNote | src/circuit.rs:259-413 | Completeness: from the prover's witness of a note and path the circuit computes the native value commitment, note commitment and root, its anchor constraint holds exactly for no value or the right root, and rho agrees exactly below 2^32 |
| NoteSoundness.FixedBaseOutputSound | src/circuit/ecc.rs:28-74 | The output wire of any satisfying window multiplication holds the multiple of all its bits, reduced modulo r_J or not |
| NoteSoundness.LevelSound | src/circuit.rs:334-376 | Any wires of a level hold the hash of node and sibling on the witnessed side, each entering by one of its two decompositions |
| NoteSoundness.AscendSound | src/circuit.rs:324-376 | Any wires of the path hold, at every level, the ascent in which operands enter by the decompositions their bits choose |
| NoteSoundness.LowerIsAscend | src/circuit.rs:360-376 | With lower decompositions throughout that is the native ascent |
| NoteSoundness.CvSound | src/circuit.rs:108-150 | Any satisfying wires expose a commitment that opens to the 64-bit value of the value bits |
| NoteSoundness.CmSound | src/circuit.rs:259-322 | Any satisfying wires hold the native commitment of the note that the value, address and trapdoor bits denote |
| NoteSoundness.RhoSound | src/circuit.rs:400-413 | Any satisfying wires hold the native rho of the commitment at the position that the side bits denote |
| NoteSoundness.NotePartSound | src/circuit.rs:259-413 | Any wires satisfying all equations of the note part witness a note and a path: cv opens to its value, the ascent from its commitment ends at the anchor unless the value is zero, and rho is the note's at the path's position |
| NoteSoundness.CanonicalPartSound | src/circuit.rs:324-398 | Without upper decompositions a satisfied note part has the anchor as the native root of the witnessed note and path, or no value |
| PointWires.WitnessSound | src/circuit/ecc.rs:130-146 | Any witnessed coordinates that pass the curve check stand for one point of the group, and for no other |
| PointWires.SmallOrderSound | src/circuit/ecc.rs:86-101 | Any wires that pass the small-order test stand for a point that eight does not kill |
| PointWires.ReprSound | src/circuit/ecc.rs:113-128 | Any wires of a representation hold the bits of v and the parity of u of the represented point |
| PointWires.ReprInjective | src/circuit/ecc.rs:113-128 | A representation belongs to one point only |
| CircuitSoundness.AuthorityPartSound | src/circuit.rs:152-257 | Any wires satisfying the authority part stand for points ak and g_d of large order, with rk = ak + [ar]G, nk = [nsk]H and pk_d = [ivk]g_d for the native ivk of ak and nk |
| CircuitSoundness.SpendSound | src/circuit.rs:152-429 | In any assignment satisfying the whole Spend circuit the witness read off the wires (key points, scalars, value, note, path, position) satisfies the Spend statement for the exposed rk, cv, anchor and packed nullifier |
| CircuitSoundness.PackedInjective | src/verifier.rs:80-89 | Two nullifiers that are exposed as the same two field elements are equal |
| CircuitSoundness.InputFixesNullifier | src/circuit.rs:415-429 | Two satisfied Spend statements have the same exposed elements exactly when they have the same native nullifier |
| CircuitSoundness.NoteBindsIvk | src/circuit.rs:461-470 | Two satisfied Spend statements for one note have one diversified base and one ivk, on a curve of order eight times r_J |
| CircuitSoundness.OutputSound | src/circuit.rs:431-554 | In any assignment satisfying the whole Output circuit the witness read off the wires, one value for cv and note, satisfies the Output statement for the exposed cv, epk and cmu |
| CircuitSynthesis.OrderTestIff | src/circuit/ecc.rs:86-101 | The small-order gadget accepts exactly the points that eight does not kill, on a curve of order eight times r_J |
| CircuitSynthesis.SynthesizeAuthority | src/circuit.rs:152-257 | Completeness: the authority part succeeds exactly for ak and g_d of large order and computes the native rk and representations of nk, g_d and pk_d |
| CircuitSynthesis.SynthesizeSpend | src/circuit.rs:152-429 | Completeness: from a prepared witness the Spend circuit succeeds exactly for points of large order, exposes the native rk, cv and, for positions below 2^32, packed nullifier, and its anchor constraint is satisfied exactly when the Spend statement holds |
| CircuitSynthesis.SynthesizeOutput | src/circuit.rs:431-554 | Completeness: the Output circuit succeeds exactly for g_d of large order, whatever bits are given for pk_d, and exposes the native cv, epk and cmu |
| PublicInputs.SpendPublicIsChecked | src/verifier.rs:66-89 | The public wires of any satisfying Spend assignment, in the order of the circuit, are congruent element by element to the seven inputs that the verifier builds from the statement's rk, cv, anchor and nullifier |
| PublicInputs.OutputPublicIsChecked | src/verifier.rs:112-130 | The same for the Output circuit and the five inputs built from cv, epk and cmu |
| PublicInputs.SynthesizedSpendIsChecked | src/verifier.rs:66-89 | What Spend synthesis makes public from a prover's witness is congruent to the inputs that the verifier builds |
| PublicInputs.SynthesizedOutputIsChecked | src/verifier.rs:112-130 | What Output synthesis makes public is congruent to the inputs that the verifier builds |
| PublicInputs.BuiltSpendInput | src/builder.rs:278-325 | The witness in a built spend description is one of the Spend statement for exactly the rk, cv, anchor and nullifier of that description |
| PublicInputs.BuiltSpendHolds | src/builder.rs:278-325 | With a note addressed to the key and points of large order, that statement holds |
| PublicInputs.BuiltOutputInput | src/builder.rs:471-497 | The witness in a built output description is one of the Output statement for exactly its cv and cmu |
| ValueBalance.AddAllIsTotal | src/value/sums.rs:84-96 | The checked fold fails exactly on overflow of 128 bits and otherwise gives the total |
| ValueBalance.NetValueIsNet | src/builder.rs:905-915 | For at most 2^63 notes on each side the folds never overflow and give inputs minus outputs |
| ValueBalance.SumCommitsToTotal | src/value.rs:142-149 | The sum of commitments commits to the sum of the values under the sum of the trapdoors |
| ValueBalance.IntoBvkSubtracts | src/value/sums.rs:188-209 | The sign cases, the least i64 included, subtract the signed balance |
| ValueBalance.BvkMatchesIff | src/value/sums.rs:188-209 | The recomputed key is that of the trapdoor exactly when the balance is the committed value modulo r_J |
| ValueBalance.NetIsExact | src/value/sums.rs:33-43 | For at most 2^63 notes on each side congruence modulo r_J to an i64 is equality |
| ValueBalance.BalanceIff | src/builder.rs:751-798 | For arbitrary lists, bsk and bvk agree exactly when the declared balance is inputs minus outputs |
| Verifier.CvAfterIsDifference | src/verifier.rs:54 | After any interleaving of checks the context holds spend commitments minus output commitments |
| Verifier.SumOfPermutation | src/verifier.rs:54 | The sum of commitments does not depend on their order |
| Verifier.VerifierKeyIff | src/verifier.rs:138-148 | For any interleaving and any order, the verifier's key is the signer's exactly for the true balance |
| Verifier.VerificationContext.constructor | src/verifier.rs:25-29 | A new context holds the identity |
| Verifier.VerificationContext.CheckSpend | src/verifier.rs:34-93 | A small-order key is refused without a change; otherwise the commitment is added even if a later check fails, and the result is signature and then proof on the seven inputs in order |
| Verifier.VerificationContext.CheckOutput | src/verifier.rs:97-133 | A small-order ephemeral key is refused without a change; otherwise the commitment is subtracted and the result is the proof on the five inputs in order |
| Verifier.VerificationContext.FinalCheck | src/verifier.rs:138-148 | The binding signature is verified under the key of everything accumulated |
| BatchValidation.BvkOfCvs | src/verifier/batch.rs:54-124 | A bundle's key depends only on its commitments and balance |
| BatchValidation.VerifySingle | src/verifier/single.rs:29-82 | Checking a bundle item by item accepts exactly the acceptable bundles |
| BatchValidation.QueueBundle | src/verifier/batch.rs:48-124 | A refused bundle is not acceptable; for a passed one the extended queues are valid exactly when the old ones are and the bundle is acceptable |
| BatchValidation.BatchValidator.CheckBundle | src/verifier/batch.rs:48-124 | Adding a bundle keeps the batch invariant and records the result |
| BatchValidation.BatchValidator.Validate | src/verifier/batch.rs:131-168 | Every bundle passed and the batch validates exactly when every bundle alone is acceptable |
| Builder.CountsAreLeast | src/builder.rs:67-117 | The counts are refused exactly when no padding satisfies the bundle type, and are otherwise the least that does |
| Builder.BookedAndRejected | src/builder.rs:624-668 | A failed addition changes the balance exactly when its non-zero value takes it outside 64 bits and not outside 128, past every earlier check |
| Builder.StepNet | src/builder.rs:624-668 | What one addition does to the accepted net and to the booked balance, in every outcome |
| Builder.StepAnswer | src/builder.rs:624-668 | The exact answer of an addition, case by case: bundle type, anchor, 128-bit sum, range |
| Builder.RunStores | src/builder.rs:624-668 | Over every run the builder holds exactly the accepted arguments, unchanged and in call order |
| Builder.AcceptedOutputAt | src/builder.rs:653-668 | The n-th stored output is the argument of the n-th accepted call |
| Builder.AcceptedSpendAt | src/builder.rs:624-650 | The n-th stored spend is the argument of the n-th accepted call |
| Builder.OutputPositionIff | src/builder.rs:555-565 | The position of an accepted output is the number of its call exactly while no earlier call for an output has failed |
| Builder.SpendPositionIff | src/builder.rs:544-553 | The same for spends |
| Builder.BalanceOfRun | src/builder.rs:624-668 | Over every run the balance is the accepted net plus the values that failed the range check |
| Builder.InRange | src/builder.rs:606-618 | While no addition fails the range check the balance is the net and fits an i64, whatever else failed |
| Builder.BalanceIsNetIff | src/builder.rs:604-668 | The balance is the accepted net after every prefix of a run exactly when no addition fails the range check on top of the values accepted before it |
| Builder.SuccessfulRun | src/builder.rs:624-668 | Over every run of successful additions the balance is inputs minus outputs and fits an i64 |
| Builder.RejectedSpendStaysBooked | src/builder.rs:644-645 | A concrete run whose reported balance is not that of its accepted items |
| Builder.Builder.constructor | src/builder.rs:577-591 | A new builder holds nothing and has balance zero |
| Builder.Builder.AddSpend | src/builder.rs:624-650 | The method is the transition of the run model, stores its own arguments exactly on success, and admits only spends of the builder's anchor or of no value |
| Builder.Builder.AddOutput | src/builder.rs:653-668 | The method is the transition of the run model and stores its own arguments exactly on success |
| Builder.Builder.ValueBalance | src/builder.rs:606-618 | The reported balance, exactly when it panics (outside i64 or refused by the caller's type), and that without failed range checks it is the net |
| Permutations.OrderIsBijective | src/builder.rs:871-873 | A shuffle lists every position, once |
| Permutations.TotalOfShuffle | src/builder.rs:871-915 | A shuffle does not change the total of the values |
| Permutations.ShuffleAndRecord | src/builder.rs:875-902 | The recorded indices invert the shuffle on the requested items: distinct, in range, each at its item, and no others |
| BundleBuilder.CheckSpends | src/builder.rs:829-842 | Anchor mismatch exactly when some spend does not match, coinbase refuses any spend |
| BundleBuilder.PadAndShuffle | src/builder.rs:855-902 | Padding and shuffling place every requested item at its recorded position and dummies everywhere else |
| BundleBuilder.BuildBundle | src/builder.rs:814-918 | The anchor and the bundle type are the only failures; counts, placement, trapdoors, metadata and value balance are as promised for every shuffle |
| BundleBuilder.OutputIndexFinds | src/builder.rs:555-565 | The index recorded for the n-th accepted output finds that call's output in the build |
| BundleBuilder.SpendIndexFinds | src/builder.rs:544-553 | The index recorded for the n-th accepted spend finds that call's spend in the build |
| BundleBuilder.ReportedBalanceIff | src/builder.rs:604-618 | The reported balance is that of the built bundle exactly when the values that failed the range check cancel, in particular when none failed it |
| RedJubjub.RandomizeCommutes | src/keys.rs:147-149 | Randomizing a key commutes with taking its public key |
| RedJubjub.RandomizedSignatureVerifies | src/keys.rs:223-225 | A randomized signature verifies under the randomized key |
| RedJubjub.PublicKeyInjective | src/builder.rs:1228 | Different keys have different public keys, so comparing ak identifies the signer |
| Bundles.MapSpendsAt | src/bundle.rs:106-142 | A mapped spend depends on its own position and the context its predecessors left |
| Bundles.MapKeepsEffects | src/bundle.rs:106-142 | No map, whatever its functions do, changes the effects of a bundle |
| Bundles.MapOrder | src/bundle.rs:106-142 | One context goes through every spend, proof before signature, then every output, then the authorization |
| Bundles.EffectsIff | src/bundle.rs:106-142 | Equal effects are equal commitments, anchors, nullifiers, keys, output fields and balance, and nothing else |
| Bundles.TryMapSpendsIff | src/bundle.rs:145-185 | The failing map succeeds exactly when every item does, position by position |
| Bundles.TryMapKeepsEffects | src/bundle.rs:145-185 | The failing map keeps the effects |
| Bundles.TryMapError | src/bundle.rs:145-185 | The error of a failing map is that of the first failing spend, else of the first failing output, else of the authorization |
| Signing.PrepareSound | src/builder.rs:1170-1193 | Preparing signs the dummies validly, leaves the others with their parts, and binds with bsk |
| Signing.PrepareCoins | src/builder.rs:1170-1193 | Preparing signs each dummy with the next draw of randomness, and binds with the one after them |
| Signing.SignExtends | src/builder.rs:1220-1236 | Signing with any key only adds valid signatures |
| Signing.SignCoins | src/builder.rs:1220-1236 | Signing with a key signs each spend it controls with the next draw of randomness |
| Signing.SignAllCoins | src/builder.rs:1201-1213 | Over all keys one draw of randomness is used up for every signature made |
| Signing.AppendIff | src/builder.rs:1242-1276 | A signature is accepted exactly when valid for one unsigned spend, and signs that one and no other; otherwise the exact error |
| Signing.AppendTwiceFails | src/builder.rs:1249-1276 | Appending an accepted signature again is refused as invalid |
| Signing.AppendsStoreAll | src/builder.rs:1242-1247 | Appending a list stores every signature of it, on as many spends as there are signatures |
| Signing.RunSound | src/builder.rs:1166-1276 | Over every run stored signatures verify under their own keys, are never replaced, and effects do not change |
| Signing.FinalizeIff | src/builder.rs:1283-1295 | Finalizing succeeds exactly when every spend is signed and keeps every signature |
| Signing.ApplySignaturesIff | src/builder.rs:1201-1213 | Applying keys succeeds exactly when they control every spend that is no dummy; the result has the original effects and proofs, and every signature, the binding one included, verifies for the sighash |
| Signing.KeyOrderIrrelevant | src/builder.rs:1201-1213 | The order and repetition of keys do not matter |
| Signing.SigningProtocol | src/builder.rs:1166-1296 | Prepare, any successful run, finalize: the original effects and proofs, and every signature verifies for the one sighash |
| UnauthorizedBundles.FindKeyIff | src/builder.rs:764-775 | A key is found exactly when some spending key has the viewing key, and it is that key's |
| UnauthorizedBundles.FindsFirstKey | src/builder.rs:764-775 | The key found is that of the first matching spending key |
| UnauthorizedBundles.SpendResultIff | src/builder.rs:278-325 | A spend builds exactly when the prover accepts the note with the dummy's own key or with the first matching one; otherwise the exact error, never a wrong key, and the description is consistent |
| UnauthorizedBundles.BuildSpends | src/builder.rs:760-778 | All spends are buildable or the error of the first that is not is returned, and the commitments are those of the openings |
| UnauthorizedBundles.FinishBundle | src/builder.rs:735-811 | The consistency assertion never fires, success exactly for a balance in range and buildable spends, otherwise the exact error; the bundle carries the commitments, balance and bsk of its openings, and every proof witness is the built item's and opens what the description exposes |
| UnauthorizedBundles.DescribedSpend | src/builder.rs:278-325 | A described spend has the native nullifier, its own root as anchor, the key of its viewing key, and satisfies the circuit's anchor constraint |
| UnauthorizedBundles.DescribedSpendOpens | src/builder.rs:278-325 | The witness of a described spend opens its rk, cv, nullifier and anchor, and is made of the built item; the signing data are those of the witness |
| UnauthorizedBundles.DescribedOutput | src/builder.rs:471-497 | The witness of a described output is the built note with its trapdoor, and opens its cv and cmu |
| UnauthorizedBundles.BuildRecordsNet | src/builder.rs:905-915 | A build's value is the net of its openings |
| UnauthorizedBundles.CreateProofsKeeps | src/builder.rs:1070-1095 | Proving changes nothing but the proofs, each of its own witness and with its own draw of randomness, spends and outputs |
| UnauthorizedBundles.VerifierKey | src/verifier.rs:138-148 | A verifier of anything with the effects of the bundle recomputes the public key of bsk |
| UnauthorizedBundles.BuiltBundleVerifies | src/verifier.rs:34-148 | A finished build, proven, signed by any successful run and finalized, is accepted exactly when its proofs are and no rk or ephemeral key has small order |
| Pczt.SignIff | src/pczt/signer.rs:14-32 | Signing succeeds exactly with the controlling key, stores a valid signature, and changes nothing on failure, with the exact error |
| Pczt.SignDummiesIff | src/pczt/io_finalizer.rs:67-76 | All dummies are signed exactly when each is controlled by its own key; other spends are untouched |
| Pczt.SignDummiesCoins | src/pczt/io_finalizer.rs:67-76 | The dummy at every position is signed by its own key and randomizer, with a draw of its own |
| Pczt.FinalizeIoIff | src/pczt/io_finalizer.rs:12-79 | Success exactly when trapdoors are set and open the declared sum and dummies are signable, otherwise the exact error; on success no dummy key remains, dummies are validly signed and bsk matches bvk |
| Pczt.DummyFailureIsPartial | src/pczt/io_finalizer.rs:65-76 | With a first dummy j not controlled by its key, finalizing fails; past the balance check bsk is then set, dummies before j are signed, j has lost its key, later spends are unchanged, and a dummy key remains exactly when a later spend had one |
| Pczt.DummyKeyRemains | src/pczt/io_finalizer.rs:65-76 | In every context a concrete balanced state with two dummies of no value fails and keeps the second dummy's spend authorizing key |
| Pczt.FinalizeIoIdempotent | src/pczt/io_finalizer.rs:12-79 | Finalizing a finalized bundle succeeds and changes nothing |
| Pczt.CreateProofsIff | src/pczt/prover.rs:12-87 | Proving succeeds exactly when the seven fields of every spend and the four of every output are set and every spend has a valid diversifier; each proof is of its own fields against the shared anchor |
| Pczt.ProveSpendsStops | src/pczt/prover.rs:22-56 | Proving stops at the first spend that is not ready, with the error of its first unset field, and keeps the proofs before it |
| Pczt.ProveOutputsStops | src/pczt/prover.rs:59-84 | The same for outputs |
| Pczt.ExtractIff | src/pczt/tx_extractor.rs:32-112 | Extraction succeeds exactly for complete bundles, is empty exactly for empty ones, and the bundle is the state field by field, stored proofs and signatures included, with the effects the signers were shown |
| Pczt.ExtractErrors | src/pczt/tx_extractor.rs:32-112 | The exact error of every failing extraction |
| Pczt.ApplyBindingIff | src/pczt/tx_extractor.rs:169-191 | Binding succeeds exactly when every spend signature verifies, changes nothing else, and the binding signature verifies under bsk |
| Pczt.ActAllKeepsCore | src/pczt/signer.rs:14-49 | No act of signers and provers, failed or not, changes anything but proofs and signatures |
| PcztBundle.PcztBundle.FinalizeIo | src/pczt/io_finalizer.rs:12-79 | The method is the IO finalizer's transition, errors and partial changes included |
| PcztBundle.PcztBundle.SignSpend | src/pczt/signer.rs:14-32 | The method is the signer's transition on one spend |
| PcztBundle.PcztBundle.ApplySignature | src/pczt/signer.rs:38-49 | The method stores a signature exactly when it verifies under rk |
| PcztBundle.PcztBundle.CreateProofs | src/pczt/prover.rs:12-87 | The method is the prover's transition, proofs before a failure included |
| PcztBundle.BuildForPczt | src/builder.rs:690-729 | PCZTs need ZIP 212; otherwise the exact failures of a build, and the state is that of the build |
| PcztBundle.BothFormsAgreeIff | src/builder.rs:278-350 | The in-memory and the PCZT form of a build with the same random choices have the same effects exactly when every spend of no value has a path to the bundle anchor |
| PcztBundle.PcztSpendWitness | src/builder.rs:327-350 | Given its proof generation key, a spend of the PCZT has the witness of the in-memory form, but for the anchor |
| PcztBundle.PcztOutputWitness | src/builder.rs:498-526 | An output of the PCZT has the witness of the in-memory form |
| PcztBundle.DummyFormsDiffer | src/builder.rs:278-350 | In every context a keyed dummy of no value is admitted and built, and its two forms have different effects whenever its own root is not the anchor |
| PcztBundle.NativeDummyFormsDiffer | src/builder.rs:278-350 | With the native commitment and tree, the field element after the root of any dummy's own path is such an anchor |
| PcztBundle.BuiltPcztBalances | src/builder.rs:327-350 | The trapdoors of a built PCZT open its commitments to its declared sum |
| PcztBundle.BuiltPcztFinalizes | src/pczt/io_finalizer.rs:12-79 | A PCZT from a builder whose additions all succeeded always passes the IO finalizer |
| PcztBundle.BuiltSpendsMatchAnchor | src/builder.rs:222-229 | Every spend of a build, dummies included, has no value or a path to the anchor |
| PcztBundle.BuiltSpendsSatisfyCircuit | src/pczt/prover.rs:43-53 | Such a spend satisfies the circuit's conditional anchor constraint with the bundle anchor |
| PcztBundle.PcztLifecycle | src/pczt/tx_extractor.rs:32-191 | From a finalized state through any acts to a bound bundle: fixed effects, the proofs and signatures of the last state, all signatures verify, and only proofs and the small-order tests on rk and ephemeral keys decide acceptance |
| Zip32.RoundTripIff | src/zip32.rs:317-398 | Decoding the encoding returns the key exactly for consistent keys and otherwise refuses the child index |
| Zip32.AcceptedReencode | src/zip32.rs:317-398 | Accepted bytes re-encode to themselves and give a consistent key |
| Zip32.DecodeErrors | src/zip32.rs:317-385 | The exact answer of decoding: length, then child index, then the two scalars |
| Zip32.ExpandedRoundTrip | src/keys.rs:274-319 | The 96-byte encoding of a spending key decodes to it |
| Zip32.ExpandedCanonical | src/keys.rs:274-319 | Accepted 96-byte strings re-encode to themselves: scalars are canonical |
| Zip32.DecodeExpandedErrors | src/keys.rs:274-309 | The exact answer of decoding a spending key |
| Zip32.ToBytes | src/zip32.rs:388-398 | Filling the buffer field by field gives the encoding |
| Zip32.InternalCommutes | src/zip32.rs:79-110 | Deriving the internal key commutes with taking the full viewing key |
| Zip32.ChildViewingKey | src/zip32.rs:421-455 | A child's viewing key is its parent's shifted by the derived scalars, tagged with the parent's fingerprint |
| Zip32.ChildParts | src/zip32.rs:421-455 | Everything about a child: counters, fingerprint of the parent, right half of the seed as chain code, the rest derived with the left half |
| Zip32.InternalParts | src/zip32.rs:79-110 | Everything about an internal key: its seed hashes the full viewing key with dk, and the spend authorizing key and all counters stay |
| Zip32.MasterParts | src/zip32.rs:295-313 | Everything about a master key |
| Zip32.ReachedKey | src/zip32.rs:421-455 | Along every run the depth counts child steps modulo 256 and the key is a master key until the first |
| Zip32.ReachableRoundTripIff | src/zip32.rs:243-258 | A reachable key survives its encoding exactly for no child step or a number that is no multiple of 256 |
| Zip32.ReachableRoundTrip | src/zip32.rs:295-500 | Up to 255 child steps mixed with internal ones every reachable key survives its encoding |
| Zip32.PathRoundTrip | src/zip32.rs:243-258 | The key at the end of a path survives its encoding, or the encoding is refused for its child index when the path has a positive multiple of 256 children |
| Zip32.DeepPathRefused | src/zip32.rs:421-455 | For any derivation in which none of 256 first children fails, they lead from the master key to a key whose encoding is refused |
| Zip32.RefusedKeyReachable | src/zip32.rs:421-455 | If every key has some child, every master key reaches such a key by some path of 256 children |
| Zip32.FromPath | src/zip32.rs:406-412 | Following a path is the run of its child steps |
| Diversifiers.FindDiversifier | src/zip32.rs:214-229 | The bounded search returns the least valid index at or above the start, or nothing exactly when there is none |
| Diversifiers.FindAddress | src/zip32.rs:901-907 | The least index with an address; none exactly for no valid diversifier or, with bases of order r_J, the zero key |
| Diversifiers.InternalIsDerived | src/zip32.rs:791-801 | The internal addresses of a key are the external ones of its derived internal key |
| Diversifiers.DecryptDiversifierIff | src/zip32.rs:816-831 | The index is returned exactly for addresses the external key has there, and never with the internal scope |
| Diversifiers.InternalAddressIff | src/zip32.rs:807-831 | An internal address is recovered exactly when both keys have the same incoming viewing key |
| Diversifiers.InternalAddressRefused | src/zip32.rs:824-828 | A concrete internal address that is refused |
| BatchKdf.BatchToAffine | src/keys.rs:642-661 | Dropping, normalizing and re-inserting gives every position its own normalization |
| BatchKdf.BatchDerive | src/note_encryption.rs:291-302 | The batch gives every position the key of the single derivation, and nothing exactly where there was no secret |

## Left out

- Bodies of BLAKE2, AES and FF1, ChaCha20Poly1305, RedJubjub, Groth16 and of the field and curve crates: they are parameters with the laws named in `JubjubGroup.IsCurve`, `RedJubjub.IsScheme` and `Diversifiers.IsCipher`.
- Primality of the field order, d not being a square, the generators having order r_J, every solution of the curve equation being a point and the cofactor being eight: named assumptions (`Residues.Field.Valid`, `EdwardsCurve.Jubjub.DIsNotSquare`, `Scalars.HasOrderR`, `Diversifiers.HasBasesOfOrderR`, `JubjubGroup.HasAllPoints`, `CircuitSoundness.CofactorAt`); the other facts about the hard-coded constants are proved.
- Cryptographic hardness: hiding, collision resistance and the quality of randomness.
- Constraint-system plumbing: a gadget is the relation its equations state, and a lookup is its index and sign.
- The BLAKE2s gadgets for ivk and nullifiers, which are taken as functions of bits, and the strict bit decomposition, taken as the bits of the canonical representative.
- The verifier's splitting of a nullifier into two field elements is a parameter of `Verifier`, tied to the circuit's by `PublicInputs.VerifiesFor`.
- Point decompression, note plaintexts, ciphertexts and trial decryption.
- Note randomness seeds: a note carries the trapdoor derived from its seed.
- `incrementalmerkletree`, beyond a path as 32 siblings with a position.
- Batch signature and proof verification: a batch is valid when every queued item is.
- PCZT parsing, updaters, redaction and combination, and the fields they alone use.
- Spends inside a PCZT bundle are values that the bundle's methods replace: no aliasing between them is modelled.
- Readers and writers over streams: the byte-string forms have the same branches.
- `try_map_authorization` without its context: the one caller passes the unit value.
- Error texts, debug output, progress notification and memory accounting.
- BundleBuilder.BuildBundle: requires at most 2^63 requested notes on each side, which a vector cannot exceed on a 64-bit machine; beyond that the folds could overflow.
- ScalarMultiplication.NotSmallOrderIff: takes the order of the curve group as eight times an odd number, given as a parameter.
- Zip32.FromPath: the key encodings hashed for child derivation are passed to the abstract hash as their fields.
- BatchKdf.BatchNormalize: does not model the shared inversion of the curve library, only its pointwise result.
