/** Where the circuits, the builder and the verifier meet: the public wires of a circuit are, element by
element, the inputs against which the verifier checks the proof, and the witness that a built
description hands to the prover is one for exactly the points that the description exposes. */
module PublicInputs {
  import opened Wrappers
  import opened Residues
  import opened Bytes
  import opened EdwardsCurve
  import opened JubjubGroup
  import opened Scalars
  import opened Keys
  import opened NoteTree
  import opened Verifier
  import B = BundleBuilder
  import U = UnauthorizedBundles
  import opened CircuitSoundness
  import opened CircuitSynthesis

  // Two lists of field elements, by residue.
  ghost predicate SameElements(q: int, s: seq<int>, t: seq<int>) {
    |s| == |t| && forall k: nat | k < |s| :: Cong(q, s[k], t[k])
  }

  // The verifier packs the bits of a nullifier as the circuit does.
  ghost predicate PacksAt<P>(lib: Libraries<P>, nullifier: seq<byte>) {
    |BitsOfBytes(nullifier)| == 256 ==> lib.pack(nullifier) == Packed(BitsOfBytes(nullifier))
  }

  ghost predicate VerifiesFor<P>(lib: Libraries<P>, c: Setting<P>) {
    lib.curve == c.s.curve && forall nullifier: seq<byte> :: PacksAt(lib, nullifier)
  }

  ghost function NullifierOf<P(!new)>(c: Setting<P>, v: SpendWitness<P>): seq<byte>
    requires IsSetting(c) && v.note.Valid()
  {
    Nullifier(c.s, v.note, NkOf(c, v), v.path.position)
  }

  lemma PackedNullifier<P(!new)>(lib: Libraries<P>, c: Setting<P>, v: SpendWitness<P>)
    requires IsSetting(c) && VerifiesFor(lib, c) && v.note.Valid()
    ensures lib.pack(NullifierOf(c, v)) == Packed(NullifierBits(c, NkOf(c, v), RhoOf(c, v)))
  {
    assert BitsOfBytes(NullifierOf(c, v)) == NullifierBits(c, NkOf(c, v), RhoOf(c, v));
    assert PacksAt(lib, NullifierOf(c, v));
  }

  // Representatives of one canonical element are congruent to it.
  lemma CanonicalCong(q: int, x: int, y: int)
    requires q > 0 && Canonical(q, x) == y
    ensures Cong(q, x, y)
  {
    CanonicalEqual(q, x, x);
    CongSym(q, y, x);
  }

  lemma SpendElements<P>(lib: Libraries<P>, rk: Coords, rkPoint: P, cv: Coords, cvPoint: P, anchor: int, a: int, packed: (int, int), nullifier: seq<byte>)
    requires At(lib.curve, rk, rkPoint) && At(lib.curve, cv, cvPoint) && Cong(lib.curve.params.field.q, anchor, a)
    requires Cong(lib.curve.params.field.q, packed.0, lib.pack(nullifier).0) && Cong(lib.curve.params.field.q, packed.1, lib.pack(nullifier).1)
    ensures SameElements(lib.curve.params.field.q, [rk.u, rk.v, cv.u, cv.v, anchor, packed.0, packed.1],
                         lib.SpendInput(rkPoint, cvPoint, a, nullifier))
  {
  }

  lemma OutputElements<P>(lib: Libraries<P>, cv: Coords, cvPoint: P, epk: Coords, epkPoint: P, cmu: int, x: int)
    requires At(lib.curve, cv, cvPoint) && At(lib.curve, epk, epkPoint) && Cong(lib.curve.params.field.q, cmu, x)
    ensures SameElements(lib.curve.params.field.q, [cv.u, cv.v, epk.u, epk.v, cmu], lib.OutputInput(cvPoint, epkPoint, x))
  {
  }

  // --- what any satisfying assignment makes public ---

  /** The public wires of any satisfying assignment of the Spend circuit are what the verifier's context
  builds from the rk, cv, anchor and nullifier of the statement that the wires witness. */
  lemma SpendPublicIsChecked<P(!new)>(lib: Libraries<P>, c: Setting<P>, w: SpendWires, ak: P, gd: P)
    requires IsSetting(c) && VerifiesFor(lib, c) && SpendWitnessed(c, w, ak, gd)
    ensures
      var q := c.s.curve.params.field.q;
      var v := SpendWitnessOf(c, w, ak, gd);
      var x := SpendInputOf(c, v, Canonical(q, w.part.anchor));
      SameElements(q, SpendPublic(w), lib.SpendInput(x.rk, x.cv, x.anchor, NullifierOf(c, v)))
  {
    var q := c.s.curve.params.field.q;
    var v := SpendWitnessOf(c, w, ak, gd);
    var x := SpendInputOf(c, v, Canonical(q, w.part.anchor));
    PackedNullifier(lib, c, v);
    CanonicalCong(q, w.part.anchor, x.anchor);
    CanonicalCong(q, w.packed.0, x.nullifier.0);
    CanonicalCong(q, w.packed.1, x.nullifier.1);
    SpendElements(lib, w.authority.rk.sum, x.rk, w.part.c.cv.sum, x.cv, w.part.anchor, x.anchor, w.packed, NullifierOf(c, v));
  }

  lemma OutputPublicIsChecked<P(!new)>(lib: Libraries<P>, c: Setting<P>, w: OutputWires, gd: P)
    requires IsSetting(c) && VerifiesFor(lib, c) && OutputWitnessed(c, w, gd)
    ensures
      var x := OutputInputOf(c, OutputWitnessOf(w, gd));
      SameElements(c.s.curve.params.field.q, OutputPublic(w), lib.OutputInput(x.cv, x.epk, x.cmu))
  {
    var x := OutputInputOf(c, OutputWitnessOf(w, gd));
    CanonicalCong(c.s.curve.params.field.q, w.c.cm.sum.u, x.cmu);
    OutputElements(lib, w.c.cv.sum, x.cv, w.epk.Output(), x.epk, w.c.cm.sum.u, x.cmu);
  }

  // --- what synthesis makes public ---

  lemma SynthesizedSpendIsChecked<P(!new)>(lib: Libraries<P>, c: Setting<P>, v: SpendWitness<P>, e: SpendExposed, anchor: int)
    requires IsSetting(c) && VerifiesFor(lib, c) && v.note.Valid() && v.path.position < 0x1_0000_0000
    requires 0 <= anchor < c.s.curve.params.field.q && ExposedFor(c, v, e, anchor)
    ensures
      var x := SpendInputOf(c, v, anchor);
      SameElements(c.s.curve.params.field.q, e.Public(anchor), lib.SpendInput(x.rk, x.cv, anchor, NullifierOf(c, v)))
  {
    var q := c.s.curve.params.field.q;
    PackedNullifier(lib, c, v);
    CongRefl(q, anchor);
    CongRefl(q, e.nullifier.0);
    CongRefl(q, e.nullifier.1);
    SpendElements(lib, e.rk, SpendInputOf(c, v, anchor).rk, e.cv, SpendInputOf(c, v, anchor).cv, anchor, anchor, e.nullifier, NullifierOf(c, v));
  }

  lemma SynthesizedOutputIsChecked<P(!new)>(lib: Libraries<P>, c: Setting<P>, v: OutputWitness<P>, e: OutputExposed)
    requires IsSetting(c) && VerifiesFor(lib, c) && v.note.Valid()
    requires At(c.s.curve, e.cv, OutputInputOf(c, v).cv) && At(c.s.curve, e.epk, OutputInputOf(c, v).epk)
    requires Canonical(c.s.curve.params.field.q, e.cmu) == OutputInputOf(c, v).cmu
    ensures
      var x := OutputInputOf(c, v);
      SameElements(c.s.curve.params.field.q, e.Public(), lib.OutputInput(x.cv, x.epk, x.cmu))
  {
    var x := OutputInputOf(c, v);
    CanonicalCong(c.s.curve.params.field.q, e.cmu, x.cmu);
    OutputElements(lib, e.cv, x.cv, e.epk, x.epk, e.cmu, x.cmu);
  }

  // --- what a built description exposes ---

  // The builder works with the generators and the note computations of the circuits.
  ghost predicate BuildsFor<P(!new)>(b: U.Context<P>, c: Setting<P>)
    requires IsSetting(c)
  {
    && AreNoteOps(c.s, b.ops) && b.bases == c.s.ValueBases()
    && b.schemes.spendAuth.group == c.s.curve.group && b.schemes.spendAuth.base == c.spendAuth
    && b.proofGenerationBase == c.proofGeneration
  }

  // The prover's witness of a description as one of the Spend statement, for the point g_d of its address.
  function StatementWitness<P>(w: U.SpendWitness<P>, gd: P): SpendWitness<P> {
    SpendWitness(w.key.ak, w.alpha, w.key.nsk, gd, w.note, w.rcv, w.path, seq(TREE_DEPTH, _ => (false, false)))
  }

  /** The witness of a built spend is one for exactly the rk, cv, anchor and nullifier of its description:
  the verifier checks the proof against the public input of the statement. */
  lemma BuiltSpendInput<P(!new)>(lib: Libraries<P>, b: U.Context<P>, c: Setting<P>, extsks: seq<ExpandedSpendingKey>,
                                 p: B.PreparedSpend<P>, alpha: Fr, d: U.UnprovenSpend<P>, gd: P)
    requires IsSetting(c) && VerifiesFor(lib, c) && BuildsFor(b, c) && U.SpendResult(b, extsks, p, alpha) == Ok(d)
    requires p.info.note.Valid() && p.info.merklePath.Valid(c.s.curve.params.field.q)
    ensures
      var v := StatementWitness(d.zkproof, gd);
      var x := SpendInputOf(c, v, d.anchor);
      && d.rk == x.rk && d.cv == x.cv && d.nullifier == NullifierOf(c, v)
      && d.anchor == Root(c.s, v.path, Cmu(c.s, v.note))
      && lib.pack(d.nullifier) == x.nullifier
  {
    var v := StatementWitness(d.zkproof, gd);
    U.DescribedSpendOpens(b, extsks, p, alpha, d);
    assert CmuAt(c.s, b.ops, v.note) && RootAt(c.s, b.ops, v.path, Cmu(c.s, v.note));
    assert NullifierAt(c.s, b.ops, v.note, NkOf(c, v), v.path.position);
    PackedNullifier(lib, c, v);
  }

  /** If moreover the note is addressed to the key and the points have large order, the statement holds. */
  lemma BuiltSpendHolds<P(!new)>(lib: Libraries<P>, b: U.Context<P>, c: Setting<P>, extsks: seq<ExpandedSpendingKey>,
                                 p: B.PreparedSpend<P>, alpha: Fr, d: U.UnprovenSpend<P>, gd: P)
    requires IsSetting(c) && VerifiesFor(lib, c) && BuildsFor(b, c) && U.SpendResult(b, extsks, p, alpha) == Ok(d)
    requires p.info.note.Valid() && p.info.merklePath.Valid(c.s.curve.params.field.q)
    requires IsPrepared(c, StatementWitness(d.zkproof, gd)) && LargeOrder(c, d.zkproof.key.ak) && LargeOrder(c, gd)
    ensures SpendHolds(c, SpendInputOf(c, StatementWitness(d.zkproof, gd), d.anchor), StatementWitness(d.zkproof, gd))
  {
    BuiltSpendInput(lib, b, c, extsks, p, alpha, d, gd);
    PreparedHoldsIff(c, StatementWitness(d.zkproof, gd), d.anchor);
  }

  /** The witness of a built output is one for exactly the cv and cmu of its description. */
  lemma BuiltOutputInput<P(!new)>(b: U.Context<P>, c: Setting<P>, p: B.PreparedOutput, gd: P, esk: nat)
    requires IsSetting(c) && BuildsFor(b, c) && p.note.Valid()
    ensures
      var d := U.DescribeOutput(b, p);
      var x := OutputInputOf(c, OutputWitness(gd, esk, d.zkproof.note, d.zkproof.rcv));
      d.cv == x.cv && d.cmu == x.cmu
  {
    U.DescribedOutput(c.s, b, p);
  }
}
