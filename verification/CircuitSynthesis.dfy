/** Completeness of the Spend and the Output circuit: from the witness of a prover, as long as its points
have large order, synthesis succeeds and exposes the public input for which that witness satisfies the
statement. */
module CircuitSynthesis {
  import opened Wrappers
  import opened Powers
  import opened Groups
  import opened EdwardsCurve
  import opened JubjubGroup
  import opened EccGadgets
  import opened Scalars
  import opened ScalarMultiplication
  import opened ValueBalance
  import opened NoteTree
  import opened SpendCircuit
  import opened NoteSoundness
  import opened PointWires
  import opened CircuitSoundness

  const HALF_ORDER: int := JUBJUB_ORDER / 2

  lemma OddCofactor<P(!new)>(g: Group<P>, p: P)
    requires IsGroup(g) && CofactorAt(g, p)
    ensures Mul(g, 2 * HALF_ORDER + 1, Mul(g, 8, p)) == g.zero
  {
    if Mul(g, 8, p) == g.zero {
      MulZero(g, JUBJUB_ORDER);
    } else {
      GeneratorInSubgroup(g, Mul(g, 8, p));
    }
  }

  // The small-order gadget on a point of the curve.
  lemma OrderTestIff<P(!new)>(c: Curve<P>, e: Coords, p: P)
    requires IsCurve(c) && At(c, e, p) && CofactorAt(c.group, p)
    ensures AssertNotSmallOrder(c.params, e).Ok? <==> Mul(c.group, 8, p) != c.group.zero
  {
    OddCofactor(c.group, p);
    NotSmallOrderIff(c, e, p, HALF_ORDER);
  }

  // The representation, from the coordinates on the wires.
  method Represent<P(!new)>(g: Jubjub, ghost c: Curve<P>, e: Coords, ghost p: P) returns (bits: seq<bool>)
    requires IsCurve(c) && c.params == g && At(c, e, p)
    ensures bits == ReprBits(c, p)
  {
    CanonicalEqual(g.field.q, e.u, c.u(p));
    CanonicalEqual(g.field.q, e.v, c.v(p));
    var u := ToBits(Canonical(g.field.q, e.u), SCALAR_BITS);
    LowBit(Canonical(g.field.q, e.u));
    bits := ToBits(Canonical(g.field.q, e.v), SCALAR_BITS) + [u[0]];
  }

  // --- the authority part ---

  // rk = ak + [ar]G
  method RandomizeKey<P(!new)>(g: Jubjub, ghost c: Setting<P>, t: KeyTables, ak: Coords, ghost akp: P, ar: seq<bool>)
    returns (r: Result<Coords, SynthesisError>)
    requires IsSetting(c) && AreKeyTables(c, t) && c.s.curve.params == g && At(c.s.curve, ak, akp) && |ar| == FR_BITS
    ensures r.Ok? && At(c.s.curve, r.value, c.s.curve.group.add(akp, Mul(c.s.curve.group, Reduce(BitsValue(ar)), c.spendAuth)))
  {
    var randomizer := FixedBase(g, c.s.curve, c.spendAuth, t.spendAuth, ar);
    EdwardsAddCorrect(c.s.curve, ak, akp, randomizer.value, Mul(c.s.curve.group, BitsValue(ar), c.spendAuth));
    r := EdwardsAdd(g, ak, randomizer.value);
  }

  // The representation of nk = [nsk]H.
  method RepresentNk<P(!new)>(g: Jubjub, ghost c: Setting<P>, t: KeyTables, nsk: seq<bool>) returns (r: Result<seq<bool>, SynthesisError>)
    requires IsSetting(c) && AreKeyTables(c, t) && c.s.curve.params == g && |nsk| == FR_BITS
    ensures r == Ok(c.Repr(Mul(c.s.curve.group, Reduce(BitsValue(nsk)), c.proofGeneration)))
  {
    var nk := FixedBase(g, c.s.curve, c.proofGeneration, t.proofGeneration, nsk);
    var bits := Represent(g, c.s.curve, nk.value, Mul(c.s.curve.group, BitsValue(nsk), c.proofGeneration));
    r := Ok(bits);
  }

  // The representation of pk_d = [ivk]g_d.
  method RepresentAddress<P(!new)>(g: Jubjub, ghost c: Setting<P>, ivkHash: seq<bool> -> seq<bool>, akRepr: seq<bool>, nkRepr: seq<bool>,
                                   ghost ak: P, ghost nk: P, gd: Coords, ghost gdp: P)
    returns (r: Result<seq<bool>, SynthesisError>)
    requires IsSetting(c) && c.s.curve.params == g && ivkHash == c.ivkHash && At(c.s.curve, gd, gdp)
    requires akRepr == c.Repr(ak) && nkRepr == c.Repr(nk)
    ensures r == Ok(c.Repr(Mul(c.s.curve.group, Ivk(c, ak, nk), gdp)))
  {
    var ivk := ivkHash(akRepr + nkRepr)[..IVK_BITS];
    assert ivk == IvkBits(c, ak, nk);
    var pkd := EdwardsMultiplication(g, c.s.curve, gdp, gd, ivk);
    var bits := Represent(g, c.s.curve, pkd.value, Mul(c.s.curve.group, BitsValue(ivk), gdp));
    r := Ok(bits);
  }

  /** The wires that the authority part leaves. */
  datatype KeyWires = KeyWires(rk: Coords, nkRepr: seq<bool>, gdRepr: seq<bool>, pkdRepr: seq<bool>)

  ghost predicate KeysOf<P(!new)>(c: Setting<P>, k: KeyWires, ak: P, ar: Fr, nsk: Fr, gd: P)
    requires IsSetting(c)
  {
    var g := c.s.curve.group;
    var nk := Mul(g, nsk, c.proofGeneration);
    && At(c.s.curve, k.rk, g.add(ak, Mul(g, ar, c.spendAuth)))
    && k.nkRepr == c.Repr(nk) && k.gdRepr == c.Repr(gd) && k.pkdRepr == c.Repr(Mul(g, Ivk(c, ak, nk), gd))
  }

  /** The authority part succeeds exactly for points of large order, and computes the native keys and
  representations. */
  method SynthesizeAuthority<P(!new)>(g: Jubjub, ghost c: Setting<P>, t: KeyTables, ivkHash: seq<bool> -> seq<bool>,
                                      ak: Coords, ghost akp: P, ar: seq<bool>, nsk: seq<bool>, gd: Coords, ghost gdp: P)
    returns (r: Result<KeyWires, SynthesisError>)
    requires IsSetting(c) && AreKeyTables(c, t) && c.s.curve.params == g && ivkHash == c.ivkHash
    requires At(c.s.curve, ak, akp) && At(c.s.curve, gd, gdp) && |ar| == |nsk| == FR_BITS
    requires CofactorAt(c.s.curve.group, akp) && CofactorAt(c.s.curve.group, gdp)
    ensures r.Ok? <==> Mul(c.s.curve.group, 8, akp) != c.s.curve.group.zero && Mul(c.s.curve.group, 8, gdp) != c.s.curve.group.zero
    ensures r.Ok? ==> KeysOf(c, r.value, akp, Reduce(BitsValue(ar)), Reduce(BitsValue(nsk)), gdp)
  {
    OrderTestIff(c.s.curve, ak, akp);
    var akTest := AssertNotSmallOrder(g, ak);
    if akTest.Err? { return Err(akTest.error); }
    var rk := RandomizeKey(g, c, t, ak, akp, ar);
    var akRepr := Represent(g, c.s.curve, ak, akp);
    var nkRepr := RepresentNk(g, c, t, nsk);
    OrderTestIff(c.s.curve, gd, gdp);
    var gdTest := AssertNotSmallOrder(g, gd);
    if gdTest.Err? { return Err(gdTest.error); }
    var pkdRepr := RepresentAddress(g, c, ivkHash, akRepr, nkRepr.value, akp,
                                    Mul(c.s.curve.group, Reduce(BitsValue(nsk)), c.proofGeneration), gd, gdp);
    var gdRepr := Represent(g, c.s.curve, gd, gdp);
    return Ok(KeyWires(rk.value, nkRepr.value, gdRepr, pkdRepr.value));
  }

  // --- the Spend circuit ---

  // The nullifier, packed into two field elements.
  method ExposeNullifier<P(!new)>(g: Jubjub, ghost c: Setting<P>, nfHash: seq<bool> -> seq<bool>, nkRepr: seq<bool>, ghost nk: P,
                                  rho: Coords, ghost rhoPoint: P) returns (packed: (int, int))
    requires IsSetting(c) && c.s.curve.params == g && nfHash == c.nfHash && nkRepr == c.Repr(nk) && At(c.s.curve, rho, rhoPoint)
    ensures packed == Packed(NullifierBits(c, nk, rhoPoint))
  {
    var rhoRepr := Represent(g, c.s.curve, rho, rhoPoint);
    var bits := nfHash(nkRepr + rhoRepr);
    assert bits == NullifierBits(c, nk, rhoPoint);
    packed := Packed(bits);
  }

  /** What the Spend circuit exposes beside the anchor, with the root and the value of its anchor constraint. */
  datatype SpendExposed = SpendExposed(rk: Coords, cv: Coords, root: int, value: int, nullifier: (int, int)) {
    // In the order in which synthesis makes it public.
    function Public(anchor: int): seq<int> {
      [rk.u, rk.v, cv.u, cv.v, anchor, nullifier.0, nullifier.1]
    }
  }

  // A witness as the prover prepares it: the note is addressed to the key, and every decomposition is canonical.
  ghost predicate IsPrepared<P(!new)>(c: Setting<P>, v: SpendWitness<P>)
    requires IsSetting(c)
  {
    && v.path.Valid(c.s.curve.params.field.q) && |v.uppers| == TREE_DEPTH && AllLower(v.uppers)
    && v.note.gd == c.Repr(v.gd) && v.note.pkd == c.Repr(Mul(c.s.curve.group, Ivk(c, v.ak, NkOf(c, v)), v.gd))
  }

  ghost predicate LargeOrder<P>(c: Setting<P>, p: P) {
    Mul(c.s.curve.group, 8, p) != c.s.curve.group.zero
  }

  // For a prepared witness the statement comes down to the anchor.
  lemma PreparedHoldsIff<P(!new)>(c: Setting<P>, v: SpendWitness<P>, anchor: int)
    requires IsSetting(c) && IsPrepared(c, v) && LargeOrder(c, v.ak) && LargeOrder(c, v.gd)
    ensures v.note.Valid()
    ensures SpendHolds(c, SpendInputOf(c, v, anchor), v) <==> v.note.value == 0 || Root(c.s, v.path, Cmu(c.s, v.note)) == anchor
  {
    LowerIsAscend(c.s, v.path, Cmu(c.s, v.note), v.uppers, |v.path.siblings|);
  }

  // The exposed values are the public input of the witness, and the anchor constraint decides the statement.
  ghost predicate ExposedFor<P(!new)>(c: Setting<P>, v: SpendWitness<P>, e: SpendExposed, anchor: int)
    requires IsSetting(c) && v.note.Valid()
  {
    var x := SpendInputOf(c, v, anchor);
    && At(c.s.curve, e.rk, x.rk) && At(c.s.curve, e.cv, x.cv)
    && (v.path.position < 0x1_0000_0000 ==> e.nullifier == x.nullifier)
    && (AnchorConstraint(c.s.curve.params, e.root, anchor, e.value) <==> SpendHolds(c, x, v))
  }

  lemma PreparedExposes<P(!new)>(c: Setting<P>, v: SpendWitness<P>, e: SpendExposed, anchor: int)
    requires IsSetting(c) && IsPrepared(c, v) && LargeOrder(c, v.ak) && LargeOrder(c, v.gd) && v.note.Valid()
    requires At(c.s.curve, e.rk, c.s.curve.group.add(v.ak, Mul(c.s.curve.group, v.ar, c.spendAuth)))
    requires At(c.s.curve, e.cv, Derive(c.s.ValueBases(), Opening(v.note.value, v.rcv)))
    requires v.path.position < 0x1_0000_0000 ==> e.nullifier == Packed(NullifierBits(c, NkOf(c, v), RhoOf(c, v)))
    requires AnchorConstraint(c.s.curve.params, e.root, anchor, e.value)
             <==> v.note.value == 0 || Root(c.s, v.path, Cmu(c.s, v.note)) == anchor
    ensures ExposedFor(c, v, e, anchor)
  {
    PreparedHoldsIff(c, v, anchor);
  }

  method PreparedKeys<P(!new)>(g: Jubjub, ghost c: Setting<P>, kt: KeyTables, ivkHash: seq<bool> -> seq<bool>, ghost v: SpendWitness<P>,
                               ak: Coords, ar: seq<bool>, nsk: seq<bool>, gd: Coords)
    returns (r: Result<KeyWires, SynthesisError>)
    requires IsSetting(c) && AreKeyTables(c, kt) && c.s.curve.params == g && ivkHash == c.ivkHash
    requires CofactorAt(c.s.curve.group, v.ak) && CofactorAt(c.s.curve.group, v.gd)
    requires At(c.s.curve, ak, v.ak) && At(c.s.curve, gd, v.gd) && ar == ToBits(v.ar, FR_BITS) && nsk == ToBits(v.nsk, FR_BITS)
    ensures r.Ok? <==> LargeOrder(c, v.ak) && LargeOrder(c, v.gd)
    ensures r.Ok? ==> KeysOf(c, r.value, v.ak, v.ar, v.nsk, v.gd)
  {
    ScalarBits(v.ar);
    ScalarBits(v.nsk);
    r := SynthesizeAuthority(g, c, kt, ivkHash, ak, v.ak, ar, nsk, gd, v.gd);
  }

  method PreparedNullifier<P(!new)>(g: Jubjub, ghost c: Setting<P>, nfHash: seq<bool> -> seq<bool>, ghost v: SpendWitness<P>,
                                    nkRepr: seq<bool>, rho: Coords) returns (packed: (int, int))
    requires IsSetting(c) && c.s.curve.params == g && nfHash == c.nfHash && nkRepr == c.Repr(NkOf(c, v)) && v.note.Valid()
    requires At(c.s.curve, rho, CircuitRho(c.s, CommitNote(c.s, v.note), v.path.position))
    ensures v.path.position < 0x1_0000_0000 ==> packed == Packed(NullifierBits(c, NkOf(c, v), RhoOf(c, v)))
  {
    RhoAgreesIff(c.s, CommitNote(c.s, v.note), v.path.position);
    packed := ExposeNullifier(g, c, nfHash, nkRepr, NkOf(c, v), rho, CircuitRho(c.s, CommitNote(c.s, v.note), v.path.position));
  }

  /** Synthesis of a spend from a prepared witness succeeds exactly when its points have large order.  It
  then exposes rk, cv and, for positions inside the tree, the nullifier of the statement's public input,
  and its anchor constraint is satisfied exactly when the statement holds. */
  method SynthesizeSpend<P(!new)>(g: Jubjub, ghost c: Setting<P>, t: Tables, kt: KeyTables, ivkHash: seq<bool> -> seq<bool>,
                                  nfHash: seq<bool> -> seq<bool>, ghost v: SpendWitness<P>, ak: Coords, ar: seq<bool>, nsk: seq<bool>,
                                  gd: Coords, value: seq<bool>, rcm: seq<bool>, rcv: seq<bool>, authPath: seq<(int, bool)>)
    returns (r: Result<SpendExposed, SynthesisError>)
    requires IsSetting(c) && AreTablesOf(c.s, t) && AreKeyTables(c, kt) && c.s.curve.params == g
    requires ivkHash == c.ivkHash && nfHash == c.nfHash && IsPrepared(c, v)
    requires CofactorAt(c.s.curve.group, v.ak) && CofactorAt(c.s.curve.group, v.gd)
    requires At(c.s.curve, ak, v.ak) && At(c.s.curve, gd, v.gd)
    requires ar == ToBits(v.ar, FR_BITS) && nsk == ToBits(v.nsk, FR_BITS) && rcv == ToBits(v.rcv, FR_BITS)
    requires value == ToBits(v.note.value, 64) && rcm == ToBits(v.note.rcm, FR_BITS) && authPath == PrepareAuthPath(v.path)
    ensures r.Ok? <==> LargeOrder(c, v.ak) && LargeOrder(c, v.gd)
    ensures v.note.Valid()
    ensures r.Ok? ==> forall anchor: int | 0 <= anchor < g.field.q :: ExposedFor(c, v, r.value, anchor)
  {
    ScalarBits(v.rcv);
    var keys := PreparedKeys(g, c, kt, ivkHash, v, ak, ar, nsk, gd);
    if keys.Err? { return Err(keys.error); }
    var note := SynthesizeNote(g, c.s, t, v.note, v.path, value, keys.value.gdRepr, keys.value.pkdRepr, rcm, rcv, authPath);
    var nullifier := PreparedNullifier(g, c, nfHash, v, keys.value.nkRepr, note.value.rho);
    var exposed := SpendExposed(keys.value.rk, note.value.cv, note.value.root, note.value.value, nullifier);
    forall anchor: int | 0 <= anchor < g.field.q ensures ExposedFor(c, v, exposed, anchor) {
      PreparedExposes(c, v, exposed, anchor);
    }
    r := Ok(exposed);
  }

  // --- the Output circuit ---

  datatype OutputExposed = OutputExposed(cv: Coords, epk: Coords, cmu: int) {
    function Public(): seq<int> {
      [cv.u, cv.v, epk.u, epk.v, cmu]
    }
  }

  /** Synthesis of an output succeeds exactly when the diversified base has large order, whatever bits are
  given for pk_d, and exposes the public input for which the witness satisfies the statement. */
  method SynthesizeOutput<P(!new)>(g: Jubjub, ghost c: Setting<P>, t: Tables, ghost v: OutputWitness<P>, gd: Coords, esk: seq<bool>,
                                   pkd: seq<bool>, value: seq<bool>, rcm: seq<bool>, rcv: seq<bool>)
    returns (r: Result<OutputExposed, SynthesisError>)
    requires IsSetting(c) && AreTablesOf(c.s, t) && c.s.curve.params == g
    requires CofactorAt(c.s.curve.group, v.gd) && At(c.s.curve, gd, v.gd)
    requires v.note.Valid() && v.note.gd == c.Repr(v.gd) && v.note.pkd == pkd
    requires v.esk < Pow(2, FR_BITS) && esk == ToBits(v.esk, FR_BITS) && rcv == ToBits(v.rcv, FR_BITS)
    requires value == ToBits(v.note.value, 64) && rcm == ToBits(v.note.rcm, FR_BITS)
    ensures r.Ok? <==> LargeOrder(c, v.gd)
    ensures r.Ok? ==>
              var x := OutputInputOf(c, v);
              && At(c.s.curve, r.value.cv, x.cv) && At(c.s.curve, r.value.epk, x.epk) && Canonical(g.field.q, r.value.cmu) == x.cmu
              && OutputHolds(c, x, v)
  {
    NoteBits(v.note);
    ScalarBits(v.rcv);
    ToBitsValue(v.esk, FR_BITS);
    CanonicalSmall(Pow(2, FR_BITS), v.esk);
    var cv := ExposeValueCommitment(g, c.s, t, value, rcv);
    OrderTestIff(c.s.curve, gd, v.gd);
    var gdTest := AssertNotSmallOrder(g, gd);
    if gdTest.Err? { return Err(gdTest.error); }
    var gdRepr := Represent(g, c.s.curve, gd, v.gd);
    var epk := EdwardsMultiplication(g, c.s.curve, v.gd, gd, esk);
    var cm := CommitNoteCircuit(g, c.s, t, value + gdRepr + pkd, rcm);
    CanonicalEqual(g.field.q, cm.value.u, c.s.curve.u(CommitNote(c.s, v.note)));
    r := Ok(OutputExposed(cv.value, epk.value, cm.value.u));
  }
}
