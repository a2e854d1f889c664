/** The note part of the Spend circuit: value commitment, note commitment, Merkle ascent, conditional
anchor and rho, against their definitions outside the circuit. */
module SpendCircuit {
  import opened Wrappers
  import opened Residues
  import opened Powers
  import opened Groups
  import opened EdwardsCurve
  import opened MontgomeryCurve
  import opened JubjubGroup
  import opened EccGadgets
  import opened Scalars
  import opened PedersenSpec
  import PedersenCircuit
  import opened PedersenWires
  import opened ScalarMultiplication
  import opened ValueBalance
  import opened NoteTree

  const FR_BITS: nat := 252

  /** The precomputed tables of the circuit. */
  datatype Tables = Tables(pedersen: seq<seq<seq<Mont>>>, noteRandomness: seq<seq<Coords>>,
                           nullifierPosition: seq<seq<Coords>>, valueBase: seq<seq<Coords>>,
                           valueRandomness: seq<seq<Coords>>)

  ghost predicate IsFixedTable<P>(c: Curve<P>, generator: P, table: seq<seq<Coords>>) {
    |table| == FIXED_BASE_CHUNKS && IsWindowTable(c, generator, table)
  }

  ghost predicate AreTablesOf<P>(s: Sapling<P>, t: Tables) {
    && AreTables(s.curve, s.pedersen, t.pedersen)
    && IsFixedTable(s.curve, s.noteRandomness, t.noteRandomness)
    && IsFixedTable(s.curve, s.nullifierPosition, t.nullifierPosition)
    && IsFixedTable(s.curve, s.valueBase, t.valueBase)
    && IsFixedTable(s.curve, s.valueRandomness, t.valueRandomness)
  }

  // Multiplication by bits that fit the table, reduced modulo the group order or not.
  method FixedBase<P(!new)>(g: Jubjub, ghost c: Curve<P>, ghost generator: P, table: seq<seq<Coords>>, bits: seq<bool>)
    returns (r: Result<Coords, SynthesisError>)
    requires IsCurve(c) && c.params == g && IsFixedTable(c, generator, table) && HasOrderR(c.group, generator)
    requires 0 < |bits| <= FR_BITS
    ensures r.Ok? && At(c, r.value, Mul(c.group, BitsValue(bits), generator))
    ensures Mul(c.group, BitsValue(bits), generator) == Mul(c.group, Reduce(BitsValue(bits)), generator)
  {
    r := FixedBaseMultiplication(g, c, generator, table, bits);
    assert bits[..|bits|] == bits;
    ReduceCong(BitsValue(bits));
    GeneratorInSubgroup(c.group, generator);
    SameMultiple(c.group, generator, Reduce(BitsValue(bits)), BitsValue(bits));
  }

  lemma ValueOfBits(bits: seq<bool>)
    requires |bits| == 64
    ensures 0 <= BitsValue(bits) < 0x1_0000_0000_0000_0000
  {
    BitsValueBound(bits);
    TwoTo64();
  }

  lemma TwoTo64()
    ensures Pow(2, 32) == 0x1_0000_0000 && Pow(2, 64) == 0x1_0000_0000_0000_0000
  {
    TwoTo32();
    PowAdd(2, 32, 32);
  }

  /** Whatever bits are witnessed, the exposed commitment opens to a 64-bit value and a trapdoor. */
  method ExposeValueCommitment<P(!new)>(g: Jubjub, ghost s: Sapling<P>, t: Tables, value: seq<bool>, rcv: seq<bool>)
    returns (r: Result<Coords, SynthesisError>)
    requires IsSapling(s) && s.curve.params == g && AreTablesOf(s, t)
    requires |value| == 64 && |rcv| == FR_BITS
    ensures 0 <= BitsValue(value) < 0x1_0000_0000_0000_0000
    ensures r.Ok?
    ensures At(s.curve, r.value, Derive(s.ValueBases(), Opening(BitsValue(value), Reduce(BitsValue(rcv)))))
  {
    ValueOfBits(value);
    var v := FixedBase(g, s.curve, s.valueBase, t.valueBase, value);
    var randomness := FixedBase(g, s.curve, s.valueRandomness, t.valueRandomness, rcv);
    EdwardsAddCorrect(s.curve, v.value, Mul(s.curve.group, BitsValue(value), s.valueBase),
                      randomness.value, Mul(s.curve.group, BitsValue(rcv), s.valueRandomness));
    r := EdwardsAdd(g, v.value, randomness.value);
  }

  /** The note commitment wires, for any witnessed trapdoor bits. */
  method CommitNoteCircuit<P(!new)>(g: Jubjub, ghost s: Sapling<P>, t: Tables, contents: seq<bool>, rcm: seq<bool>)
    returns (r: Result<Coords, SynthesisError>)
    requires IsSapling(s) && s.curve.params == g && AreTablesOf(s, t)
    requires |contents| == 576 && |rcm| == FR_BITS
    ensures r.Ok? && At(s.curve, r.value, WindowedPedersenCommit(s, contents, Reduce(BitsValue(rcm))))
  {
    HashFits(s, NoteCommitment.GetBits() + contents);
    var hash := PedersenCircuit.PedersenHash(g, s.curve, s.pedersen, t.pedersen, NoteCommitment, contents);
    var randomness := FixedBase(g, s.curve, s.noteRandomness, t.noteRandomness, rcm);
    EdwardsAddCorrect(s.curve, hash.value.value, HashPoint(s.curve.group, s.pedersen, NoteCommitment.GetBits() + contents),
                      randomness.value, Mul(s.curve.group, BitsValue(rcm), s.noteRandomness));
    r := EdwardsAdd(g, hash.value.value, randomness.value);
  }

  // --- the Merkle path ---

  /** The witness of the path: every sibling with bit i of the position. */
  function PrepareAuthPath(path: MerklePath): (r: seq<(int, bool)>)
    requires |path.siblings| == TREE_DEPTH
    ensures |r| == TREE_DEPTH
  {
    seq(TREE_DEPTH, i requires 0 <= i < TREE_DEPTH => (path.siblings[i], path.IsRight(i)))
  }

  // One level: conditional swap, decomposition into bits, hash.
  method AscendLevel<P(!new)>(g: Jubjub, ghost s: Sapling<P>, t: Tables, cur: int, sibling: int, isRight: bool, depth: nat,
                              ghost path: MerklePath)
    returns (r: Result<int, SynthesisError>)
    requires IsSapling(s) && s.curve.params == g && AreTablesOf(s, t) && depth < TREE_DEPTH
    requires path.Valid(g.field.q) && sibling == path.siblings[depth] && isRight == path.IsRight(depth)
    ensures r.Ok? && Canonical(g.field.q, r.value) == Parent(s, path, depth, Canonical(g.field.q, cur))
  {
    var q := g.field.q;
    CanonicalSmall(q, sibling);
    var ul := if isRight then sibling else cur;
    var ur := if isRight then cur else sibling;
    var preimage := ToBits(Canonical(q, ul), SCALAR_BITS) + ToBits(Canonical(q, ur), SCALAR_BITS);
    ghost var bits := MerkleTree(depth).GetBits() + preimage;
    HashFits(s, bits);
    var hash := PedersenCircuit.PedersenHash(g, s.curve, s.pedersen, t.pedersen, MerkleTree(depth), preimage);
    match hash {
      case Some(Ok(e)) =>
        CanonicalEqual(q, e.u, s.curve.u(HashPoint(s.curve.group, s.pedersen, bits)));
        return Ok(e.u);
      case _ => return Err(AssignmentMissing);
    }
  }

  // The first n position bits of a witnessed path.
  function WitnessedBits(authPath: seq<(int, bool)>, n: nat): (r: seq<bool>)
    requires n <= |authPath|
    ensures |r| == n
  {
    if n == 0 then [] else WitnessedBits(authPath, n - 1) + [authPath[n - 1].1]
  }

  lemma {:induction false} WitnessedPosition(path: MerklePath, n: nat)
    requires |path.siblings| == TREE_DEPTH && n <= TREE_DEPTH
    ensures WitnessedBits(PrepareAuthPath(path), n) == ToBits(path.position, TREE_DEPTH)[..n]
  {
    if n > 0 { WitnessedPosition(path, n - 1); }
  }

  // One step of the ascent, on wires that may hold any representative.
  method AscendStep<P(!new)>(g: Jubjub, ghost s: Sapling<P>, t: Tables, cur: int, witnessed: (int, bool), i: nat,
                             ghost path: MerklePath, ghost leaf: int)
    returns (r: Result<int, SynthesisError>)
    requires IsSapling(s) && s.curve.params == g && AreTablesOf(s, t) && i < TREE_DEPTH
    requires path.Valid(g.field.q) && witnessed == PrepareAuthPath(path)[i] && 0 <= leaf < g.field.q
    requires Canonical(g.field.q, cur) == Ascend(s, path, leaf, i)
    ensures r.Ok? && Canonical(g.field.q, r.value) == Ascend(s, path, leaf, i + 1)
  {
    r := AscendLevel(g, s, t, cur, witnessed.0, witnessed.1, i, path);
  }

  /** The ascent of the circuit ends at the root outside the circuit, and yields the position bits. */
  method AscendPath<P(!new)>(g: Jubjub, ghost s: Sapling<P>, t: Tables, start: int, authPath: seq<(int, bool)>,
                             ghost path: MerklePath)
    returns (r: Result<int, SynthesisError>, positionBits: seq<bool>)
    requires IsSapling(s) && s.curve.params == g && AreTablesOf(s, t)
    requires path.Valid(g.field.q) && authPath == PrepareAuthPath(path)
    ensures r.Ok? && Canonical(g.field.q, r.value) == Root(s, path, Canonical(g.field.q, start))
    ensures positionBits == ToBits(path.position, TREE_DEPTH)
  {
    ghost var leaf := Canonical(g.field.q, start);
    CanonicalEqual(g.field.q, start, start);
    var cur := start;
    positionBits := [];
    for i := 0 to |authPath|
      invariant Canonical(g.field.q, cur) == Ascend(s, path, leaf, i)
      invariant positionBits == WitnessedBits(authPath, i)
    {
      positionBits := positionBits + [authPath[i].1];
      var next := AscendStep(g, s, t, cur, authPath[i], i, path, leaf);
      match next {
        case Err(_) => return next, positionBits;
        case Ok(parent) => cur := parent;
      }
    }
    WitnessedPosition(path, TREE_DEPTH);
    r := Ok(cur);
  }

  /** The bit decomposition is not strict: a wire has a second decomposition when its value plus the
  field order still fits in 255 bits, and never a third. */
  lemma Decompositions(q: int, x: int, bits: seq<bool>)
    requires Pow(2, 254) < q < Pow(2, SCALAR_BITS) && 0 <= x < q && |bits| == SCALAR_BITS
    ensures Cong(q, BitsValue(bits), x) <==> BitsValue(bits) == x || BitsValue(bits) == x + q
  {
    var n := BitsValue(bits);
    BitsValueBound(bits);
    assert Pow(2, SCALAR_BITS) == 2 * Pow(2, 254);
    CongRefl(q, x);
    CongBy(q, x + q, x, 1);
    if Cong(q, n, x) {
      QuotientBelowTwo(q, x, n, Quotient(q, n, x));
    }
  }

  lemma QuotientBelowTwo(q: int, x: int, n: int, k: int)
    requires 0 <= x < q && 0 <= n < 2 * q && n - x == q * k
    ensures n == x || n == x + q
  {
    if k >= 2 { AtLeastMultiple(q, k - 1); MulDifference(q, k, 1); }
    if k <= -1 { AtLeastMultiple(q, -k); Opposite(q, k); }
  }

  // --- the conditional anchor ---

  // The value as a linear combination of its bits, doubling the coefficient at each.
  method ValueNum(bits: seq<bool>) returns (sum: int)
    ensures sum == BitsValue(bits)
  {
    sum := 0;
    var coeff := 1;
    assert bits[..0] == [];
    for i := 0 to |bits|
      invariant coeff == Pow(2, i) && sum == BitsValue(bits[..i])
    {
      BitsValueStep(bits, i);
      sum := sum + (if bits[i] then coeff else 0);
      coeff := coeff + coeff;
    }
    assert bits[..|bits|] == bits;
  }

  // (cur - rt) * value = 0 in the field.
  ghost predicate AnchorConstraint(g: Jubjub, cur: int, rt: int, value: int) {
    g.field.Eq((cur - rt) * value, 0)
  }

  /** A 64-bit value never wraps the field: the constraint binds the root exactly when the value is
  not zero. */
  lemma AnchorConstraintIff(g: Jubjub, cur: int, rt: int, value: U64)
    requires g.field.Valid() && Pow(2, 254) < g.field.q
    ensures AnchorConstraint(g, cur, rt, value) <==> value == 0 || Canonical(g.field.q, cur) == Canonical(g.field.q, rt)
  {
    var q, v: int, d := g.field.q, value, cur - rt;
    CanonicalEqual(q, cur, rt);
    CongDiff(q, cur, rt);
    TwoTo64();
    PowMonotone(2, 64, 254);
    ProductVanishes(g.field, d, v);
  }

  lemma ProductVanishes(f: Field, d: int, v: int)
    requires f.Valid() && 0 <= v < f.q
    ensures Cong(f.q, d * v, 0) <==> v == 0 || Cong(f.q, d, 0)
  {
    if v > 0 {
      f.SmallNonZero(v);
      if Cong(f.q, d * v, 0) { Commutes(d, v); f.ZeroProduct(v, d); }
      if Cong(f.q, d, 0) { ScaledZero(f.q, d, v); }
    } else {
      CongRefl(f.q, 0);
      ZeroFactor(d, v);
    }
  }

  lemma ScaledZero(q: int, d: int, v: int)
    requires Cong(q, d, 0)
    ensures Cong(q, d * v, 0)
  {
    CongScale(q, v, d, 0);
    Commutes(d, v);
  }

  lemma Commutes(d: int, v: int)
    ensures v * d == d * v && v * 0 == 0
  {
  }

  lemma ZeroFactor(d: int, v: int)
    requires v == 0
    ensures d * v == 0
  {
  }

  // --- rho ---

  /** Adding the position in the exponent, from the witnessed position bits. */
  method MixPosition<P(!new)>(g: Jubjub, ghost s: Sapling<P>, t: Tables, cm: Coords, ghost p: P, positionBits: seq<bool>)
    returns (r: Result<Coords, SynthesisError>)
    requires IsSapling(s) && s.curve.params == g && AreTablesOf(s, t) && At(s.curve, cm, p)
    requires |positionBits| == TREE_DEPTH
    ensures r.Ok? && At(s.curve, r.value, s.curve.group.add(p, Mul(s.curve.group, BitsValue(positionBits), s.nullifierPosition)))
  {
    var position := FixedBase(g, s.curve, s.nullifierPosition, t.nullifierPosition, positionBits);
    EdwardsAddCorrect(s.curve, cm, p, position.value, Mul(s.curve.group, BitsValue(positionBits), s.nullifierPosition));
    r := EdwardsAdd(g, cm, position.value);
  }

  // The low bits are congruent to the position only when they are the position.
  lemma LowBits(position: U64)
    ensures BitsValue(ToBits(position, TREE_DEPTH)) == position % 0x1_0000_0000
    ensures Cong(JUBJUB_ORDER, BitsValue(ToBits(position, TREE_DEPTH)), position) <==> position < 0x1_0000_0000
  {
    var low: int, full: int := position % 0x1_0000_0000, position;
    TwoTo64();
    ToBitsValue(position, TREE_DEPTH);
    CongRefl(JUBJUB_ORDER, low);
    if low != full {
      CongDiff(JUBJUB_ORDER, low, full);
      SmallNotCongruent(low - full);
    }
  }

  lemma AddLeftEqual<P(!new)>(g: Group<P>, x: P, y: P, z: P)
    requires IsGroup(g)
    ensures g.add(x, y) == g.add(x, z) <==> y == z
  {
    Comm(g, x, y);
    Comm(g, x, z);
    if g.add(x, y) == g.add(x, z) { CancelRight(g, y, z, x); }
  }

  // The point that the circuit adds up from the commitment and the position bits.
  function CircuitRho<P(!new)>(s: Sapling<P>, cm: P, position: U64): P
    requires IsSapling(s)
  {
    s.curve.group.add(cm, Mul(s.curve.group, BitsValue(ToBits(position, TREE_DEPTH)), s.nullifierPosition))
  }

  /** Thirty-two bits carry the position modulo 2^32: the circuit's rho is the native one exactly for
  positions inside the tree. */
  lemma RhoAgreesIff<P(!new)>(s: Sapling<P>, cm: P, position: U64)
    requires IsSapling(s)
    ensures CircuitRho(s, cm, position) == MixingPedersenHash(s, cm, position) <==> position < 0x1_0000_0000
  {
    var g, j, low := s.curve.group, s.nullifierPosition, BitsValue(ToBits(position, TREE_DEPTH));
    LowBits(position);
    MultiplesEqualIff(g, j, low, position);
    AddLeftEqual(g, cm, Mul(g, low, j), Mul(g, position, j));
  }

  // Position 2^32 gives the rho of position zero.
  lemma PositionWraps<P(!new)>(s: Sapling<P>, cm: P)
    requires IsSapling(s)
    ensures BitsValue(ToBits(0x1_0000_0000, TREE_DEPTH)) == BitsValue(ToBits(0, TREE_DEPTH)) == 0
    ensures MixingPedersenHash(s, cm, 0x1_0000_0000) != MixingPedersenHash(s, cm, 0)
  {
    var j := s.nullifierPosition;
    TwoTo64();
    ToBitsValue(0x1_0000_0000, TREE_DEPTH);
    ToBitsValue(0, TREE_DEPTH);
    RhoAgreesIff(s, cm, 0x1_0000_0000);
    RhoAgreesIff(s, cm, 0);
  }

  // --- the whole note part ---

  /** The wires the note part leaves: value commitment, note commitment, computed root, value and rho. */
  datatype NoteWires = NoteWires(cv: Coords, cm: Coords, root: int, value: int, rho: Coords)

  /** From the witness that the prover prepares for a note and a path, the circuit derives the native
  value commitment, note commitment and root.  Its anchor constraint holds exactly when the note has
  no value or the path leads to the anchor, and rho agrees for positions inside the tree. */
  method SynthesizeNote<P(!new)>(g: Jubjub, ghost s: Sapling<P>, t: Tables, ghost note: Note, ghost path: MerklePath,
                                 value: seq<bool>, gd: seq<bool>, pkd: seq<bool>, rcm: seq<bool>, rcv: seq<bool>,
                                 authPath: seq<(int, bool)>)
    returns (r: Result<NoteWires, SynthesisError>)
    requires IsSapling(s) && s.curve.params == g && AreTablesOf(s, t)
    requires note.Valid() && path.Valid(g.field.q)
    requires value == ToBits(note.value, 64) && gd == note.gd && pkd == note.pkd
    requires rcm == ToBits(note.rcm, FR_BITS) && |rcv| == FR_BITS
    requires authPath == PrepareAuthPath(path)
    ensures r.Ok?
    ensures At(s.curve, r.value.cv, Derive(s.ValueBases(), Opening(note.value, Reduce(BitsValue(rcv)))))
    ensures At(s.curve, r.value.cm, CommitNote(s, note))
    ensures Canonical(g.field.q, r.value.root) == Root(s, path, Cmu(s, note))
    ensures forall anchor: int | 0 <= anchor < g.field.q ::
              AnchorConstraint(g, r.value.root, anchor, r.value.value) <==> note.value == 0 || Root(s, path, Cmu(s, note)) == anchor
    ensures At(s.curve, r.value.rho, CircuitRho(s, CommitNote(s, note), path.position))
    ensures At(s.curve, r.value.rho, MixingPedersenHash(s, CommitNote(s, note), path.position)) <==> path.position < 0x1_0000_0000
  {
    NoteBits(note);
    var cv := ExposeValueCommitment(g, s, t, value, rcv);
    var cm := CommitNoteCircuit(g, s, t, value + gd + pkd, rcm);
    CanonicalEqual(g.field.q, cm.value.u, s.curve.u(CommitNote(s, note)));
    var root, positionBits := AscendPath(g, s, t, cm.value.u, authPath, path);
    var rho := MixPosition(g, s, t, cm.value, CommitNote(s, note), positionBits);
    RhoAt(s, rho.value, CommitNote(s, note), path.position);
    var valueNum := ValueNum(value);
    forall anchor: int | 0 <= anchor < g.field.q
      ensures AnchorConstraint(g, root.value, anchor, valueNum) <==> note.value == 0 || Root(s, path, Cmu(s, note)) == anchor
    {
      AnchorConstraintIff(g, root.value, anchor, note.value);
      CanonicalSmall(g.field.q, anchor);
    }
    r := Ok(NoteWires(cv.value, cm.value, root.value, valueNum, rho.value));
  }

  lemma RhoAt<P(!new)>(s: Sapling<P>, rho: Coords, cm: P, position: U64)
    requires IsSapling(s)
    requires At(s.curve, rho, CircuitRho(s, cm, position))
    ensures At(s.curve, rho, MixingPedersenHash(s, cm, position)) <==> position < 0x1_0000_0000
  {
    RhoAgreesIff(s, cm, position);
    if At(s.curve, rho, MixingPedersenHash(s, cm, position)) {
      AtUnique(s.curve, rho, MixingPedersenHash(s, cm, position), CircuitRho(s, cm, position));
    }
  }

  // Value and trapdoor survive their decomposition into bits.
  lemma NoteBits(note: Note)
    ensures BitsValue(ToBits(note.value, 64)) == note.value
    ensures Reduce(BitsValue(ToBits(note.rcm, FR_BITS))) == note.rcm
  {
    TwoTo64();
    ToBitsValue(note.value, 64);
    ScalarBits(note.rcm);
  }

  lemma ScalarBits(x: Fr)
    ensures Reduce(BitsValue(ToBits(x, FR_BITS))) == x
  {
    ToBitsValue(x, FR_BITS);
    TwoTo252();
    CanonicalSmall(Pow(2, FR_BITS), x);
    CanonicalSmall(JUBJUB_ORDER, x);
  }

  lemma TwoTo252()
    ensures Pow(2, FR_BITS) > JUBJUB_ORDER
  {
    assert Pow(2, 4) == 2 * Pow(2, 3) == 4 * Pow(2, 2) == 8 * Pow(2, 1) == 16 * Pow(2, 0) == 16;
    PowPow(2, 4, 63);
    SixteenTo63();
  }
}
