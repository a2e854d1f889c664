/** Soundness of the note part of the Spend circuit: whatever values a prover puts on the wires, the
enforced equations leave a note, its commitments, a path that may use either decomposition of a node,
and rho. */
module NoteSoundness {
  import opened Residues
  import opened Powers
  import opened Groups
  import opened EdwardsCurve
  import opened MontgomeryCurve
  import opened JubjubGroup
  import opened EccGadgets
  import opened Scalars
  import opened PedersenSpec
  import opened PedersenWires
  import opened ScalarMultiplication
  import opened ScalarWires
  import opened ValueBalance
  import opened NoteTree
  import opened SpendCircuit

  // --- the gadgets, each with its output wires ---

  /** A fixed-base multiplication: the witnessed bits, the looked-up terms and their additions. */
  datatype FixedBaseWires = FixedBaseWires(bits: seq<bool>, terms: seq<Coords>, joins: seq<JoinWires>)

  ghost predicate FixedBaseEnforced(g: Jubjub, table: seq<seq<Coords>>, w: FixedBaseWires, len: nat) {
    && 0 < |w.bits| == len <= FR_BITS
    && |w.terms| == Chunks(len)
    && FixedBaseConstraints(g, table, w.bits, w.terms, w.joins)
  }

  ghost function FixedBaseOutput(w: FixedBaseWires): Coords
    requires |w.terms| == |w.joins| > 0
  {
    SumWire(w.terms, w.joins, |w.terms| - 1)
  }

  lemma FixedBaseOutputSound<P(!new)>(c: Curve<P>, generator: P, table: seq<seq<Coords>>, w: FixedBaseWires, len: nat)
    requires IsCurve(c) && IsFixedTable(c, generator, table) && HasOrderR(c.group, generator)
    requires FixedBaseEnforced(c.params, table, w, len)
    ensures At(c, FixedBaseOutput(w), Mul(c.group, BitsValue(w.bits), generator))
    ensures Mul(c.group, BitsValue(w.bits), generator) == Mul(c.group, Reduce(BitsValue(w.bits)), generator)
  {
    var last := |w.terms| - 1;
    FixedBaseSound(c, generator, table, w.bits, w.terms, w.joins, last);
    assert Min(3 * last + 3, |w.bits|) == |w.bits| && w.bits[..|w.bits|] == w.bits;
    ReduceCong(BitsValue(w.bits));
    GeneratorInSubgroup(c.group, generator);
    SameMultiple(c.group, generator, Reduce(BitsValue(w.bits)), BitsValue(w.bits));
  }

  ghost predicate Joined(g: Jubjub, e1: Coords, e2: Coords, j: JoinWires) {
    g.AddConstraints(e1, e2, j.bigU, j.a, j.b, j.cross, j.sum)
  }

  lemma JoinedSound<P(!new)>(c: Curve<P>, e1: Coords, p: P, e2: Coords, r: P, j: JoinWires)
    requires IsCurve(c) && At(c, e1, p) && At(c, e2, r) && Joined(c.params, e1, e2, j)
    ensures At(c, j.sum, c.group.add(p, r))
  {
    EdwardsAddSound(c, e1, p, e2, r, j.bigU, j.a, j.b, j.cross, j.sum);
  }

  /** A Pedersen hash over given bits. */
  datatype HashWires = HashWires(segments: seq<SegmentWires>, joins: seq<JoinWires>, output: Coords)

  ghost predicate HashEnforced(g: Jubjub, tables: seq<seq<seq<Mont>>>, bits: seq<bool>, w: HashWires) {
    bits != [] && HashConstraints(g, tables, bits, w.segments, w.joins, w.output)
  }

  // --- one level of the path ---

  /** The witnessed sibling and side, the swapped operands, their bits, and the hash. */
  datatype LevelWires = LevelWires(sibling: int, isRight: bool, ul: int, ur: int, left: seq<bool>, right: seq<bool>, hash: HashWires)

  // The equations of a conditional swap.
  ghost predicate ReverseConstraints(g: Jubjub, a: int, b: int, condition: bool, c: int, d: int) {
    g.field.Eq((a - b) * Bit(condition), a - c) && g.field.Eq((b - a) * Bit(condition), b - d)
  }

  ghost predicate LevelConstraints(g: Jubjub, t: Tables, cur: int, level: LevelWires, depth: nat) {
    && depth < TREE_DEPTH
    && ReverseConstraints(g, cur, level.sibling, level.isRight, level.ul, level.ur)
    && |level.left| == |level.right| == SCALAR_BITS
    && g.field.Eq(BitsValue(level.left), level.ul) && g.field.Eq(BitsValue(level.right), level.ur)
    && HashEnforced(g, t.pedersen, MerkleTree(depth).GetBits() + (level.left + level.right), level.hash)
  }

  lemma ReverseSound(q: int, a: int, b: int, condition: bool, c: int)
    requires Cong(q, (a - b) * Bit(condition), a - c)
    ensures Cong(q, c, if condition then b else a)
  {
    if condition {
      assert (a - b) * Bit(condition) == a - b;
      CongRefl(q, a);
      CongSub(q, a, a, a - b, a - c);
      CongSym(q, b, c);
    } else {
      assert (a - b) * Bit(condition) == 0;
      CongSym(q, 0, a - c);
      CongDiff(q, a, c);
      CongSym(q, a, c);
    }
  }

  // Which of the two decompositions of a residue some bits are.
  function Lifted(q: int, x: int, upper: bool): int
    requires q > 0
  {
    Canonical(q, x) + if upper then q else 0
  }

  lemma DecompositionSound(q: int, x: int, u: int, bits: seq<bool>)
    requires Pow(2, 254) < q < Pow(2, SCALAR_BITS) && |bits| == SCALAR_BITS
    requires Cong(q, u, x) && Cong(q, BitsValue(bits), u)
    ensures BitsValue(bits) == Lifted(q, x, BitsValue(bits) >= q)
    ensures bits == ToBits(Lifted(q, x, BitsValue(bits) >= q), SCALAR_BITS)
  {
    CanonicalEqual(q, x, x);
    CongSym(q, Canonical(q, x), x);
    CongTrans(q, BitsValue(bits), u, x);
    CongTrans(q, BitsValue(bits), x, Canonical(q, x));
    Decompositions(q, Canonical(q, x), bits);
    ToBitsOfBits(bits);
  }

  ghost function LevelHash<P(!new)>(s: Sapling<P>, depth: nat, node: int, sibling: int, isRight: bool, upper: (bool, bool)): int
    requires IsSapling(s) && depth < TREE_DEPTH
  {
    var q := s.curve.params.field.q;
    MerkleHash(s, depth, Lifted(q, if isRight then sibling else node, upper.0), Lifted(q, if isRight then node else sibling, upper.1))
  }

  function UpperOf(q: int, level: LevelWires): (bool, bool) {
    (BitsValue(level.left) >= q, BitsValue(level.right) >= q)
  }

  // A satisfied level hashes its node and its sibling, on their sides, each by one of its decompositions.
  lemma LevelSound<P(!new)>(s: Sapling<P>, t: Tables, cur: int, level: LevelWires, depth: nat)
    requires IsSapling(s) && AreTablesOf(s, t) && LevelConstraints(s.curve.params, t, cur, level, depth)
    ensures Canonical(s.curve.params.field.q, level.hash.output.u)
            == LevelHash(s, depth, cur, level.sibling, level.isRight, UpperOf(s.curve.params.field.q, level))
  {
    var q := s.curve.params.field.q;
    var bits := MerkleTree(depth).GetBits() + (level.left + level.right);
    ReverseSound(q, cur, level.sibling, level.isRight, level.ul);
    ReverseSound(q, level.sibling, cur, level.isRight, level.ur);
    DecompositionSound(q, if level.isRight then level.sibling else cur, level.ul, level.left);
    DecompositionSound(q, if level.isRight then cur else level.sibling, level.ur, level.right);
    HashSound(s.curve, s.pedersen, t.pedersen, bits, level.hash.segments, level.hash.joins, level.hash.output);
    CanonicalEqual(q, level.hash.output.u, s.curve.u(HashPoint(s.curve.group, s.pedersen, bits)));
  }

  // --- the whole path ---

  function NodeWire(start: int, levels: seq<LevelWires>, i: nat): int
    requires i <= |levels|
  {
    if i == 0 then start else levels[i - 1].hash.output.u
  }

  ghost predicate PathEnforced(g: Jubjub, t: Tables, start: int, levels: seq<LevelWires>) {
    |levels| == TREE_DEPTH && forall i: nat | i < |levels| :: LevelConstraints(g, t, NodeWire(start, levels, i), levels[i], i)
  }

  function Sides(levels: seq<LevelWires>): (bits: seq<bool>)
    ensures |bits| == |levels|
  {
    seq(|levels|, i requires 0 <= i < |levels| => levels[i].isRight)
  }

  // The path that satisfying wires witness.
  function WitnessedPath(q: int, levels: seq<LevelWires>): (path: MerklePath)
    requires q > 0 && |levels| == TREE_DEPTH
    ensures |path.siblings| == |levels| && path.position == BitsValue(Sides(levels)) < 0x1_0000_0000
    ensures forall i: nat | i < |levels| :: path.siblings[i] == Canonical(q, levels[i].sibling) && path.IsRight(i) == levels[i].isRight
  {
    PositionBits(Sides(levels));
    MerklePath(seq(|levels|, i requires 0 <= i < |levels| => Canonical(q, levels[i].sibling)), BitsValue(Sides(levels)))
  }

  lemma PositionBits(bits: seq<bool>)
    requires |bits| == TREE_DEPTH
    ensures BitsValue(bits) < 0x1_0000_0000
    ensures forall i: nat | i < |bits| :: BitOf(BitsValue(bits), i) == bits[i]
  {
    BitsValueBound(bits);
    TwoTo32();
    ToBitsOfBits(bits);
    forall i: nat | i < |bits| ensures BitOf(BitsValue(bits), i) == bits[i] {
      assert ToBits(BitsValue(bits), |bits|)[i] == BitOf(BitsValue(bits), i);
    }
  }

  lemma WitnessedPathValid(q: int, levels: seq<LevelWires>)
    requires q > 0 && |levels| == TREE_DEPTH
    ensures WitnessedPath(q, levels).Valid(q)
  {
  }

  function Uppers(q: int, levels: seq<LevelWires>): (r: seq<(bool, bool)>)
    ensures |r| == |levels|
  {
    seq(|levels|, i requires 0 <= i < |levels| => UpperOf(q, levels[i]))
  }

  /** The ascent of the circuit: at every level each operand enters by one of its decompositions. */
  ghost function AscendWith<P(!new)>(s: Sapling<P>, path: MerklePath, leaf: int, uppers: seq<(bool, bool)>, n: nat): int
    requires IsSapling(s) && n <= TREE_DEPTH == |path.siblings| == |uppers|
  {
    if n == 0 then leaf
    else LevelHash(s, n - 1, AscendWith(s, path, leaf, uppers, n - 1), path.siblings[n - 1], path.IsRight(n - 1), uppers[n - 1])
  }

  lemma LiftedSame(q: int, x: int, upper: bool)
    requires q > 0
    ensures Lifted(q, Canonical(q, x), upper) == Lifted(q, x, upper)
  {
    CanonicalEqual(q, Canonical(q, x), x);
  }

  // Only the residues of node and sibling matter.
  lemma LevelHashSame<P(!new)>(s: Sapling<P>, depth: nat, node: int, n': int, sibling: int, s': int, isRight: bool, upper: (bool, bool))
    requires IsSapling(s) && depth < TREE_DEPTH
    requires n' == Canonical(s.curve.params.field.q, node) && s' == Canonical(s.curve.params.field.q, sibling)
    ensures LevelHash(s, depth, n', s', isRight, upper) == LevelHash(s, depth, node, sibling, isRight, upper)
  {
    var q := s.curve.params.field.q;
    LiftedSame(q, if isRight then sibling else node, upper.0);
    LiftedSame(q, if isRight then node else sibling, upper.1);
    assert Lifted(q, if isRight then s' else n', upper.0) == Lifted(q, if isRight then sibling else node, upper.0);
    assert Lifted(q, if isRight then n' else s', upper.1) == Lifted(q, if isRight then node else sibling, upper.1);
  }

  lemma {:induction false} AscendSound<P(!new)>(s: Sapling<P>, t: Tables, start: int, levels: seq<LevelWires>, n: nat)
    requires IsSapling(s) && AreTablesOf(s, t) && PathEnforced(s.curve.params, t, start, levels) && n <= TREE_DEPTH
    ensures
      var q := s.curve.params.field.q;
      Canonical(q, NodeWire(start, levels, n)) == AscendWith(s, WitnessedPath(q, levels), Canonical(q, start), Uppers(q, levels), n)
  {
    var q := s.curve.params.field.q;
    if n > 0 {
      var level := levels[n - 1];
      AscendSound(s, t, start, levels, n - 1);
      LevelSound(s, t, NodeWire(start, levels, n - 1), level, n - 1);
      LevelHashSame(s, n - 1, NodeWire(start, levels, n - 1), Canonical(q, NodeWire(start, levels, n - 1)),
                    level.sibling, Canonical(q, level.sibling), level.isRight, UpperOf(q, level));
    }
  }

  ghost predicate AllLower(uppers: seq<(bool, bool)>) {
    forall i: nat | i < |uppers| :: uppers[i] == (false, false)
  }

  lemma LowerIsParent<P(!new)>(s: Sapling<P>, path: MerklePath, i: nat, node: int)
    requires IsSapling(s) && path.Valid(s.curve.params.field.q) && 0 <= node < s.curve.params.field.q && i < TREE_DEPTH
    ensures LevelHash(s, i, node, path.siblings[i], path.IsRight(i), (false, false)) == Parent(s, path, i, node)
  {
    CanonicalSmall(s.curve.params.field.q, node);
    CanonicalSmall(s.curve.params.field.q, path.siblings[i]);
  }

  /** With canonical bits throughout, that is the ascent outside the circuit. */
  lemma {:induction false} LowerIsAscend<P(!new)>(s: Sapling<P>, path: MerklePath, leaf: int, uppers: seq<(bool, bool)>, n: nat)
    requires IsSapling(s) && path.Valid(s.curve.params.field.q) && 0 <= leaf < s.curve.params.field.q
    requires n <= TREE_DEPTH == |uppers| && AllLower(uppers)
    ensures AscendWith(s, path, leaf, uppers, n) == Ascend(s, path, leaf, n)
  {
    if n > 0 {
      LowerIsAscend(s, path, leaf, uppers, n - 1);
      LowerIsParent(s, path, n - 1, Ascend(s, path, leaf, n - 1));
    }
  }

  // --- the note part ---

  /** The commitments to a value and to a note, with the representations of the note's address. */
  datatype CommitmentWires = CommitmentWires(value: FixedBaseWires, rcv: FixedBaseWires, cv: JoinWires, gd: seq<bool>, pkd: seq<bool>,
                                             contents: HashWires, rcm: FixedBaseWires, cm: JoinWires)

  /** All wires of the note part of a spend, with the exposed anchor. */
  datatype PartWires = PartWires(c: CommitmentWires, levels: seq<LevelWires>, anchor: int, position: FixedBaseWires, rho: JoinWires)

  ghost predicate CvEnforced(g: Jubjub, t: Tables, w: CommitmentWires) {
    && FixedBaseEnforced(g, t.valueBase, w.value, 64)
    && FixedBaseEnforced(g, t.valueRandomness, w.rcv, FR_BITS)
    && Joined(g, FixedBaseOutput(w.value), FixedBaseOutput(w.rcv), w.cv)
  }

  ghost predicate CmEnforced(g: Jubjub, t: Tables, w: CommitmentWires) {
    && |w.gd| == 256 && |w.pkd| == 256
    && HashEnforced(g, t.pedersen, NoteCommitment.GetBits() + (w.value.bits + w.gd + w.pkd), w.contents)
    && FixedBaseEnforced(g, t.noteRandomness, w.rcm, FR_BITS)
    && Joined(g, w.contents.output, FixedBaseOutput(w.rcm), w.cm)
  }

  ghost predicate RhoEnforced(g: Jubjub, t: Tables, w: PartWires) {
    && w.position.bits == Sides(w.levels)
    && FixedBaseEnforced(g, t.nullifierPosition, w.position, TREE_DEPTH)
    && Joined(g, w.c.cm.sum, FixedBaseOutput(w.position), w.rho)
  }

  /** Everything that the note part enforces. */
  ghost predicate PartEnforced(g: Jubjub, t: Tables, w: PartWires) {
    && CvEnforced(g, t, w.c)
    && CmEnforced(g, t, w.c)
    && PathEnforced(g, t, w.c.cm.sum.u, w.levels)
    && AnchorConstraint(g, NodeWire(w.c.cm.sum.u, w.levels, |w.levels|), w.anchor, BitsValue(w.c.value.bits))
    && RhoEnforced(g, t, w)
  }

  // The note that satisfying wires witness.
  function WitnessedNote(w: CommitmentWires): (note: Note)
    requires |w.value.bits| == 64 && |w.gd| == 256 && |w.pkd| == 256
    ensures note.Valid() && note.value == BitsValue(w.value.bits) && note.Contents() == w.value.bits + w.gd + w.pkd
  {
    ValueOfBits(w.value.bits);
    ToBitsOfBits(w.value.bits);
    Note(w.gd, w.pkd, BitsValue(w.value.bits), Reduce(BitsValue(w.rcm.bits)))
  }

  lemma CvSound<P(!new)>(s: Sapling<P>, t: Tables, w: CommitmentWires)
    requires IsSapling(s) && AreTablesOf(s, t) && CvEnforced(s.curve.params, t, w)
    ensures 0 <= BitsValue(w.value.bits) < 0x1_0000_0000_0000_0000
    ensures At(s.curve, w.cv.sum, Derive(s.ValueBases(), Opening(BitsValue(w.value.bits), Reduce(BitsValue(w.rcv.bits)))))
  {
    var g := s.curve.group;
    ValueOfBits(w.value.bits);
    FixedBaseOutputSound(s.curve, s.valueBase, t.valueBase, w.value, 64);
    FixedBaseOutputSound(s.curve, s.valueRandomness, t.valueRandomness, w.rcv, FR_BITS);
    JoinedSound(s.curve, FixedBaseOutput(w.value), Mul(g, BitsValue(w.value.bits), s.valueBase),
                FixedBaseOutput(w.rcv), Mul(g, Reduce(BitsValue(w.rcv.bits)), s.valueRandomness), w.cv);
  }

  lemma CmSound<P(!new)>(s: Sapling<P>, t: Tables, w: CommitmentWires)
    requires IsSapling(s) && AreTablesOf(s, t) && |w.value.bits| == 64 && CmEnforced(s.curve.params, t, w)
    ensures At(s.curve, w.cm.sum, CommitNote(s, WitnessedNote(w)))
    ensures Canonical(s.curve.params.field.q, w.cm.sum.u) == Cmu(s, WitnessedNote(w))
  {
    var g, bits := s.curve.group, NoteCommitment.GetBits() + (w.value.bits + w.gd + w.pkd);
    HashSound(s.curve, s.pedersen, t.pedersen, bits, w.contents.segments, w.contents.joins, w.contents.output);
    FixedBaseOutputSound(s.curve, s.noteRandomness, t.noteRandomness, w.rcm, FR_BITS);
    JoinedSound(s.curve, w.contents.output, HashPoint(g, s.pedersen, bits),
                FixedBaseOutput(w.rcm), Mul(g, Reduce(BitsValue(w.rcm.bits)), s.noteRandomness), w.cm);
    CanonicalEqual(s.curve.params.field.q, w.cm.sum.u, s.curve.u(CommitNote(s, WitnessedNote(w))));
  }

  lemma RhoSound<P(!new)>(s: Sapling<P>, t: Tables, w: PartWires, cm: P)
    requires IsSapling(s) && AreTablesOf(s, t) && |w.levels| == TREE_DEPTH && RhoEnforced(s.curve.params, t, w)
    requires At(s.curve, w.c.cm.sum, cm)
    ensures At(s.curve, w.rho.sum, MixingPedersenHash(s, cm, WitnessedPath(s.curve.params.field.q, w.levels).position))
  {
    FixedBaseOutputSound(s.curve, s.nullifierPosition, t.nullifierPosition, w.position, TREE_DEPTH);
    JoinedSound(s.curve, w.c.cm.sum, cm, FixedBaseOutput(w.position),
                Mul(s.curve.group, BitsValue(w.position.bits), s.nullifierPosition), w.rho);
  }

  /** Any wires that satisfy the note part witness a note and a path: cv commits to the value of that
  note, the ascent from its commitment ends at the anchor unless the value is zero, and rho is that of
  the note at the position of the path. */
  lemma NotePartSound<P(!new)>(s: Sapling<P>, t: Tables, w: PartWires)
    requires IsSapling(s) && AreTablesOf(s, t) && PartEnforced(s.curve.params, t, w)
    ensures
      var q := s.curve.params.field.q;
      var note, path := WitnessedNote(w.c), WitnessedPath(q, w.levels);
      && At(s.curve, w.c.cv.sum, Derive(s.ValueBases(), Opening(note.value, Reduce(BitsValue(w.c.rcv.bits)))))
      && At(s.curve, w.c.cm.sum, CommitNote(s, note))
      && (note.value == 0 || AscendWith(s, path, Cmu(s, note), Uppers(q, w.levels), TREE_DEPTH) == Canonical(q, w.anchor))
      && At(s.curve, w.rho.sum, MixingPedersenHash(s, CommitNote(s, note), path.position))
  {
    var note := WitnessedNote(w.c);
    CvSound(s, t, w.c);
    CmSound(s, t, w.c);
    AscendSound(s, t, w.c.cm.sum.u, w.levels, |w.levels|);
    AnchorConstraintIff(s.curve.params, NodeWire(w.c.cm.sum.u, w.levels, |w.levels|), w.anchor, note.value);
    RhoSound(s, t, w, CommitNote(s, note));
  }

  /** If no level uses an upper decomposition, the path is one from the note commitment to the anchor. */
  lemma CanonicalPartSound<P(!new)>(s: Sapling<P>, t: Tables, w: PartWires)
    requires IsSapling(s) && AreTablesOf(s, t) && PartEnforced(s.curve.params, t, w)
    requires AllLower(Uppers(s.curve.params.field.q, w.levels))
    ensures
      var q := s.curve.params.field.q;
      var note, path := WitnessedNote(w.c), WitnessedPath(q, w.levels);
      path.Valid(q) && (note.value == 0 || Root(s, path, Cmu(s, note)) == Canonical(q, w.anchor))
  {
    var q := s.curve.params.field.q;
    WitnessedPathValid(q, w.levels);
    NotePartSound(s, t, w);
    LowerIsAscend(s, WitnessedPath(q, w.levels), Cmu(s, WitnessedNote(w.c)), Uppers(q, w.levels), |w.levels|);
  }
}
