/** Soundness of the Spend and the Output circuit: any wires that satisfy all equations, the BLAKE2s
gadgets taken as their functions, witness the Spend or the Output statement (sections 4.18.2 and 4.18.3
of the Zcash Protocol Specification) for the points and values that the circuit exposes. */
module CircuitSoundness {
  import opened Residues
  import opened Powers
  import opened Bytes
  import opened Groups
  import opened EdwardsCurve
  import opened JubjubGroup
  import opened Scalars
  import opened PedersenSpec
  import opened PedersenWires
  import opened ScalarWires
  import opened ValueBalance
  import opened NoteTree
  import opened SpendCircuit
  import opened NoteSoundness
  import opened PointWires

  // The capacity of the scalar field of Jubjub: the hash for ivk loses its five most significant bits.
  const IVK_BITS: nat := 251

  /** What the circuits use beside the note generators: two key generators and two hashes of bits. */
  datatype Setting<!P> = Setting(s: Sapling<P>, spendAuth: P, proofGeneration: P, ivkHash: seq<bool> -> seq<bool>,
                                 nfHash: seq<bool> -> seq<bool>) {
    function Repr(p: P): seq<bool>
      requires s.curve.params.field.q > 0
    {
      ReprBits(s.curve, p)
    }
  }

  ghost predicate HashesTo256(hash: seq<bool> -> seq<bool>) {
    forall bits: seq<bool> :: |hash(bits)| == 256
  }

  function BitsOfBytes(bytes: seq<byte>): seq<bool> {
    seq(8 * |bytes|, i requires 0 <= i < 8 * |bytes| => BitOf(bytes[i / 8], i % 8))
  }

  // The nullifier hash takes the representations of its arguments.
  ghost predicate NullifierHashAt<P>(c: Setting<P>, nk: P, rho: P)
    requires c.s.curve.params.field.q > 0
  {
    BitsOfBytes(c.s.prfNf(nk, rho)) == c.nfHash(c.Repr(nk) + c.Repr(rho))
  }

  ghost predicate IsSetting<P(!new)>(c: Setting<P>) {
    && IsSapling(c.s)
    && HasAllPoints(c.s.curve)
    && HasOrderR(c.s.curve.group, c.spendAuth)
    && HasOrderR(c.s.curve.group, c.proofGeneration)
    && HashesTo256(c.ivkHash) && HashesTo256(c.nfHash)
    && forall nk: P, rho: P :: NullifierHashAt(c, nk, rho)
  }

  datatype KeyTables = KeyTables(spendAuth: seq<seq<Coords>>, proofGeneration: seq<seq<Coords>>)

  ghost predicate AreKeyTables<P>(c: Setting<P>, t: KeyTables) {
    && IsFixedTable(c.s.curve, c.spendAuth, t.spendAuth)
    && IsFixedTable(c.s.curve, c.proofGeneration, t.proofGeneration)
  }

  // A number with its byte 31 masked by 7.
  function MaskLastByte(n: nat): nat {
    PowPositive(256, 31);
    n % (8 * Pow(256, 31))
  }

  // Masking the last of 32 bytes leaves the value of the first 251 bits.
  lemma IvkTruncates(bits: seq<bool>)
    requires |bits| == 256
    ensures MaskLastByte(BitsValue(bits)) == BitsValue(bits[..IVK_BITS]) < JUBJUB_ORDER
  {
    var n := BitsValue(bits);
    ToBitsOfBits(bits);
    ToBitsValue(n, IVK_BITS);
    assert bits[..IVK_BITS] == ToBits(n, IVK_BITS);
    BitsValueBound(bits[..IVK_BITS]);
    TwoTo251();
  }

  lemma TwoTo251()
    ensures Pow(2, IVK_BITS) == 8 * Pow(256, 31) < JUBJUB_ORDER
  {
    assert Pow(2, 8) == 2 * Pow(2, 7) == 4 * Pow(2, 6) == 8 * Pow(2, 5) == 16 * Pow(2, 4) == 256;
    PowPow(2, 8, 31);
    PowAdd(2, 3, 248);
    assert Pow(2, 4) == 2 * Pow(2, 3) == 4 * Pow(2, 2) == 8 * Pow(2, 1) == 16 * Pow(2, 0) == 16;
    PowPow(2, 4, 63);
    SixteenTo63();
    assert Pow(2, 252) == 2 * Pow(2, 251);
  }

  // The bits of ivk that the circuit multiplies by.
  function IvkBits<P(!new)>(c: Setting<P>, ak: P, nk: P): (bits: seq<bool>)
    requires IsSetting(c)
    ensures |bits| == IVK_BITS
  {
    c.ivkHash(c.Repr(ak) + c.Repr(nk))[..IVK_BITS]
  }

  // The incoming viewing key, outside the circuit: the hash with the last byte masked by 7.
  function Ivk<P(!new)>(c: Setting<P>, ak: P, nk: P): (ivk: Fr)
    requires IsSetting(c)
    ensures ivk == BitsValue(IvkBits(c, ak, nk))
  {
    var hash := c.ivkHash(c.Repr(ak) + c.Repr(nk));
    IvkTruncates(hash);
    MaskLastByte(BitsValue(hash))
  }

  // --- the exposed nullifier ---

  // The capacity of the field of the circuit.
  const PACKED_BITS: nat := 254

  // A nullifier is exposed as two field elements, the second of two bits.
  function Packed(bits: seq<bool>): (int, int)
    requires |bits| == 256
  {
    (BitsValue(bits[..PACKED_BITS]), BitsValue(bits[PACKED_BITS..]))
  }

  lemma SmallBitsEqual(q: int, s: seq<bool>, t: seq<bool>)
    requires |s| == |t| <= PACKED_BITS && Pow(2, PACKED_BITS) < q && Cong(q, BitsValue(s), BitsValue(t))
    ensures s == t
  {
    BitsValueBound(s);
    BitsValueBound(t);
    PowMonotone(2, |s|, PACKED_BITS);
    CanonicalEqual(q, BitsValue(s), BitsValue(t));
    CanonicalSmall(q, BitsValue(s));
    CanonicalSmall(q, BitsValue(t));
    BitsInjective(s, t);
  }

  // Two nullifiers with the same exposed field elements are equal.
  lemma PackedInjective(q: int, n: seq<bool>, m: seq<bool>)
    requires |n| == |m| == 256 && Pow(2, PACKED_BITS) < q
    requires Cong(q, Packed(n).0, Packed(m).0) && Cong(q, Packed(n).1, Packed(m).1)
    ensures n == m
  {
    SmallBitsEqual(q, n[..PACKED_BITS], m[..PACKED_BITS]);
    SmallBitsEqual(q, n[PACKED_BITS..], m[PACKED_BITS..]);
    assert n == n[..PACKED_BITS] + n[PACKED_BITS..] && m == m[..PACKED_BITS] + m[PACKED_BITS..];
  }

  // Wires equal to the two elements have them as representatives.
  lemma PackedCanonical(q: int, bits: seq<bool>, x: int, y: int)
    requires |bits| == 256 && Pow(2, PACKED_BITS) < q
    requires Cong(q, x, Packed(bits).0) && Cong(q, y, Packed(bits).1)
    ensures (Canonical(q, x), Canonical(q, y)) == Packed(bits)
  {
    BitsValueBound(bits[..PACKED_BITS]);
    BitsValueBound(bits[PACKED_BITS..]);
    PowMonotone(2, 2, PACKED_BITS);
    CanonicalEqual(q, x, Packed(bits).0);
    CanonicalEqual(q, y, Packed(bits).1);
    CanonicalSmall(q, Packed(bits).0);
    CanonicalSmall(q, Packed(bits).1);
  }

  lemma ByteBits(a: byte, b: byte)
    requires forall j: nat | j < 8 :: BitOf(a, j) == BitOf(b, j)
    ensures a == b
  {
    var x: nat, y: nat := a, b;
    assert ToBits(x, 8) == ToBits(y, 8);
    ToBitsValue(x, 8);
    ToBitsValue(y, 8);
    assert Pow(2, 4) == 2 * Pow(2, 3) == 4 * Pow(2, 2) == 8 * Pow(2, 1) == 16 * Pow(2, 0) == 16;
    PowAdd(2, 4, 4);
  }

  // Byte strings are determined by their bits.
  lemma BytesInjective(a: seq<byte>, b: seq<byte>)
    requires BitsOfBytes(a) == BitsOfBytes(b)
    ensures a == b
  {
    assert |BitsOfBytes(a)| == |BitsOfBytes(b)|;
    forall k: nat | k < |a| ensures a[k] == b[k] {
      forall j: nat | j < 8 ensures BitOf(a[k], j) == BitOf(b[k], j) {
        assert (8 * k + j) / 8 == k && (8 * k + j) % 8 == j;
        assert BitsOfBytes(a)[8 * k + j] == BitsOfBytes(b)[8 * k + j];
      }
      ByteBits(a[k], b[k]);
    }
  }

  // --- the Spend statement ---

  /** What a spend proof is about. */
  datatype SpendInput<P> = SpendInput(rk: P, cv: P, anchor: int, nullifier: (int, int))

  datatype SpendWitness<P> = SpendWitness(ak: P, ar: Fr, nsk: Fr, gd: P, note: Note, rcv: Fr, path: MerklePath, uppers: seq<(bool, bool)>)

  ghost function NkOf<P>(c: Setting<P>, w: SpendWitness<P>): P {
    Mul(c.s.curve.group, w.nsk, c.proofGeneration)
  }

  // The bits of the native nullifier.
  ghost function NullifierBits<P(!new)>(c: Setting<P>, nk: P, rho: P): (bits: seq<bool>)
    requires IsSetting(c)
    ensures |bits| == 256 && bits == c.nfHash(c.Repr(nk) + c.Repr(rho))
  {
    assert NullifierHashAt(c, nk, rho);
    BitsOfBytes(c.s.prfNf(nk, rho))
  }

  ghost function RhoOf<P(!new)>(c: Setting<P>, w: SpendWitness<P>): P
    requires IsSetting(c) && w.note.Valid()
  {
    MixingPedersenHash(c.s, CommitNote(c.s, w.note), w.path.position)
  }

  // The key, the note's address and the randomized key belong together.
  ghost predicate AuthorityHolds<P(!new)>(c: Setting<P>, rk: P, w: SpendWitness<P>)
    requires IsSetting(c)
  {
    var g := c.s.curve.group;
    && Mul(g, 8, w.ak) != g.zero && Mul(g, 8, w.gd) != g.zero
    && rk == g.add(w.ak, Mul(g, w.ar, c.spendAuth))
    && w.note.gd == c.Repr(w.gd)
    && w.note.pkd == c.Repr(Mul(g, Ivk(c, w.ak, NkOf(c, w)), w.gd))
  }

  ghost predicate SpendHolds<P(!new)>(c: Setting<P>, x: SpendInput<P>, w: SpendWitness<P>)
    requires IsSetting(c)
  {
    && AuthorityHolds(c, x.rk, w)
    && w.note.Valid() && |w.path.siblings| == |w.uppers| == TREE_DEPTH
    && x.cv == Derive(c.s.ValueBases(), Opening(w.note.value, w.rcv))
    && (w.note.value == 0 || AscendWith(c.s, w.path, Cmu(c.s, w.note), w.uppers, TREE_DEPTH) == x.anchor)
    && x.nullifier == Packed(NullifierBits(c, NkOf(c, w), RhoOf(c, w)))
  }

  // The exposed nullifier is that of the note: equal inputs come from equal nullifiers.
  lemma InputFixesNullifier<P(!new)>(c: Setting<P>, x1: SpendInput<P>, w1: SpendWitness<P>, x2: SpendInput<P>, w2: SpendWitness<P>)
    requires IsSetting(c) && SpendHolds(c, x1, w1) && SpendHolds(c, x2, w2)
    ensures x1.nullifier == x2.nullifier
            <==> Nullifier(c.s, w1.note, NkOf(c, w1), w1.path.position) == Nullifier(c.s, w2.note, NkOf(c, w2), w2.path.position)
  {
    var q, n, m := c.s.curve.params.field.q, NullifierBits(c, NkOf(c, w1), RhoOf(c, w1)), NullifierBits(c, NkOf(c, w2), RhoOf(c, w2));
    if x1.nullifier == x2.nullifier {
      CongRefl(q, Packed(n).0);
      CongRefl(q, Packed(n).1);
      PackedInjective(q, n, m);
      BytesInjective(c.s.prfNf(NkOf(c, w1), RhoOf(c, w1)), c.s.prfNf(NkOf(c, w2), RhoOf(c, w2)));
    }
  }

  // --- the wires ---

  /** Multiplication of a witnessed point by bits. */
  datatype MulWires = MulWires(doubles: seq<DoubleWires>, selected: seq<Coords>, joins: seq<JoinWires>) {
    ghost function Output(): Coords
      requires |selected| == |joins| > 0
    {
      SumWire(selected, joins, |selected| - 1)
    }
  }

  ghost predicate MulEnforced(g: Jubjub, base: Coords, bits: seq<bool>, w: MulWires) {
    bits != [] && MulConstraints(g, base, bits, w.doubles, w.selected, w.joins)
  }

  lemma MulOutputSound<P(!new)>(c: Curve<P>, p: P, base: Coords, bits: seq<bool>, w: MulWires)
    requires IsCurve(c) && At(c, base, p) && MulEnforced(c.params, base, bits, w)
    ensures At(c, w.Output(), Mul(c.group, BitsValue(bits), p))
  {
    MulSound(c, p, base, bits, w.doubles, w.selected, w.joins, |bits| - 1);
    assert bits[..|bits| - 1 + 1] == bits;
  }

  /** A witnessed point that passed the small-order test, with its representation. */
  datatype KeyPoint = KeyPoint(witnessed: WitnessWires, order: SmallOrderWires, repr: ReprWires)

  ghost predicate KeyPointEnforced(g: Jubjub, w: KeyPoint) {
    && WitnessConstraints(g, w.witnessed)
    && SmallOrderConstraints(g, w.witnessed.point, w.order)
    && ReprConstraints(g, w.witnessed.point, w.repr)
  }

  ghost predicate StandsForKey<P(!new)>(c: Curve<P>, w: KeyPoint, p: P)
    requires c.params.field.q > 0 && |w.repr.u| > 0
  {
    At(c, w.witnessed.point, p) && Mul(c.group, 8, p) != c.group.zero && w.repr.Output() == ReprBits(c, p)
  }

  lemma KeyPointSound<P(!new)>(c: Curve<P>, w: KeyPoint) returns (p: P)
    requires IsCurve(c) && HasAllPoints(c) && KeyPointEnforced(c.params, w)
    ensures StandsForKey(c, w, p)
  {
    WitnessSound(c, w.witnessed);
    p :| At(c, w.witnessed.point, p);
    SmallOrderSound(c, w.witnessed.point, p, w.order);
    ReprSound(c, w.witnessed.point, p, w.repr);
  }

  /** The wires of the authority part of a spend. */
  datatype AuthorityWires = AuthorityWires(ak: KeyPoint, ar: FixedBaseWires, rk: JoinWires, nsk: FixedBaseWires, nkRepr: ReprWires,
                                           gd: KeyPoint, pkd: MulWires, pkdRepr: ReprWires)

  // The bits of ivk on the wires.
  function IvkWires(hash: seq<bool> -> seq<bool>, w: AuthorityWires): seq<bool>
    requires HashesTo256(hash) && |w.ak.repr.u| > 0 && |w.nkRepr.u| > 0
  {
    hash(w.ak.repr.Output() + w.nkRepr.Output())[..IVK_BITS]
  }

  ghost predicate KeysEnforced(g: Jubjub, t: KeyTables, w: AuthorityWires) {
    && KeyPointEnforced(g, w.ak)
    && FixedBaseEnforced(g, t.spendAuth, w.ar, FR_BITS)
    && Joined(g, w.ak.witnessed.point, FixedBaseOutput(w.ar), w.rk)
    && FixedBaseEnforced(g, t.proofGeneration, w.nsk, FR_BITS)
    && ReprConstraints(g, FixedBaseOutput(w.nsk), w.nkRepr)
    && KeyPointEnforced(g, w.gd)
  }

  ghost predicate AuthorityEnforced(g: Jubjub, t: KeyTables, hash: seq<bool> -> seq<bool>, w: AuthorityWires)
    requires HashesTo256(hash)
  {
    && KeysEnforced(g, t, w)
    && MulEnforced(g, w.gd.witnessed.point, IvkWires(hash, w), w.pkd)
    && ReprConstraints(g, w.pkd.Output(), w.pkdRepr)
  }

  /** All wires of the Spend circuit, with the bits of the nullifier and the two inputs they are packed in. */
  datatype SpendWires = SpendWires(authority: AuthorityWires, part: PartWires, rhoRepr: ReprWires, nullifier: seq<bool>, packed: (int, int))

  ghost predicate NullifierEnforced(g: Jubjub, hash: seq<bool> -> seq<bool>, nkRepr: ReprWires, rhoRepr: ReprWires,
                                    nullifier: seq<bool>, packed: (int, int)) {
    && |nullifier| == 256 && |nkRepr.u| > 0 && |rhoRepr.u| > 0
    && nullifier == hash(nkRepr.Output() + rhoRepr.Output())
    && g.field.Eq(packed.0, Packed(nullifier).0) && g.field.Eq(packed.1, Packed(nullifier).1)
  }

  // Everything that the Spend circuit enforces.
  ghost predicate SpendEnforced(g: Jubjub, t: Tables, kt: KeyTables, ivkHash: seq<bool> -> seq<bool>, nfHash: seq<bool> -> seq<bool>,
                                w: SpendWires)
    requires HashesTo256(ivkHash)
  {
    && AuthorityEnforced(g, kt, ivkHash, w.authority)
    && w.part.c.gd == w.authority.gd.repr.Output() && w.part.c.pkd == w.authority.pkdRepr.Output()
    && PartEnforced(g, t, w.part)
    && ReprConstraints(g, w.part.rho.sum, w.rhoRepr)
    && NullifierEnforced(g, nfHash, w.authority.nkRepr, w.rhoRepr, w.nullifier, w.packed)
  }

  // --- the authority part ---

  // What the wires of the authority part stand for.
  ghost predicate AuthorityStands<P(!new)>(c: Setting<P>, w: AuthorityWires, ak: P, gd: P)
    requires IsSetting(c)
  {
    var e, g := c.s.curve, c.s.curve.group;
    var nk := Mul(g, Reduce(BitsValue(w.nsk.bits)), c.proofGeneration);
    && |w.ak.repr.u| > 0 && StandsForKey(e, w.ak, ak)
    && |w.gd.repr.u| > 0 && StandsForKey(e, w.gd, gd)
    && At(e, w.rk.sum, g.add(ak, Mul(g, Reduce(BitsValue(w.ar.bits)), c.spendAuth)))
    && |w.nkRepr.u| > 0 && w.nkRepr.Output() == c.Repr(nk)
    && |w.pkdRepr.u| > 0 && w.pkdRepr.Output() == c.Repr(Mul(g, Ivk(c, ak, nk), gd))
  }

  lemma NkSound<P(!new)>(c: Setting<P>, t: KeyTables, w: AuthorityWires)
    requires IsSetting(c) && AreKeyTables(c, t) && KeysEnforced(c.s.curve.params, t, w)
    ensures w.nkRepr.Output() == c.Repr(Mul(c.s.curve.group, Reduce(BitsValue(w.nsk.bits)), c.proofGeneration))
  {
    var nk := Mul(c.s.curve.group, BitsValue(w.nsk.bits), c.proofGeneration);
    FixedBaseOutputSound(c.s.curve, c.proofGeneration, t.proofGeneration, w.nsk, FR_BITS);
    ReprSound(c.s.curve, FixedBaseOutput(w.nsk), nk, w.nkRepr);
  }

  lemma RkSound<P(!new)>(c: Setting<P>, t: KeyTables, w: AuthorityWires, ak: P)
    requires IsSetting(c) && AreKeyTables(c, t) && KeysEnforced(c.s.curve.params, t, w) && At(c.s.curve, w.ak.witnessed.point, ak)
    ensures At(c.s.curve, w.rk.sum, c.s.curve.group.add(ak, Mul(c.s.curve.group, Reduce(BitsValue(w.ar.bits)), c.spendAuth)))
  {
    FixedBaseOutputSound(c.s.curve, c.spendAuth, t.spendAuth, w.ar, FR_BITS);
    JoinedSound(c.s.curve, w.ak.witnessed.point, ak, FixedBaseOutput(w.ar),
                Mul(c.s.curve.group, Reduce(BitsValue(w.ar.bits)), c.spendAuth), w.rk);
  }

  lemma PkdSound<P(!new)>(c: Setting<P>, w: AuthorityWires, ak: P, nk: P, gd: P)
    requires IsSetting(c) && At(c.s.curve, w.gd.witnessed.point, gd)
    requires |w.ak.repr.u| > 0 && |w.nkRepr.u| > 0 && w.ak.repr.Output() == c.Repr(ak) && w.nkRepr.Output() == c.Repr(nk)
    requires MulEnforced(c.s.curve.params, w.gd.witnessed.point, IvkWires(c.ivkHash, w), w.pkd)
    requires ReprConstraints(c.s.curve.params, w.pkd.Output(), w.pkdRepr)
    ensures w.pkdRepr.Output() == c.Repr(Mul(c.s.curve.group, Ivk(c, ak, nk), gd))
  {
    assert IvkWires(c.ivkHash, w) == IvkBits(c, ak, nk);
    MulOutputSound(c.s.curve, gd, w.gd.witnessed.point, IvkBits(c, ak, nk), w.pkd);
    ReprSound(c.s.curve, w.pkd.Output(), Mul(c.s.curve.group, Ivk(c, ak, nk), gd), w.pkdRepr);
  }

  /** Any wires that satisfy the authority part stand for points ak and g_d of large order with
  rk = ak + [ar]G, nk = [nsk]H and pk_d = [ivk]g_d, where ivk is the native hash of ak and nk. */
  lemma AuthorityPartSound<P(!new)>(c: Setting<P>, t: KeyTables, w: AuthorityWires)
    requires IsSetting(c) && AreKeyTables(c, t) && AuthorityEnforced(c.s.curve.params, t, c.ivkHash, w)
    ensures exists ak: P, gd: P :: AuthorityStands(c, w, ak, gd)
  {
    var ak := KeyPointSound(c.s.curve, w.ak);
    var gd := KeyPointSound(c.s.curve, w.gd);
    var nk := Mul(c.s.curve.group, Reduce(BitsValue(w.nsk.bits)), c.proofGeneration);
    NkSound(c, t, w);
    RkSound(c, t, w, ak);
    PkdSound(c, w, ak, nk, gd);
    assert AuthorityStands(c, w, ak, gd);
  }

  // --- the Spend circuit ---

  // The exposed wires stand for the public input.
  ghost predicate SpendExposes<P(!new)>(c: Setting<P>, w: SpendWires, x: SpendInput<P>)
    requires IsSetting(c)
  {
    && At(c.s.curve, w.authority.rk.sum, x.rk)
    && At(c.s.curve, w.part.c.cv.sum, x.cv)
    && Canonical(c.s.curve.params.field.q, w.part.anchor) == x.anchor
    && (Canonical(c.s.curve.params.field.q, w.packed.0), Canonical(c.s.curve.params.field.q, w.packed.1)) == x.nullifier
  }

  lemma NullifierSound<P(!new)>(c: Setting<P>, w: SpendWires, nk: P, rho: P)
    requires IsSetting(c) && At(c.s.curve, w.part.rho.sum, rho) && ReprConstraints(c.s.curve.params, w.part.rho.sum, w.rhoRepr)
    requires |w.authority.nkRepr.u| > 0 && w.authority.nkRepr.Output() == c.Repr(nk)
    requires w.nullifier == c.nfHash(w.authority.nkRepr.Output() + w.rhoRepr.Output())
    ensures w.nullifier == NullifierBits(c, nk, rho)
  {
    ReprSound(c.s.curve, w.part.rho.sum, rho, w.rhoRepr);
  }

  // The witness that satisfying wires stand for.
  ghost function SpendWitnessOf<P(!new)>(c: Setting<P>, w: SpendWires, ak: P, gd: P): SpendWitness<P>
    requires IsSetting(c) && |w.part.c.value.bits| == 64 && |w.part.c.gd| == |w.part.c.pkd| == 256 && |w.part.levels| == TREE_DEPTH
  {
    var q := c.s.curve.params.field.q;
    SpendWitness(ak, Reduce(BitsValue(w.authority.ar.bits)), Reduce(BitsValue(w.authority.nsk.bits)), gd, WitnessedNote(w.part.c),
                 Reduce(BitsValue(w.part.c.rcv.bits)), WitnessedPath(q, w.part.levels), Uppers(q, w.part.levels))
  }

  // The public input that belongs to it.
  ghost function SpendInputOf<P(!new)>(c: Setting<P>, v: SpendWitness<P>, anchor: int): SpendInput<P>
    requires IsSetting(c) && v.note.Valid()
  {
    SpendInput(c.s.curve.group.add(v.ak, Mul(c.s.curve.group, v.ar, c.spendAuth)),
               Derive(c.s.ValueBases(), Opening(v.note.value, v.rcv)), anchor, Packed(NullifierBits(c, NkOf(c, v), RhoOf(c, v))))
  }

  lemma AuthorityPart<P(!new)>(c: Setting<P>, w: SpendWires, ak: P, gd: P, v: SpendWitness<P>)
    requires IsSetting(c) && AuthorityStands(c, w.authority, ak, gd)
    requires v.ak == ak && v.gd == gd && v.ar == Reduce(BitsValue(w.authority.ar.bits)) && v.nsk == Reduce(BitsValue(w.authority.nsk.bits))
    requires v.note.Valid() && v.note.gd == w.authority.gd.repr.Output() && v.note.pkd == w.authority.pkdRepr.Output()
    ensures AuthorityHolds(c, SpendInputOf(c, v, 0).rk, v)
    ensures At(c.s.curve, w.authority.rk.sum, SpendInputOf(c, v, 0).rk)
    ensures w.authority.nkRepr.Output() == c.Repr(NkOf(c, v))
  {
  }

  lemma NotePart<P(!new)>(c: Setting<P>, t: Tables, w: SpendWires, v: SpendWitness<P>)
    requires IsSetting(c) && AreTablesOf(c.s, t) && PartEnforced(c.s.curve.params, t, w.part)
    requires v.note == WitnessedNote(w.part.c) && v.rcv == Reduce(BitsValue(w.part.c.rcv.bits))
    requires v.path == WitnessedPath(c.s.curve.params.field.q, w.part.levels) && v.uppers == Uppers(c.s.curve.params.field.q, w.part.levels)
    ensures At(c.s.curve, w.part.c.cv.sum, Derive(c.s.ValueBases(), Opening(v.note.value, v.rcv)))
    ensures v.note.value == 0
            || AscendWith(c.s, v.path, Cmu(c.s, v.note), v.uppers, TREE_DEPTH) == Canonical(c.s.curve.params.field.q, w.part.anchor)
    ensures At(c.s.curve, w.part.rho.sum, MixingPedersenHash(c.s, CommitNote(c.s, v.note), v.path.position))
  {
    NotePartSound(c.s, t, w.part);
  }

  lemma SpendStands<P(!new)>(c: Setting<P>, t: Tables, kt: KeyTables, w: SpendWires, ak: P, gd: P, v: SpendWitness<P>, x: SpendInput<P>)
    requires IsSetting(c) && AreTablesOf(c.s, t) && SpendEnforced(c.s.curve.params, t, kt, c.ivkHash, c.nfHash, w)
    requires AuthorityStands(c, w.authority, ak, gd) && v == SpendWitnessOf(c, w, ak, gd)
    requires x == SpendInputOf(c, v, Canonical(c.s.curve.params.field.q, w.part.anchor))
    ensures SpendExposes(c, w, x) && SpendHolds(c, x, v)
  {
    AuthorityPart(c, w, ak, gd, v);
    NotePart(c, t, w, v);
    NullifierSound(c, w, NkOf(c, v), RhoOf(c, v));
    PackedCanonical(c.s.curve.params.field.q, w.nullifier, w.packed.0, w.packed.1);
  }

  /** The witness read off the wires, with the points its key wires stand for, satisfies the Spend
  statement for the public input that the wires expose. */
  ghost predicate SpendWitnessed<P(!new)>(c: Setting<P>, w: SpendWires, ak: P, gd: P)
    requires IsSetting(c)
  {
    && AuthorityStands(c, w.authority, ak, gd)
    && |w.part.c.value.bits| == 64 && |w.part.c.gd| == |w.part.c.pkd| == 256 && |w.part.levels| == TREE_DEPTH
    && var v := SpendWitnessOf(c, w, ak, gd);
       var x := SpendInputOf(c, v, Canonical(c.s.curve.params.field.q, w.part.anchor));
       SpendExposes(c, w, x) && SpendHolds(c, x, v)
  }

  lemma SpendWitnessedBy<P(!new)>(c: Setting<P>, t: Tables, kt: KeyTables, w: SpendWires, ak: P, gd: P)
    requires IsSetting(c) && AreTablesOf(c.s, t) && SpendEnforced(c.s.curve.params, t, kt, c.ivkHash, c.nfHash, w)
    requires AuthorityStands(c, w.authority, ak, gd)
    ensures SpendWitnessed(c, w, ak, gd)
  {
    var v := SpendWitnessOf(c, w, ak, gd);
    SpendStands(c, t, kt, w, ak, gd, v, SpendInputOf(c, v, Canonical(c.s.curve.params.field.q, w.part.anchor)));
  }

  /** Any assignment that satisfies the Spend circuit witnesses the Spend statement by its own wires. */
  lemma SpendSound<P(!new)>(c: Setting<P>, t: Tables, kt: KeyTables, w: SpendWires)
    requires IsSetting(c) && AreTablesOf(c.s, t) && AreKeyTables(c, kt)
    requires SpendEnforced(c.s.curve.params, t, kt, c.ivkHash, c.nfHash, w)
    ensures exists ak: P, gd: P :: SpendWitnessed(c, w, ak, gd)
  {
    AuthorityPartSound(c, kt, w.authority);
    var ak: P, gd: P :| AuthorityStands(c, w.authority, ak, gd);
    SpendWitnessedBy(c, t, kt, w, ak, gd);
  }

  /** The wires that the Spend circuit makes public, in the order in which it does. */
  function SpendPublic(w: SpendWires): seq<int> {
    var rk, cv := w.authority.rk.sum, w.part.c.cv.sum;
    [rk.u, rk.v, cv.u, cv.v, w.part.anchor, w.packed.0, w.packed.1]
  }

  // --- what a note binds ---

  // The group has order eight times the prime r_J: a point that eight does not kill is a generator after it.
  ghost predicate CofactorAt<P>(g: Group<P>, p: P) {
    Mul(g, 8, p) != g.zero ==> HasOrderR(g, Mul(g, 8, p))
  }

  lemma LargeOrderCancels<P(!new)>(g: Group<P>, p: P, k: Fr, l: Fr)
    requires IsGroup(g) && CofactorAt(g, p) && Mul(g, 8, p) != g.zero && Mul(g, k, p) == Mul(g, l, p)
    ensures k == l
  {
    var x: int, y: int := k, l;
    MulMul(g, 8, x, p);
    MulMul(g, 8, y, p);
    MulMul(g, x, 8, p);
    MulMul(g, y, 8, p);
    assert 8 * x == x * 8 && 8 * y == y * 8;
    MultiplesEqualIff(g, Mul(g, 8, p), x, y);
    ReducedEqual(k, l);
  }

  /** A note is spendable under one incoming viewing key only: two satisfied statements for one note, of
  whatever points and keys, have one diversified base and one ivk. */
  lemma NoteBindsIvk<P(!new)>(c: Setting<P>, x1: SpendInput<P>, w1: SpendWitness<P>, x2: SpendInput<P>, w2: SpendWitness<P>)
    requires IsSetting(c) && forall p: P :: CofactorAt(c.s.curve.group, p)
    requires SpendHolds(c, x1, w1) && SpendHolds(c, x2, w2) && w1.note == w2.note
    ensures w1.gd == w2.gd
    ensures Ivk(c, w1.ak, NkOf(c, w1)) == Ivk(c, w2.ak, NkOf(c, w2))
  {
    var g, k, l := c.s.curve.group, Ivk(c, w1.ak, NkOf(c, w1)), Ivk(c, w2.ak, NkOf(c, w2));
    assert AuthorityHolds(c, x1.rk, w1) && AuthorityHolds(c, x2.rk, w2);
    ReprInjective(c.s.curve, w1.gd, w2.gd);
    ReprInjective(c.s.curve, Mul(g, k, w1.gd), Mul(g, l, w2.gd));
    assert CofactorAt(g, w1.gd);
    LargeOrderCancels(g, w1.gd, k, l);
  }

  // --- the Output circuit ---

  datatype OutputInput<P> = OutputInput(cv: P, epk: P, cmu: int)

  datatype OutputWitness<P> = OutputWitness(gd: P, esk: nat, note: Note, rcv: Fr)

  // Nothing is enforced of pk_d but its length.
  ghost predicate OutputHolds<P(!new)>(c: Setting<P>, x: OutputInput<P>, w: OutputWitness<P>)
    requires IsSetting(c)
  {
    var g := c.s.curve.group;
    && Mul(g, 8, w.gd) != g.zero && w.note.Valid() && w.note.gd == c.Repr(w.gd)
    && x.cv == Derive(c.s.ValueBases(), Opening(w.note.value, w.rcv))
    && w.esk < Pow(2, FR_BITS) && x.epk == Mul(g, w.esk, w.gd)
    && x.cmu == Cmu(c.s, w.note)
  }

  datatype OutputWires = OutputWires(c: CommitmentWires, gd: KeyPoint, esk: seq<bool>, epk: MulWires)

  ghost predicate OutputEnforced(g: Jubjub, t: Tables, w: OutputWires) {
    && CvEnforced(g, t, w.c)
    && KeyPointEnforced(g, w.gd)
    && |w.esk| == FR_BITS && MulEnforced(g, w.gd.witnessed.point, w.esk, w.epk)
    && w.c.gd == w.gd.repr.Output()
    && CmEnforced(g, t, w.c)
  }

  /** The wires that the Output circuit makes public, in the order in which it does. */
  ghost function OutputPublic(w: OutputWires): seq<int>
    requires |w.epk.selected| == |w.epk.joins| > 0
  {
    var cv, epk := w.c.cv.sum, w.epk.Output();
    [cv.u, cv.v, epk.u, epk.v, w.c.cm.sum.u]
  }

  ghost predicate OutputExposes<P(!new)>(c: Setting<P>, w: OutputWires, x: OutputInput<P>)
    requires IsSetting(c) && |w.epk.selected| == |w.epk.joins| > 0
  {
    && At(c.s.curve, w.c.cv.sum, x.cv)
    && At(c.s.curve, w.epk.Output(), x.epk)
    && Canonical(c.s.curve.params.field.q, w.c.cm.sum.u) == x.cmu
  }

  ghost function OutputWitnessOf<P(!new)>(w: OutputWires, gd: P): OutputWitness<P>
    requires |w.c.value.bits| == 64 && |w.c.gd| == |w.c.pkd| == 256
  {
    OutputWitness(gd, BitsValue(w.esk), WitnessedNote(w.c), Reduce(BitsValue(w.c.rcv.bits)))
  }

  ghost function OutputInputOf<P(!new)>(c: Setting<P>, v: OutputWitness<P>): OutputInput<P>
    requires IsSetting(c) && v.note.Valid()
  {
    OutputInput(Derive(c.s.ValueBases(), Opening(v.note.value, v.rcv)), Mul(c.s.curve.group, v.esk, v.gd), Cmu(c.s, v.note))
  }

  lemma OutputStands<P(!new)>(c: Setting<P>, t: Tables, w: OutputWires, gd: P, v: OutputWitness<P>)
    requires IsSetting(c) && AreTablesOf(c.s, t) && OutputEnforced(c.s.curve.params, t, w)
    requires StandsForKey(c.s.curve, w.gd, gd) && v == OutputWitnessOf(w, gd)
    ensures OutputExposes(c, w, OutputInputOf(c, v)) && v.esk < Pow(2, FR_BITS)
  {
    CvSound(c.s, t, w.c);
    CmSound(c.s, t, w.c);
    MulOutputSound(c.s.curve, gd, w.gd.witnessed.point, w.esk, w.epk);
    BitsValueBound(w.esk);
  }

  /** The witness read off the wires, with the point its diversified base stands for, satisfies the
  Output statement for the public input that the wires expose. */
  ghost predicate OutputWitnessed<P(!new)>(c: Setting<P>, w: OutputWires, gd: P)
    requires IsSetting(c)
  {
    && |w.gd.repr.u| > 0 && StandsForKey(c.s.curve, w.gd, gd)
    && |w.c.value.bits| == 64 && |w.c.gd| == |w.c.pkd| == 256 && |w.epk.selected| == |w.epk.joins| > 0
    && var v := OutputWitnessOf(w, gd);
       OutputExposes(c, w, OutputInputOf(c, v)) && OutputHolds(c, OutputInputOf(c, v), v)
  }

  /** Any assignment that satisfies the Output circuit witnesses the Output statement by its own wires. */
  lemma OutputSound<P(!new)>(c: Setting<P>, t: Tables, w: OutputWires)
    requires IsSetting(c) && AreTablesOf(c.s, t) && OutputEnforced(c.s.curve.params, t, w)
    ensures exists gd: P :: OutputWitnessed(c, w, gd)
  {
    var gd := KeyPointSound(c.s.curve, w.gd);
    OutputStands(c, t, w, gd, OutputWitnessOf(w, gd));
    assert OutputWitnessed(c, w, gd);
  }
}
