/** Soundness of the gadgets that bring points into a circuit: witnessing, the small-order test, and
the 256-bit representation (section 5.4.9.3 of the Zcash Protocol Specification). */
module PointWires {
  import opened Residues
  import opened Powers
  import opened Groups
  import opened EdwardsCurve
  import opened MontgomeryCurve
  import opened JubjubGroup
  import opened EccGadgets
  import opened ScalarWires
  import opened NoteTree
  import opened SpendCircuit

  // --- witnessing ---

  /** The coordinates that the prover chose, their squares and the product of the squares. */
  datatype WitnessWires = WitnessWires(point: Coords, u2: int, v2: int, u2v2: int)

  ghost predicate WitnessConstraints(g: Jubjub, w: WitnessWires) {
    && g.field.Eq(w.point.u * w.point.u, w.u2)
    && g.field.Eq(w.point.v * w.point.v, w.v2)
    && g.field.Eq(w.u2 * w.v2, w.u2v2)
    && g.field.Eq(w.v2 - w.u2, 1 + g.d * w.u2v2)
  }

  lemma CurveTerm(d: int, a: int, b: int)
    ensures d * (a * b) == d * a * b
  {
  }

  // The check enforces the curve equation.
  lemma WitnessOnCurve(g: Jubjub, w: WitnessWires)
    requires WitnessConstraints(g, w)
    ensures g.OnCurve(w.point)
  {
    var q, a, b := g.field.q, w.point.u * w.point.u, w.point.v * w.point.v;
    CongSub(q, b, w.v2, a, w.u2);
    CongMul(q, a, w.u2, b, w.v2);
    CongTrans(q, a * b, w.u2 * w.v2, w.u2v2);
    CongScale(q, g.d, a * b, w.u2v2);
    CongRefl(q, 1);
    CongAdd(q, 1, 1, g.d * (a * b), g.d * w.u2v2);
    CongSym(q, 1 + g.d * (a * b), 1 + g.d * w.u2v2);
    CongTrans(q, b - a, w.v2 - w.u2, 1 + g.d * w.u2v2);
    CongTrans(q, b - a, 1 + g.d * w.u2v2, 1 + g.d * (a * b));
    CurveTerm(g.d, a, b);
  }

  // So on a curve with all its points, witnessed coordinates stand for a point, and for only one.
  lemma WitnessSound<P(!new)>(c: Curve<P>, w: WitnessWires)
    requires IsCurve(c) && HasAllPoints(c) && WitnessConstraints(c.params, w)
    ensures exists p: P :: At(c, w.point, p)
    ensures forall p: P, r: P | At(c, w.point, p) && At(c, w.point, r) :: p == r
  {
    WitnessOnCurve(c.params, w);
    assert PointExists(c, w.point);
    forall p: P, r: P | At(c, w.point, p) && At(c, w.point, r) ensures p == r {
      AtUnique(c, w.point, p, r);
    }
  }

  // --- the small-order test ---

  datatype SmallOrderWires = SmallOrderWires(first: DoubleWires, second: DoubleWires, third: DoubleWires, inverse: int)

  ghost predicate Doubled(g: Jubjub, e: Coords, d: DoubleWires) {
    g.DoubleConstraints(e, d.t, d.a, d.cross, d.point)
  }

  ghost predicate SmallOrderConstraints(g: Jubjub, e: Coords, w: SmallOrderWires) {
    && Doubled(g, e, w.first)
    && Doubled(g, w.first.point, w.second)
    && Doubled(g, w.second.point, w.third)
    && g.field.Eq(w.third.point.u * w.inverse, 1)
  }

  lemma EightFold<P(!new)>(c: Curve<P>, e: Coords, p: P, w: SmallOrderWires)
    requires IsCurve(c) && At(c, e, p) && SmallOrderConstraints(c.params, e, w)
    ensures At(c, w.third.point, Mul(c.group, 8, p))
  {
    var g := c.group;
    MulOne(g, p);
    EdwardsDoubleSound(c, e, p, w.first.t, w.first.a, w.first.cross, w.first.point);
    MulAdd(g, 2, 2, p);
    EdwardsDoubleSound(c, w.first.point, Mul(g, 2, p), w.second.t, w.second.a, w.second.cross, w.second.point);
    MulAdd(g, 4, 4, p);
    EdwardsDoubleSound(c, w.second.point, Mul(g, 4, p), w.third.t, w.third.a, w.third.cross, w.third.point);
  }

  // Any wires that pass the test stand for a point that eight does not kill.
  lemma SmallOrderSound<P(!new)>(c: Curve<P>, e: Coords, p: P, w: SmallOrderWires)
    requires IsCurve(c) && At(c, e, p) && SmallOrderConstraints(c.params, e, w)
    ensures Mul(c.group, 8, p) != c.group.zero
  {
    var f, u := c.params.field, w.third.point.u;
    EightFold(c, e, p, w);
    if Mul(c.group, 8, p) == c.group.zero {
      CongTrans(f.q, u, c.u(c.group.zero), 0);
      f.SmallNonZero(1);
      f.NonZeroFactors(u, w.inverse, 1);
    }
  }

  // --- representations ---

  /** The representation of a point: the bits of v, then the parity of u. */
  function ReprBits<P>(c: Curve<P>, p: P): (bits: seq<bool>)
    requires c.params.field.q > 0
    ensures |bits| == 256
  {
    ToBits(Canonical(c.params.field.q, c.v(p)), SCALAR_BITS) + [Canonical(c.params.field.q, c.u(p)) % 2 == 1]
  }

  datatype ReprWires = ReprWires(u: seq<bool>, v: seq<bool>) {
    function Output(): seq<bool>
      requires |u| > 0
    {
      v + [u[0]]
    }
  }

  // What the strict decomposition enforces: bits of the one representative below the field order.
  ghost predicate StrictBits(q: int, x: int, bits: seq<bool>) {
    |bits| == SCALAR_BITS && BitsValue(bits) < q && Cong(q, BitsValue(bits), x)
  }

  ghost predicate ReprConstraints(g: Jubjub, e: Coords, w: ReprWires) {
    StrictBits(g.field.q, e.u, w.u) && StrictBits(g.field.q, e.v, w.v)
  }

  lemma StrictBitsSound(q: int, x: int, y: int, bits: seq<bool>)
    requires q > 0 && StrictBits(q, x, bits) && Cong(q, x, y)
    ensures BitsValue(bits) == Canonical(q, y) && bits == ToBits(Canonical(q, y), SCALAR_BITS)
  {
    CongTrans(q, BitsValue(bits), x, y);
    CanonicalEqual(q, BitsValue(bits), y);
    CanonicalSmall(q, BitsValue(bits));
    ToBitsOfBits(bits);
  }

  lemma LowBit(n: nat)
    ensures BitOf(n, 0) <==> n % 2 == 1
  {
    assert Pow(2, 0) == 1;
  }

  // Any wires of the representation hold that of the represented point.
  lemma ReprSound<P(!new)>(c: Curve<P>, e: Coords, p: P, w: ReprWires)
    requires IsCurve(c) && At(c, e, p) && ReprConstraints(c.params, e, w)
    ensures w.Output() == ReprBits(c, p)
  {
    var q := c.params.field.q;
    StrictBitsSound(q, e.u, c.u(p), w.u);
    StrictBitsSound(q, e.v, c.v(p), w.v);
    LowBit(Canonical(q, c.u(p)));
    assert w.u[0] == BitOf(Canonical(q, c.u(p)), 0);
  }

  // Two has an inverse, so the field order is odd.
  lemma OddField(f: Field)
    requires f.Valid()
    ensures f.q % 2 == 1
  {
    f.SmallNonZero(2);
    f.Inverse(2);
    OddBy(f.q, f.inv(2), Quotient(f.q, 2 * f.inv(2), 1));
  }

  lemma OddBy(q: int, b: int, k: int)
    requires 2 * b - 1 == q * k
    ensures q % 2 == 1
  {
    if q % 2 == 0 {
      var h := q / 2;
      assert q == 2 * h;
      DoubledProduct(h, k);
    }
  }

  lemma DoubledProduct(h: int, k: int)
    ensures (2 * h) * k == 2 * (h * k)
  {
  }

  // Opposite classes have representatives of different parity, unless they are zero.
  lemma OppositeParity(q: int, x: int, y: int)
    requires q % 2 == 1 && q > 0 && Cong(q, x, -y) && Canonical(q, x) % 2 == Canonical(q, y) % 2
    ensures Cong(q, x, y)
  {
    var a, b := Canonical(q, x), Canonical(q, y);
    CanonicalEqual(q, x, x);
    CanonicalEqual(q, y, y);
    CongAdd(q, a, x, b, y);
    CongRefl(q, y);
    CongAdd(q, x, -y, y, y);
    CongTrans(q, a + b, x + y, 0);
    QuotientBelowTwo(q, 0, a + b, Quotient(q, a + b, 0));
    CanonicalEqual(q, x, y);
  }

  /** A representation belongs to one point only. */
  lemma ReprInjective<P(!new)>(c: Curve<P>, p: P, r: P)
    requires IsCurve(c) && c.params.field.q < Pow(2, SCALAR_BITS) && ReprBits(c, p) == ReprBits(c, r)
    ensures p == r
  {
    var q := c.params.field.q;
    SameV(q, c.v(p), c.v(r), ReprBits(c, p)[..SCALAR_BITS]) by {
      assert ReprBits(c, p)[..SCALAR_BITS] == ToBits(Canonical(q, c.v(p)), SCALAR_BITS);
      assert ReprBits(c, r)[..SCALAR_BITS] == ToBits(Canonical(q, c.v(r)), SCALAR_BITS);
    }
    assert ReprBits(c, p)[SCALAR_BITS] == ReprBits(c, r)[SCALAR_BITS];
    assert c.OnCurveAt(p) && c.OnCurveAt(r);
    SameVSameU(c.params, c.Affine(p), c.Affine(r));
    OddField(c.params.field);
    if !Cong(q, c.u(p), c.u(r)) { OppositeParity(q, c.u(p), c.u(r)); }
    assert c.InjectiveAt(p, r);
  }

  lemma SameV(q: int, x: int, y: int, bits: seq<bool>)
    requires 0 < q < Pow(2, SCALAR_BITS)
    requires bits == ToBits(Canonical(q, x), SCALAR_BITS) == ToBits(Canonical(q, y), SCALAR_BITS)
    ensures Cong(q, x, y)
  {
    CanonicalEqual(q, x, y);
    CanonicalEqual(q, y, x);
    ToBitsValue(Canonical(q, x), SCALAR_BITS);
    ToBitsValue(Canonical(q, y), SCALAR_BITS);
    CanonicalSmall(Pow(2, SCALAR_BITS), Canonical(q, x));
    CanonicalSmall(Pow(2, SCALAR_BITS), Canonical(q, y));
  }
}
