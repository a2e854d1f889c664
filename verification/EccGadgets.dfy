/** The point gadgets of the circuit.  Each computes the witness values as the prover does, failing
when a division is impossible, and each has a lemma saying which wires its constraints admit. */
module EccGadgets {
  import opened Residues
  import opened Wrappers
  import opened Powers
  import opened EdwardsCurve
  import opened MontgomeryCurve
  import opened ChordAddition
  import opened JubjubGroup

  datatype SynthesisError = DivisionByZero | AssignmentMissing

  const FIXED_BASE_CHUNKS: nat := 84

  // n / d, or the error that an impossible inversion raises.
  function Divide(f: Field, n: int, d: int): Result<int, SynthesisError> {
    match f.invert(d)
    case None => Err(DivisionByZero)
    case Some(inverse) => Ok(n * inverse)
  }

  lemma DivideSolves(f: Field, n: int, d: int)
    requires f.Valid()
    ensures Divide(f, n, d).Ok? <==> !f.Eq(d, 0)
    ensures Divide(f, n, d).Ok? ==> f.Eq(d * Divide(f, n, d).value, n)
  {
    f.InvertFails(d);
    if !f.Eq(d, 0) {
      f.Divide(d, n);
    }
  }

  function Pair(u: Result<int, SynthesisError>, v: Result<int, SynthesisError>): Result<Coords, SynthesisError> {
    if u.Err? then Err(u.error)
    else if v.Err? then Err(v.error)
    else Ok(Coords(u.value, v.value))
  }

  function EdwardsAdd(c: Jubjub, p1: Coords, p2: Coords): Result<Coords, SynthesisError> {
    var bigU := (p1.u + p1.v) * (p2.u + p2.v);
    var a := p2.v * p1.u;
    var b := p2.u * p1.v;
    var cross := (c.d * a) * b;
    Pair(Divide(c.field, a + b, 1 + cross), Divide(c.field, bigU - a - b, 1 - cross))
  }

  function EdwardsDouble(c: Jubjub, p: Coords): Result<Coords, SynthesisError> {
    var t := (p.u + p.v) * (p.u + p.v);
    var a := p.u * p.v;
    var cross := (c.d * a) * a;
    Pair(Divide(c.field, 2 * a, 1 + cross), Divide(c.field, t - 2 * a, 1 - cross))
  }

  function ConditionallySelect(p: Coords, condition: bool): Coords {
    if condition then p else Coords(0, 1)
  }

  // The equations enforced by the selection gadget.
  ghost predicate SelectConstraints(c: Jubjub, p: Coords, condition: bool, r: Coords) {
    && c.field.Eq(p.u * Bit(condition), r.u)
    && c.field.Eq(p.v * Bit(condition), r.v - (1 - Bit(condition)))
  }

  function MontgomeryAdd(c: Jubjub, m1: Mont, m2: Mont): Result<Mont, SynthesisError> {
    match Divide(c.field, m2.y - m1.y, m2.x - m1.x)
    case Err(e) => Err(e)
    case Ok(slope) =>
      var x := slope * slope - c.montA - m1.x - m2.x;
      Ok(Mont(x, -((x - m1.x) * slope + m1.y)))
  }

  function IntoEdwards(c: Jubjub, m: Mont): Result<Coords, SynthesisError> {
    Pair(Divide(c.field, m.x * c.scale, m.y), Divide(c.field, m.x - 1, m.x + 1))
  }

  // --- addition and doubling ---

  // The addition gadget never divides by zero, and its constraints admit exactly the sum.
  lemma EdwardsAddCorrect<P(!new)>(c: Curve<P>, e1: Coords, p: P, e2: Coords, r: P)
    requires IsCurve(c) && At(c, e1, p) && At(c, e2, r)
    ensures EdwardsAdd(c.params, e1, e2).Ok?
    ensures At(c, EdwardsAdd(c.params, e1, e2).value, c.group.add(p, r))
  {
    var g := c.params;
    var a, b := e2.v * e1.u, e2.u * e1.v;
    RepresentedDenominators(c, e1, p, e2, r);
    DivideSolves(g.field, a + b, 1 + (g.d * a) * b);
    Numerator(e1.u, e1.v, e2.u, e2.v);
    DivideSolves(g.field, (e1.u + e1.v) * (e2.u + e2.v) - a - b, 1 - (g.d * a) * b);
    SumIsAt(c, e1, p, e2, r, EdwardsAdd(g, e1, e2).value);
  }

  lemma EdwardsAddSound<P(!new)>(c: Curve<P>, e1: Coords, p: P, e2: Coords, r: P,
                                 bigU: int, a: int, b: int, cross: int, e3: Coords)
    requires IsCurve(c) && At(c, e1, p) && At(c, e2, r)
    requires c.params.AddConstraints(e1, e2, bigU, a, b, cross, e3)
    ensures At(c, e3, c.group.add(p, r))
  {
    c.params.AddConstraintsSound(e1, e2, bigU, a, b, cross, e3);
    SumIsAt(c, e1, p, e2, r, e3);
  }

  // Doubling computes what adding the point to itself does.
  lemma DoubleIsAdd(c: Jubjub, e: Coords)
    ensures EdwardsDouble(c, e) == EdwardsAdd(c, e, e)
  {
    var a := e.u * e.v;
    assert e.v * e.u == a;
  }

  lemma EdwardsDoubleCorrect<P(!new)>(c: Curve<P>, e: Coords, p: P)
    requires IsCurve(c) && At(c, e, p)
    ensures EdwardsDouble(c.params, e).Ok?
    ensures At(c, EdwardsDouble(c.params, e).value, c.group.add(p, p))
  {
    DoubleIsAdd(c.params, e);
    EdwardsAddCorrect(c, e, p, e, p);
  }

  lemma EdwardsDoubleSound<P(!new)>(c: Curve<P>, e: Coords, p: P, t: int, a: int, cross: int, e3: Coords)
    requires IsCurve(c) && At(c, e, p)
    requires c.params.DoubleConstraints(e, t, a, cross, e3)
    ensures At(c, e3, c.group.add(p, p))
  {
    c.params.DoubleConstraintsSound(e, t, a, cross, e3);
    SumIsAt(c, e, p, e, p, e3);
  }

  lemma SelectSound(c: Jubjub, p: Coords, condition: bool, r: Coords)
    ensures SelectConstraints(c, p, condition, r) <==> c.Same(r, ConditionallySelect(p, condition))
  {
    var q := c.field.q;
    if SelectConstraints(c, p, condition, r) {
      CongSym(q, p.u * Bit(condition), r.u);
      CongSym(q, p.v * Bit(condition), r.v - (1 - Bit(condition)));
      if !condition { CongDiff(q, r.v, 1); }
    }
    if c.Same(r, ConditionallySelect(p, condition)) {
      if !condition { CongDiff(q, r.v, 1); CongSym(q, r.v - 1, 0); CongSym(q, r.u, 0); } else { SameSym(c, r, p); }
    }
  }

  // --- Montgomery points ---

  // With different x-coordinates the chord exists, and its constraints admit exactly the sum.
  lemma MontgomeryAddCorrect<P(!new)>(c: Curve<P>, m1: Mont, p: P, m2: Mont, r: P)
    requires IsCurve(c) && MontAt(c, m1, p) && MontAt(c, m2, r)
    requires p != r && p != c.group.neg(r)
    requires !c.params.field.Eq(c.u(c.group.add(p, r)), 0)
    ensures MontgomeryAdd(c.params, m1, m2).Ok?
    ensures MontAt(c, MontgomeryAdd(c.params, m1, m2).value, c.group.add(p, r))
  {
    var g, q := c.params, c.params.field.q;
    MontSameX(c, m1, p, m2, r);
    CongDiff(q, m2.x, m1.x);
    if g.field.Eq(m2.x, m1.x) { CongSym(q, m2.x, m1.x); }
    DivideSolves(g.field, m2.y - m1.y, m2.x - m1.x);
    var slope := Divide(g.field, m2.y - m1.y, m2.x - m1.x).value;
    var m3 := MontgomeryAdd(g, m1, m2).value;
    CongRefl(q, slope * slope);
    assert (m1.x - m3.x) * slope == m3.y + m1.y by { Negate(m3.x - m1.x, slope); }
    CongRefl(q, (m1.x - m3.x) * slope);
    MontgomeryAddSound(c, m1, p, m2, r, slope, m3);
  }

  lemma MontgomeryAddSound<P(!new)>(c: Curve<P>, m1: Mont, p: P, m2: Mont, r: P, slope: int, m3: Mont)
    requires IsCurve(c) && MontAt(c, m1, p) && MontAt(c, m2, r)
    requires p != r && p != c.group.neg(r)
    requires !c.params.field.Eq(c.u(c.group.add(p, r)), 0)
    requires ChordConstraints(c.params, m1, m2, slope, m3)
    ensures MontAt(c, m3, c.group.add(p, r))
  {
    MontSameX(c, m1, p, m2, r);
    assert c.OnCurveAt(p) && c.OnCurveAt(r) && c.SumAt(p, r);
    ChordIsSum(c.params, c.Affine(p), m1, c.Affine(r), m2, slope, m3, c.Affine(c.group.add(p, r)));
  }

  // Both quotients of the conversion exist, and solve its constraints.
  lemma IntoEdwardsSolves(c: Jubjub, m: Mont)
    requires c.field.Valid() && !c.field.Eq(m.y, 0) && !c.field.Eq(m.x + 1, 0)
    ensures IntoEdwards(c, m).Ok? && IntoEdwardsConstraints(c, m, IntoEdwards(c, m).value)
  {
    DivideSolves(c.field, m.x * c.scale, m.y);
    DivideSolves(c.field, m.x - 1, m.x + 1);
    assert m.x * c.scale == c.scale * m.x;
  }

  lemma IntoEdwardsAdmits<P(!new)>(c: Curve<P>, m: Mont, p: P, e: Coords)
    requires IsCurve(c) && MontAt(c, m, p)
    ensures IntoEdwardsConstraints(c.params, m, e) <==> At(c, e, p)
  {
    var g := c.params;
    assert c.OnCurveAt(p);
    IntoEdwardsUnique(g, c.Affine(p), m, e);
    if g.Same(c.Affine(p), e) { SameSym(g, c.Affine(p), e); }
    if At(c, e, p) { SameSym(g, e, c.Affine(p)); }
  }

  // The conversion back to Edwards form succeeds and admits only the original point.
  lemma IntoEdwardsCorrect<P(!new)>(c: Curve<P>, m: Mont, p: P)
    requires IsCurve(c) && MontAt(c, m, p)
    ensures IntoEdwards(c.params, m).Ok?
    ensures At(c, IntoEdwards(c.params, m).value, p)
    ensures forall e: Coords :: IntoEdwardsConstraints(c.params, m, e) <==> At(c, e, p)
  {
    assert c.OnCurveAt(p);
    MontgomeryNonZero(c.params, c.Affine(p), m);
    IntoEdwardsSolves(c.params, m);
    forall e: Coords
      ensures IntoEdwardsConstraints(c.params, m, e) <==> At(c, e, p)
    {
      IntoEdwardsAdmits(c, m, p, e);
    }
  }

  function ToMontgomery(c: Jubjub, e: Coords): Option<Mont> {
    if c.field.invert(e.v - 1).None? then None
    else if c.field.invert(e.u).None? then Some(Mont(0, 0))
    else
      var x := (1 + e.v) * c.field.inv(1 - e.v);
      var y := x * c.field.inv(e.u);
      Some(Mont(x, y * c.scale))
  }

  // None exactly at the identity; (0, 0) exactly at the point of order two; otherwise the
  // Montgomery coordinates, from which IntoEdwards recovers the point.
  lemma ToMontgomeryCorrect<P(!new)>(c: Curve<P>, p: P)
    requires IsCurve(c)
    ensures ToMontgomery(c.params, c.Affine(p)).None? <==> p == c.group.zero
    ensures c.params.field.Eq(c.u(p), 0) && p != c.group.zero
            ==> ToMontgomery(c.params, c.Affine(p)) == Some(Mont(0, 0)) && IntoEdwards(c.params, Mont(0, 0)).Err?
    ensures !c.params.field.Eq(c.u(p), 0) ==>
              && ToMontgomery(c.params, c.Affine(p)).Some?
              && MontAt(c, ToMontgomery(c.params, c.Affine(p)).value, p)
  {
    var g, q, e := c.params, c.params.field.q, c.Affine(p);
    assert c.OnCurveAt(p);
    IdentityCoordinates(c, p);
    g.field.InvertFails(e.v - 1);
    g.field.InvertFails(e.u);
    CongDiff(q, e.v, 1);
    ZeroU(g, e);
    CongRefl(q, 0);
    DivideSolves(g.field, 0 * g.scale, 0);
    if !g.field.Eq(e.u, 0) {
      var x := (1 + e.v) * g.field.inv(1 - e.v);
      if g.field.Eq(1 - e.v, 0) { CongDiff(q, 1, e.v); CongSym(q, 1, e.v); }
      g.field.Divide(1 - e.v, 1 + e.v);
      g.field.Inverse(e.u);
      CongScale(q, g.scale * x, e.u * g.field.inv(e.u), 1);
      YProduct(e.u, x, g.field.inv(e.u), g.scale);
    }
  }

  lemma YProduct(u: int, x: int, w: int, s: int)
    ensures u * (x * w * s) == (s * x) * (u * w)
  {
  }

  // The identity is the only point with v == 1.
  lemma IdentityCoordinates<P(!new)>(c: Curve<P>, p: P)
    requires IsCurve(c)
    ensures p == c.group.zero <==> c.params.field.Eq(c.v(p), 1)
  {
    if c.params.field.Eq(c.v(p), 1) {
      assert c.OnCurveAt(p);
      ZeroU(c.params, c.Affine(p));
      SameSym(c.params, c.Affine(c.group.zero), Coords(0, 1));
      AffineAt(c, p);
      SameTrans(c.params, c.Affine(p), Coords(0, 1), c.Affine(c.group.zero));
      assert c.InjectiveAt(p, c.group.zero);
    }
  }
}
