/** The group of curve points, with its coordinates.

The group law of the curve library is not re-proved here: `IsCurve` says that points form a
commutative group whose coordinates lie on the curve, determine the point, and add by the Edwards
addition equations; `HasAllPoints` says that there are no other solutions of the curve equation.  Everything the circuit does with coordinates is derived from that.
*/
module JubjubGroup {
  import opened Residues
  import opened EdwardsCurve
  import opened MontgomeryCurve
  import opened Groups

  datatype Curve<!P> = Curve(group: Group<P>, params: Jubjub, u: P -> int, v: P -> int) {

    function Affine(p: P): Coords {
      Coords(u(p), v(p))
    }

    ghost predicate SumAt(p: P, r: P) {
      params.IsSum(Affine(p), Affine(r), Affine(group.add(p, r)))
    }

    ghost predicate InjectiveAt(p: P, r: P) {
      params.Same(Affine(p), Affine(r)) ==> p == r
    }

    ghost predicate OnCurveAt(p: P) {
      params.OnCurve(Affine(p)) && params.Same(Affine(group.neg(p)), Coords(-u(p), v(p)))
    }
  }

  ghost predicate IsCurve<P(!new)>(c: Curve<P>) {
    && IsGroup(c.group)
    && c.params.Valid()
    && c.params.Same(c.Affine(c.group.zero), Coords(0, 1))
    && (forall p: P :: c.OnCurveAt(p))
    && (forall p: P, r: P :: c.SumAt(p, r))
    && (forall p: P, r: P :: c.InjectiveAt(p, r))
  }

  // The coordinate pair e stands for the point p.
  ghost predicate At<P>(c: Curve<P>, e: Coords, p: P) {
    c.params.Same(e, c.Affine(p))
  }

  ghost predicate PointExists<P(!new)>(c: Curve<P>, e: Coords) {
    c.params.OnCurve(e) ==> exists p: P :: At(c, e, p)
  }

  // Every solution of the curve equation is a point of the group.
  ghost predicate HasAllPoints<P(!new)>(c: Curve<P>) {
    forall e: Coords :: PointExists(c, e)
  }

  // The Montgomery pair m stands for the point p, which has an image there.
  ghost predicate MontAt<P>(c: Curve<P>, m: Mont, p: P) {
    && !c.params.field.Eq(c.u(p), 0)
    && IsMontgomery(c.params, c.Affine(p), m)
  }

  lemma SameSym(c: Jubjub, p: Coords, r: Coords)
    requires c.Same(p, r)
    ensures c.Same(r, p)
  {
    CongSym(c.field.q, p.u, r.u);
    CongSym(c.field.q, p.v, r.v);
  }

  lemma SameTrans(c: Jubjub, p: Coords, r: Coords, t: Coords)
    requires c.Same(p, r) && c.Same(r, t)
    ensures c.Same(p, t)
  {
    CongTrans(c.field.q, p.u, r.u, t.u);
    CongTrans(c.field.q, p.v, r.v, t.v);
  }

  lemma AffineAt<P>(c: Curve<P>, p: P)
    ensures At(c, c.Affine(p), p)
  {
    CongRefl(c.params.field.q, c.u(p));
    CongRefl(c.params.field.q, c.v(p));
  }

  // A coordinate pair stands for at most one point.
  lemma AtUnique<P(!new)>(c: Curve<P>, e: Coords, p: P, r: P)
    requires IsCurve(c) && At(c, e, p) && At(c, e, r)
    ensures p == r
  {
    SameSym(c.params, e, c.Affine(p));
    SameTrans(c.params, c.Affine(p), e, c.Affine(r));
    assert c.InjectiveAt(p, r);
  }

  // Equations over coordinates do not depend on the representatives.
  lemma CrossTermSame(c: Jubjub, p1: Coords, r1: Coords, p2: Coords, r2: Coords)
    requires c.Same(p1, r1) && c.Same(p2, r2)
    ensures c.field.Eq(c.CrossTerm(p1, p2), c.CrossTerm(r1, r2))
    ensures c.field.Eq(p1.u * p2.v + p1.v * p2.u, r1.u * r2.v + r1.v * r2.u)
    ensures c.field.Eq(p1.v * p2.v + p1.u * p2.u, r1.v * r2.v + r1.u * r2.u)
  {
    var q := c.field.q;
    CongMul(q, p1.u, r1.u, p2.v, r2.v);
    CongMul(q, p1.v, r1.v, p2.u, r2.u);
    CongMul(q, p1.v, r1.v, p2.v, r2.v);
    CongMul(q, p1.u, r1.u, p2.u, r2.u);
    CongAdd(q, p1.u * p2.v, r1.u * r2.v, p1.v * p2.u, r1.v * r2.u);
    CongAdd(q, p1.v * p2.v, r1.v * r2.v, p1.u * p2.u, r1.u * r2.u);
    CongMul(q, p2.v, r2.v, p1.u, r1.u);
    CongMul(q, p2.u, r2.u, p1.v, r1.v);
    CongScale(q, c.d, p2.v * p1.u, r2.v * r1.u);
    CongMul(q, c.d * (p2.v * p1.u), c.d * (r2.v * r1.u), p2.u * p1.v, r2.u * r1.v);
  }

  lemma SumSame(c: Jubjub, p1: Coords, r1: Coords, p2: Coords, r2: Coords, p3: Coords)
    requires c.Same(p1, r1) && c.Same(p2, r2) && c.IsSum(p1, p2, p3)
    ensures c.IsSum(r1, r2, p3)
  {
    CrossTermSame(c, p1, r1, p2, r2);
    SwapQuotient(c.field.q, 1, c.CrossTerm(p1, p2), c.CrossTerm(r1, r2), p3.u,
                 p1.u * p2.v + p1.v * p2.u, r1.u * r2.v + r1.v * r2.u);
    SwapQuotient(c.field.q, -1, c.CrossTerm(p1, p2), c.CrossTerm(r1, r2), p3.v,
                 p1.v * p2.v + p1.u * p2.u, r1.v * r2.v + r1.u * r2.u);
  }

  lemma SwapQuotient(q: int, sign: int, k: int, l: int, x: int, n: int, m: int)
    requires Cong(q, k, l) && Cong(q, n, m) && Cong(q, (1 + sign * k) * x, n)
    ensures Cong(q, (1 + sign * l) * x, m)
  {
    CongScale(q, sign * x, k, l);
    CongSub(q, (1 + sign * k) * x, n, (sign * x) * k, (sign * x) * l);
    QuotientTerms(sign, k, l, x);
    CongRefl(q, (sign * x) * l);
    CongAdd(q, x, n - (sign * x) * l, (sign * x) * l, (sign * x) * l);
    CongTrans(q, (1 + sign * l) * x, n, m);
  }

  lemma QuotientTerms(sign: int, k: int, l: int, x: int)
    ensures (1 + sign * k) * x - (sign * x) * k == x
    ensures (1 + sign * l) * x == x + (sign * x) * l
  {
  }

  // Solutions of the addition equations, for operands standing for p and r, stand for p + r.
  lemma SumIsAt<P(!new)>(c: Curve<P>, e1: Coords, p: P, e2: Coords, r: P, e3: Coords)
    requires IsCurve(c) && At(c, e1, p) && At(c, e2, r)
    ensures c.params.IsSum(e1, e2, e3) <==> At(c, e3, c.group.add(p, r))
  {
    var g := c.params;
    assert c.SumAt(p, r) && c.OnCurveAt(p) && c.OnCurveAt(r);
    g.SumUnique(c.Affine(p), c.Affine(r), c.Affine(c.group.add(p, r)), e3);
    if g.IsSum(e1, e2, e3) {
      SumSame(g, e1, c.Affine(p), e2, c.Affine(r), e3);
      SameSym(g, c.Affine(c.group.add(p, r)), e3);
    }
    if At(c, e3, c.group.add(p, r)) {
      SameSym(g, e3, c.Affine(c.group.add(p, r)));
      SameSym(g, e1, c.Affine(p));
      SameSym(g, e2, c.Affine(r));
      SumSame(g, c.Affine(p), e1, c.Affine(r), e2, e3);
    }
  }

  // The denominators of the sum of represented points are non-zero.
  lemma RepresentedDenominators<P(!new)>(c: Curve<P>, e1: Coords, p: P, e2: Coords, r: P)
    requires IsCurve(c) && At(c, e1, p) && At(c, e2, r)
    ensures !c.params.field.Eq(1 + c.params.CrossTerm(e1, e2), 0)
    ensures !c.params.field.Eq(1 - c.params.CrossTerm(e1, e2), 0)
  {
    var g, q := c.params, c.params.field.q;
    var k, l := g.CrossTerm(e1, e2), g.CrossTerm(c.Affine(p), c.Affine(r));
    assert c.OnCurveAt(p) && c.OnCurveAt(r);
    g.DenominatorsNonZero(c.Affine(p), c.Affine(r));
    CrossTermSame(g, e1, c.Affine(p), e2, c.Affine(r));
    CongRefl(q, 1);
    CongSym(q, k, l);
    CongAdd(q, 1, 1, l, k);
    CongSub(q, 1, 1, l, k);
    if g.field.Eq(1 + k, 0) { CongTrans(q, 1 + l, 1 + k, 0); }
    if g.field.Eq(1 - k, 0) { CongTrans(q, 1 - l, 1 - k, 0); }
  }

  // A point with u == 0 has order one or two.
  lemma ZeroUHasOrderTwo<P(!new)>(c: Curve<P>, p: P)
    requires IsCurve(c) && c.params.field.Eq(c.u(p), 0)
    ensures Mul(c.group, 2, p) == c.group.zero
  {
    var g, q, e := c.params, c.params.field.q, c.Affine(p);
    assert c.OnCurveAt(p) && c.SumAt(p, p);
    ZeroU(g, e);
    if g.field.Eq(e.v, 1) { CongSquare(q, e.v, 1); } else { CongSquare(q, e.v, -1); }
    AffineAt(c, p);
    ZeroUTerms(q, g.d, e.u, e.v);
    DoubleOfZeroU(g, e);
    SumIsAt(c, e, p, e, p, Coords(0, 1));
    SameSym(g, c.Affine(c.group.zero), Coords(0, 1));
    AtUnique(c, Coords(0, 1), c.group.add(p, p), c.group.zero);
    MulOne(c.group, p);
  }

  lemma ZeroUTerms(q: int, d: int, u: int, v: int)
    requires Cong(q, u, 0) && Cong(q, v * v, 1)
    ensures Cong(q, (d * (v * u)) * (u * v), 0)
    ensures Cong(q, v * u + v * u, 0) && Cong(q, v * v + u * u, 1)
  {
    assert u * v == v * u;
    CongScale(q, v, u, 0);
    CongScale(q, d * (v * u), u * v, 0);
    CongAdd(q, v * u, 0, v * u, 0);
    CongSquare(q, u, 0);
    CongAdd(q, v * v, 1, u * u, 0);
  }

  lemma DoubleOfZeroU(g: Jubjub, e: Coords)
    requires g.field.Eq((g.d * (e.v * e.u)) * (e.u * e.v), 0)
    requires g.field.Eq(e.v * e.u + e.v * e.u, 0) && g.field.Eq(e.v * e.v + e.u * e.u, 1)
    ensures g.IsSum(e, e, Coords(0, 1))
  {
    var q, k := g.field.q, g.CrossTerm(e, e);
    assert e.u * e.v == e.v * e.u;
    CongSym(q, e.v * e.u + e.v * e.u, 0);
    CongSym(q, e.v * e.v + e.u * e.u, 1);
    CongRefl(q, 1);
    CongSub(q, 1, 1, k, 0);
    CongTrans(q, 1 - k, 1, e.v * e.v + e.u * e.u);
  }

  // Equal Montgomery x-coordinates leave only the point and its negation.
  lemma MontSameX<P(!new)>(c: Curve<P>, m1: Mont, p: P, m2: Mont, r: P)
    requires IsCurve(c) && MontAt(c, m1, p) && MontAt(c, m2, r)
    ensures c.params.field.Eq(m1.x, m2.x) <==> p == r || p == c.group.neg(r)
  {
    var g := c.params;
    assert c.OnCurveAt(p) && c.OnCurveAt(r);
    SameX(g, c.Affine(p), m1, c.Affine(r), m2);
    var minus := Coords(-c.u(r), c.v(r));
    AffineAt(c, p);
    if g.Same(c.Affine(p), c.Affine(r)) {
      assert c.InjectiveAt(p, r);
    }
    if g.Same(c.Affine(p), minus) {
      SameSym(g, c.Affine(c.group.neg(r)), minus);
      SameTrans(g, c.Affine(p), minus, c.Affine(c.group.neg(r)));
      assert c.InjectiveAt(p, c.group.neg(r));
    }
  }
}
