/** The Montgomery form of Jubjub: the change of coordinates, and the incomplete chord addition
that the circuit enforces, proved to agree with the complete Edwards addition. */
module MontgomeryCurve {
  import opened Residues
  import opened EdwardsCurve

  datatype Mont = Mont(x: int, y: int)

  // x = (1 + v) / (1 - v) and y = scale * x / u, without the divisions.
  ghost predicate IsMontgomery(c: Jubjub, p: Coords, m: Mont) {
    c.field.Eq((1 - p.v) * m.x, 1 + p.v) && c.field.Eq(p.u * m.y, c.scale * m.x)
  }

  ghost function MontRhs(c: Jubjub, x: int): int {
    x * (x * x + c.montA * x + 1)
  }

  // The equations enforced by the Montgomery addition gadget, with its slope wire.
  ghost predicate ChordConstraints(c: Jubjub, m1: Mont, m2: Mont, slope: int, m3: Mont) {
    && c.field.Eq((m2.x - m1.x) * slope, m2.y - m1.y)
    && c.field.Eq(slope * slope, c.montA + m1.x + m2.x + m3.x)
    && c.field.Eq((m1.x - m3.x) * slope, m3.y + m1.y)
  }

  // The equations enforced by the conversion to Edwards form.
  ghost predicate IntoEdwardsConstraints(c: Jubjub, m: Mont, p: Coords) {
    && c.field.Eq(m.y * p.u, c.scale * m.x)
    && c.field.Eq((m.x + 1) * p.v, m.x - 1)
  }

  // (1 + d) * scale^2 == -4, so neither factor vanishes.
  lemma ScaleNonZero(c: Jubjub)
    requires c.Valid()
    ensures !c.field.Eq(c.scale, 0) && !c.field.Eq(1 + c.d, 0)
  {
    var q, ss := c.field.q, c.scale * c.scale;
    Combine2(q, (1 + c.d) * ss, -4, 1, ss, -(c.montA + 2), 1, c.d * ss, c.montA - 2);
    c.field.SmallNonZero(2);
    c.field.NonZeroProduct(-2, 2);
    c.field.NonZeroFactors(1 + c.d, ss, -4);
    CongRefl(q, ss);
    c.field.NonZeroFactors(c.scale, c.scale, ss);
  }

  // On the curve, u == 0 exactly at the identity and at the point of order two.
  lemma ZeroU(c: Jubjub, p: Coords)
    requires c.Valid() && c.OnCurve(p)
    ensures c.field.Eq(p.u, 0) <==> c.field.Eq(p.v, 1) || c.field.Eq(p.v, -1)
  {
    if c.field.Eq(p.u, 0) {
      ZeroUForward(c, p);
    }
    if c.field.Eq(p.v, 1) || c.field.Eq(p.v, -1) {
      if c.field.Eq(p.v, 1) { CongSquare(c.field.q, p.v, 1); } else { CongSquare(c.field.q, p.v, -1); }
      ZeroUBackward(c, p);
    }
  }

  lemma ZeroUForward(c: Jubjub, p: Coords)
    requires c.Valid() && c.OnCurve(p) && c.field.Eq(p.u, 0)
    ensures c.field.Eq(p.v, 1) || c.field.Eq(p.v, -1)
  {
    var q, uu, vv := c.field.q, p.u * p.u, p.v * p.v;
    CongSquare(q, p.u, 0);
    UnitPolynomial(c.d, uu, vv);
    Combine2(q, vv, 1 * 1, 1, vv - uu, 1 + c.d * uu * vv, 1 + c.d * vv, uu, 0 * 0);
    c.field.SquareRoots(p.v, 1);
  }

  lemma ZeroUBackward(c: Jubjub, p: Coords)
    requires c.Valid() && c.OnCurve(p) && c.field.Eq(p.v * p.v, 1)
    ensures c.field.Eq(p.u, 0)
  {
    var q, uu, vv := c.field.q, p.u * p.u, p.v * p.v;
    ScaleNonZero(c);
    UnitPolynomial(c.d, uu, vv);
    Combine2(q, (1 + c.d) * uu, 0, -1, vv - uu, 1 + c.d * uu * vv, 1 - c.d * uu, vv, 1);
    c.field.ZeroProduct(1 + c.d, uu);
    if !c.field.Eq(p.u, 0) { c.field.ZeroProduct(p.u, p.u); }
  }

  lemma UnitPolynomial(d: int, s: int, w: int)
    ensures w - 1 == 1 * (w - s - (1 + d * s * w)) + (1 + d * w) * s
    ensures (1 + d) * s == -1 * (w - s - (1 + d * s * w)) + (1 - d * s) * (w - 1)
  {
    assert d * s * w == (d * w) * s;
  }

  // Away from those two points, every denominator of the change of coordinates is non-zero.
  lemma MontgomeryNonZero(c: Jubjub, p: Coords, m: Mont)
    requires c.Valid() && c.OnCurve(p) && !c.field.Eq(p.u, 0) && IsMontgomery(c, p, m)
    ensures !c.field.Eq(1 - p.v, 0) && !c.field.Eq(m.x, 0) && !c.field.Eq(m.x + 1, 0) && !c.field.Eq(m.y, 0)
  {
    ScaleNonZero(c);
    ZeroU(c, p);
    CongDiff(c.field.q, p.v, -1);
    NonZeroX(c.field, p.v, m.x);
    c.field.NonZeroProduct(c.scale, m.x);
    c.field.NonZeroFactors(p.u, m.y, c.scale * m.x);
  }

  lemma NonZeroX(f: Field, v: int, x: int)
    requires f.Valid() && !f.Eq(1 + v, 0) && f.Eq((1 - v) * x, 1 + v)
    ensures !f.Eq(1 - v, 0) && !f.Eq(x, 0) && !f.Eq(x + 1, 0)
  {
    f.NonZeroFactors(1 - v, x, 1 + v);
    CongRefl(f.q, 1 - v);
    CongAdd(f.q, (1 - v) * x, 1 + v, 1 - v, 1 - v);
    assert (1 - v) * (x + 1) == (1 - v) * x + (1 - v);
    f.SmallNonZero(2);
    f.NonZeroFactors(1 - v, x + 1, 2);
  }

  lemma InverseMap(c: Jubjub, p: Coords, m: Mont)
    ensures IsMontgomery(c, p, m) <==> IntoEdwardsConstraints(c, m, p)
  {
    var q := c.field.q;
    CongRefl(q, 0);
    assert p.u * m.y == m.y * p.u;
    if IsMontgomery(c, p, m) {
      Combine2(q, (m.x + 1) * p.v, m.x - 1, -1, (1 - p.v) * m.x, 1 + p.v, 0, 0, 0);
    }
    if IntoEdwardsConstraints(c, m, p) {
      Combine2(q, (1 - p.v) * m.x, 1 + p.v, -1, (m.x + 1) * p.v, m.x - 1, 0, 0, 0);
    }
  }

  // The conversion constraints have the original point as their only solution.
  lemma IntoEdwardsUnique(c: Jubjub, p: Coords, m: Mont, r: Coords)
    requires c.Valid() && c.OnCurve(p) && !c.field.Eq(p.u, 0) && IsMontgomery(c, p, m)
    ensures IntoEdwardsConstraints(c, m, r) <==> c.Same(p, r)
  {
    MontgomeryNonZero(c, p, m);
    InverseMap(c, p, m);
    c.field.QuotientUnique(m.y, c.scale * m.x, p.u, r.u);
    c.field.QuotientUnique(m.x + 1, m.x - 1, p.v, r.v);
  }

  // Equal x means equal points up to sign.
  lemma SameX(c: Jubjub, p1: Coords, m1: Mont, p2: Coords, m2: Mont)
    requires c.Valid() && c.OnCurve(p1) && !c.field.Eq(p1.u, 0) && IsMontgomery(c, p1, m1)
    requires c.OnCurve(p2) && !c.field.Eq(p2.u, 0) && IsMontgomery(c, p2, m2)
    ensures c.field.Eq(m1.x, m2.x) <==> c.Same(p1, p2) || c.Same(p1, Coords(-p2.u, p2.v))
  {
    if c.field.Eq(m1.x, m2.x) {
      SameXSameV(c, p1, m1, p2, m2);
      SameVSameU(c, p1, p2);
    }
    if c.field.Eq(p1.v, p2.v) {
      SameVSameX(c, p1, m1, p2, m2);
    }
  }

  // (x + 1) v == x - 1 determines v.
  lemma SameXSameV(c: Jubjub, p1: Coords, m1: Mont, p2: Coords, m2: Mont)
    requires c.Valid() && c.OnCurve(p1) && !c.field.Eq(p1.u, 0) && IsMontgomery(c, p1, m1)
    requires IsMontgomery(c, p2, m2) && c.field.Eq(m1.x, m2.x)
    ensures c.field.Eq(p1.v, p2.v)
  {
    MontgomeryNonZero(c, p1, m1);
    InverseMap(c, p1, m1);
    InverseMap(c, p2, m2);
    ReplaceX(m1.x, m2.x, p2.v);
    Combine2(c.field.q, (m1.x + 1) * p2.v, m1.x - 1, p2.v - 1, m1.x, m2.x, 1, (m2.x + 1) * p2.v, m2.x - 1);
    c.field.QuotientUnique(m1.x + 1, m1.x - 1, p1.v, p2.v);
  }

  lemma SameVSameX(c: Jubjub, p1: Coords, m1: Mont, p2: Coords, m2: Mont)
    requires c.Valid() && c.OnCurve(p1) && !c.field.Eq(p1.u, 0) && IsMontgomery(c, p1, m1)
    requires IsMontgomery(c, p2, m2) && c.field.Eq(p1.v, p2.v)
    ensures c.field.Eq(m1.x, m2.x)
  {
    MontgomeryNonZero(c, p1, m1);
    ReplaceV(p1.v, p2.v, m2.x);
    Combine2(c.field.q, (1 - p1.v) * m2.x, 1 + p1.v, -(m2.x + 1), p1.v, p2.v, 1, (1 - p2.v) * m2.x, 1 + p2.v);
    c.field.QuotientUnique(1 - p1.v, 1 + p1.v, m1.x, m2.x);
  }

  lemma ReplaceX(x1: int, x2: int, v: int)
    ensures (x1 + 1) * v - (x1 - 1) == (v - 1) * (x1 - x2) + 1 * ((x2 + 1) * v - (x2 - 1))
  {
  }

  lemma ReplaceV(v1: int, v2: int, x: int)
    ensures (1 - v1) * x - (1 + v1) == -(x + 1) * (v1 - v2) + 1 * ((1 - v2) * x - (1 + v2))
  {
  }

  lemma SameVSameU(c: Jubjub, p1: Coords, p2: Coords)
    requires c.Valid() && c.OnCurve(p1) && c.OnCurve(p2) && c.field.Eq(p1.v, p2.v)
    ensures c.field.Eq(p1.u, p2.u) || c.field.Eq(p1.u, -p2.u)
  {
    var q, w, s, t := c.field.q, p1.v * p1.v, p1.u * p1.u, p2.u * p2.u;
    var w2 := p2.v * p2.v;
    CongSquare(q, p1.v, p2.v);
    EvenDenominator(c, p1.v);
    CongRefl(q, w);
    CurveForU(q, c.d, s, w, w);
    CongSym(q, p1.v * p1.v, p2.v * p2.v);
    CurveForU(q, c.d, t, w2, w);
    c.field.QuotientUnique(1 + c.d * w, w - 1, s, t);
    c.field.SquareRoots(p1.u, p2.u);
  }

  // The curve equation, solved for the square of u.
  lemma CurveForU(q: int, d: int, s: int, w: int, w': int)
    requires Cong(q, w - s, 1 + d * s * w) && Cong(q, w, w')
    ensures Cong(q, (1 + d * w') * s, w' - 1)
  {
    CurveForUIdentity(d, s, w, w');
    Combine2(q, (1 + d * w') * s, w' - 1, -1, w - s, 1 + d * s * w, 1 - d * s, w, w');
  }

  lemma CurveForUIdentity(d: int, s: int, w: int, w': int)
    ensures (1 + d * w') * s - (w' - 1) == -1 * (w - s - (1 + d * s * w)) + (1 - d * s) * (w - w')
  {
    assert (d * w') * s == (d * s) * w';
  }

  lemma ZeroTerm(q: int, d: int, v: int)
    requires Cong(q, v, 0)
    ensures Cong(q, d * (v * v), 0)
  {
    CongScale(q, v, v, 0);
    CongScale(q, d, v * v, 0);
  }

  lemma SameOpposite(q: int, a: int, x: int)
    requires Cong(q, a, -1) && Cong(q, 1 + x, 0)
    ensures Cong(q, a, x)
  {
    CongSub(q, a, -1, 1 + x, 0);
    CongRefl(q, 1 + x);
    CongAdd(q, a - (1 + x), -1, 1 + x, 1 + x);
  }

  // 1 + d v^2 never vanishes, since d is not a square and -1 is one.
  lemma EvenDenominator(c: Jubjub, v: int)
    requires c.Valid()
    ensures !c.field.Eq(1 + c.d * (v * v), 0)
  {
    var q, x := c.field.q, c.d * (v * v);
    if c.field.Eq(1 + x, 0) {
      if c.field.Eq(v, 0) {
        ZeroTerm(q, c.d, v);
        CongSub(q, 1 + x, 0, x, 0);
        c.field.SmallNonZero(1);
      } else {
        SameOpposite(q, c.i * c.i, x);
        c.NotSquareAt(c.i * c.field.inv(v));
        c.RatioIsRoot(c.i, v);
      }
    }
  }

  // The Montgomery coordinates satisfy y^2 = x^3 + A x^2 + x.
  lemma MontgomeryEquation(c: Jubjub, p: Coords, m: Mont)
    requires c.Valid() && c.OnCurve(p) && !c.field.Eq(p.u, 0) && IsMontgomery(c, p, m)
    ensures c.field.Eq(m.y * m.y, MontRhs(c, m.x))
  {
    var q, e := c.field.q, 1 - p.v;
    var uu, ss, t := p.u * p.u, c.scale * c.scale, m.x * m.x + c.montA * m.x + 1;
    MontgomeryNonZero(c, p, m);
    CongSquare(q, p.u * m.y, c.scale * m.x);
    MulSwap(p.u, m.y, p.u, m.y);
    MulSwap(c.scale, m.x, c.scale, m.x);
    QuadraticFactor(c, p, m);
    ScaledEquation(c.field, e, m.x, p.v, uu, t, ss);
    c.field.NonZeroProduct(p.u, p.u);
    CongRefl(q, ss * (m.x * m.x));
    c.field.CancelVia(uu, m.y * m.y, m.x * t, ss * (m.x * m.x), ss * (m.x * m.x));
  }

  // Cancels the cleared denominator e = 1 - v from uu x t == ss x^2.
  lemma ScaledEquation(f: Field, e: int, x: int, v: int, uu: int, t: int, ss: int)
    requires f.Valid() && !f.Eq(e, 0) && f.Eq(e * x, 1 + v)
    requires f.Eq((e * e) * (uu * t), ss * (e * (1 + v)))
    ensures f.Eq(uu * (x * t), ss * (x * x))
  {
    var q := f.q;
    CongScale(q, x, (e * e) * (uu * t), ss * (e * (1 + v)));
    CongSym(q, e * x, 1 + v);
    CongScale(q, x * (ss * e), 1 + v, e * x);
    QuadraticTerms(x, e, uu, t, ss, v);
    CongTrans(q, (e * e) * (uu * (x * t)), x * (ss * e) * (1 + v), (e * e) * (ss * (x * x)));
    f.NonZeroProduct(e, e);
    f.Cancel(e * e, uu * (x * t), ss * (x * x));
  }

  lemma QuadraticTerms(x: int, e: int, uu: int, t: int, ss: int, v: int)
    ensures x * ((e * e) * (uu * t)) == (e * e) * (uu * (x * t))
    ensures x * (ss * (e * (1 + v))) == x * (ss * e) * (1 + v)
    ensures x * (ss * e) * (e * x) == (e * e) * (ss * (x * x))
  {
    Reorder(x, e * e, uu, t);
    Reorder2(x, ss, e, 1 + v);
    Reorder3(x, ss, e);
  }

  lemma Reorder(a: int, b: int, c: int, d: int)
    ensures a * (b * (c * d)) == b * (c * (a * d))
  {
  }

  lemma Reorder2(a: int, b: int, c: int, d: int)
    ensures a * (b * (c * d)) == a * (b * c) * d
  {
  }

  lemma Reorder3(x: int, s: int, e: int)
    ensures x * (s * e) * (e * x) == (e * e) * (s * (x * x))
  {
  }

  // (1 - v)^2 u^2 (x^2 + A x + 1) == scale^2 (1 - v)(1 + v).
  lemma QuadraticFactor(c: Jubjub, p: Coords, m: Mont)
    requires c.Valid() && c.OnCurve(p) && c.field.Eq((1 - p.v) * m.x, 1 + p.v)
    ensures
      var e := 1 - p.v;
      c.field.Eq((e * e) * ((p.u * p.u) * (m.x * m.x + c.montA * m.x + 1)), (c.scale * c.scale) * (e * (1 + p.v)))
  {
    var q, e, ss := c.field.q, 1 - p.v, c.scale * c.scale;
    var uu, vv := p.u * p.u, p.v * p.v;
    var t := m.x * m.x + c.montA * m.x + 1;
    QuadraticNumerator(c, p.v, m.x);
    CongScale(q, uu, (e * e) * t, -ss - (c.d * ss) * vv);
    // u^2 (1 + d v^2) == v^2 - 1.
    QuadraticTail(uu, vv, c.d, ss, e, t, p.v);
    CongRefl(q, 0);
    Combine2(q, uu * (-ss - (c.d * ss) * vv), ss * (e * (1 + p.v)), ss, vv - uu, 1 + c.d * uu * vv, 0, 0, 0);
    CongTrans(q, uu * ((e * e) * t), uu * (-ss - (c.d * ss) * vv), ss * (e * (1 + p.v)));
  }

  // Clearing the denominators of x leaves -scale^2 (1 + d v^2).
  lemma QuadraticNumerator(c: Jubjub, v: int, x: int)
    requires c.Valid() && c.field.Eq((1 - v) * x, 1 + v)
    ensures
      var e, ss := 1 - v, c.scale * c.scale;
      c.field.Eq((e * e) * (x * x + c.montA * x + 1), -ss - (c.d * ss) * (v * v))
  {
    var q, e, ss, n := c.field.q, 1 - v, c.scale * c.scale, 1 + v;
    var g := n * n + (c.montA * e) * n + e * e;
    ClearQuadratic(q, e, x, n, c.montA);
    QuadraticValue(v, c.montA);
    ValueIdentity(c.montA, ss, c.d * ss, v * v);
    Combine2(q, g, -ss - (c.d * ss) * (v * v), 1, ss, -(c.montA + 2), v * v, c.d * ss, c.montA - 2);
    CongTrans(q, (e * e) * (x * x + c.montA * x + 1), g, -ss - (c.d * ss) * (v * v));
  }

  lemma ClearQuadratic(q: int, e: int, x: int, n: int, a: int)
    requires Cong(q, e * x, n)
    ensures Cong(q, (e * e) * (x * x + a * x + 1), n * n + (a * e) * n + e * e)
  {
    CongSquare(q, e * x, n);
    CongScale(q, a * e, e * x, n);
    CongRefl(q, e * e);
    CongAdd(q, (e * x) * (e * x), n * n, (a * e) * (e * x), (a * e) * n);
    CongAdd(q, (e * x) * (e * x) + (a * e) * (e * x), n * n + (a * e) * n, e * e, e * e);
    ClearedQuadratic(e, x, a);
  }

  lemma ValueIdentity(a: int, ss: int, dss: int, w: int)
    ensures (a + 2) - (a - 2) * w - (-ss - dss * w) == 1 * (ss - -(a + 2)) + w * (dss - (a - 2))
  {
  }

  lemma ClearedQuadratic(e: int, x: int, a: int)
    ensures (e * e) * (x * x + a * x + 1) == (e * x) * (e * x) + (a * e) * (e * x) + e * e
  {
    MulSwap(e, x, e, x);
    assert (e * e) * (a * x) == (a * e) * (e * x);
  }

  lemma QuadraticValue(v: int, a: int)
    ensures (1 + v) * (1 + v) + (a * (1 - v)) * (1 + v) + (1 - v) * (1 - v) == (a + 2) - (a - 2) * (v * v)
  {
  }

  lemma QuadraticTail(uu: int, vv: int, d: int, ss: int, e: int, t: int, v: int)
    requires e == 1 - v && vv == v * v
    ensures uu * ((e * e) * t) == (e * e) * (uu * t)
    ensures uu * (-ss - (d * ss) * vv) - ss * (e * (1 + v)) == ss * (vv - uu - (1 + d * uu * vv))
  {
    assert e * (1 + v) == 1 - vv;
    assert uu * ((d * ss) * vv) == ss * (d * uu * vv);
  }
}
