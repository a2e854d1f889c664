/** The twisted Edwards curve -u^2 + v^2 = 1 + d u^2 v^2 over a prime field: completeness of the
addition law that the circuit enforces, and uniqueness of its solutions. */
module EdwardsCurve {
  import opened Residues
  import opened Powers

  datatype Coords = Coords(u: int, v: int)

  /** Constants of Jubjub: the coefficient d, a square root of -1, the scaling factor between the
  Edwards and the Montgomery form, and the Montgomery coefficient A. */
  datatype Jubjub = Jubjub(field: Field, d: int, i: int, scale: int, montA: int) {

    ghost predicate DIsNotSquare() {
      forall x: int :: NotRootOfD(x)
    }

    ghost predicate NotRootOfD(x: int) {
      !Cong(field.q, x * x, d)
    }

    ghost predicate Valid() {
      && field.Valid()
      && field.Eq(i * i, -1)
      && DIsNotSquare()
      && field.Eq(scale * scale, -(montA + 2))
      && field.Eq(d * (scale * scale), montA - 2)
    }

    ghost predicate OnCurve(p: Coords) {
      field.Eq(p.v * p.v - p.u * p.u, 1 + d * (p.u * p.u) * (p.v * p.v))
    }

    ghost predicate Same(p: Coords, r: Coords) {
      field.Eq(p.u, r.u) && field.Eq(p.v, r.v)
    }

    ghost function CrossTerm(p1: Coords, p2: Coords): int {
      d * (p2.v * p1.u) * (p2.u * p1.v)
    }

    // The two equations that define the sum of p1 and p2.
    ghost predicate IsSum(p1: Coords, p2: Coords, p3: Coords) {
      var c := CrossTerm(p1, p2);
      && field.Eq((1 + c) * p3.u, p1.u * p2.v + p1.v * p2.u)
      && field.Eq((1 - c) * p3.v, p1.v * p2.v + p1.u * p2.u)
    }

    // The equations enforced by the addition gadget, with its intermediate wires.
    ghost predicate AddConstraints(p1: Coords, p2: Coords, bigU: int, a: int, b: int, c: int, p3: Coords) {
      && field.Eq((p1.u + p1.v) * (p2.u + p2.v), bigU)
      && field.Eq(p2.v * p1.u, a)
      && field.Eq(p2.u * p1.v, b)
      && field.Eq((d * a) * b, c)
      && field.Eq((1 + c) * p3.u, a + b)
      && field.Eq((1 - c) * p3.v, bigU - a - b)
    }

    // The equations enforced by the doubling gadget.
    ghost predicate DoubleConstraints(p: Coords, t: int, a: int, c: int, p3: Coords) {
      && field.Eq((p.u + p.v) * (p.u + p.v), t)
      && field.Eq(p.u * p.v, a)
      && field.Eq((d * a) * a, c)
      && field.Eq((1 + c) * p3.u, a + a)
      && field.Eq((1 - c) * p3.v, t - a - a)
    }

    // If the cross term squares to one, it gives a square root of d unless v2 + j u2 vanishes.
    lemma SquareRootOfD(p1: Coords, p2: Coords, j: int)
      requires Valid() && OnCurve(p1) && OnCurve(p2) && field.Eq(j * j, -1)
      requires field.Eq(CrossTerm(p1, p2) * CrossTerm(p1, p2), 1)
      ensures field.Eq((p1.u * p1.v) * (j * p2.u + p2.v), 0)
    {
      var q, c := field.q, CrossTerm(p1, p2);
      var p, r := p1.u * p1.v, p2.u * p2.v;
      var x, z := j * p1.u + c * p1.v, p * (j * p2.u + p2.v);
      var t1, t2 := p1.v * p1.v - p1.u * p1.u, p2.v * p2.v - p2.u * p2.u;
      CrossTermShape(p1, p2);
      CurveShape(p1);
      CurveShape(p2);
      RootIdentity(p1.u, p1.v, p2.u, p2.v, d, j);
      Combine4(q, x * x, d * (z * z),
               1, t1, 1 + d * (p * p),
               -(d * (p * p)), t2, 1 + d * (r * r),
               p1.u * p1.u - d * (p * p) * (p2.u * p2.u), j * j, -1,
               p1.v * p1.v - 1, c * c, 1);
      if !field.Eq(z, 0) {
        NotSquareAt(x * field.inv(z));
        RatioIsRoot(x, z);
      }
    }

    lemma NotSquareAt(x: int)
      requires Valid()
      ensures !field.Eq(x * x, d)
    {
      assert NotRootOfD(x);
    }

    // x * x == d * z * z makes d a square unless z vanishes.
    lemma RatioIsRoot(x: int, z: int)
      requires field.Valid() && field.Eq(x * x, d * (z * z)) && !field.Eq(z, 0)
      ensures field.Eq((x * field.inv(z)) * (x * field.inv(z)), d)
    {
      var q, w := field.q, field.inv(z);
      field.Inverse(z);
      CongSquare(q, z * w, 1);
      CongScale(q, w * w, x * x, d * (z * z));
      CongScale(q, d, (z * w) * (z * w), 1 * 1);
      MulSwap(x, w, x, w);
      ScaledSquare(w, d, z);
      CongTrans(q, (x * w) * (x * w), d * ((z * w) * (z * w)), d);
    }

    // The addition law is complete: its denominators never vanish on the curve.
    lemma DenominatorsNonZero(p1: Coords, p2: Coords)
      requires Valid() && OnCurve(p1) && OnCurve(p2)
      ensures !field.Eq(1 + CrossTerm(p1, p2), 0) && !field.Eq(1 - CrossTerm(p1, p2), 0)
    {
      var c := CrossTerm(p1, p2);
      if field.Eq(1 + c, 0) || field.Eq(1 - c, 0) {
        UnitSquare(field.q, c);
        CrossTermNonZero(p1, p2);
        CrossTermSquareNotOne(p1, p2);
      }
    }

    lemma CrossTermSquareNotOne(p1: Coords, p2: Coords)
      requires Valid() && OnCurve(p1) && OnCurve(p2)
      requires !field.Eq(p1.u * p1.v, 0) && !field.Eq(p2.u * p2.v, 0)
      ensures !field.Eq(CrossTerm(p1, p2) * CrossTerm(p1, p2), 1)
    {
      if field.Eq(CrossTerm(p1, p2) * CrossTerm(p1, p2), 1) {
        NegatedRoot();
        SquareRootOfD(p1, p2, i);
        SquareRootOfD(p1, p2, -i);
        field.ZeroProduct(p1.u * p1.v, i * p2.u + p2.v);
        field.ZeroProduct(p1.u * p1.v, -i * p2.u + p2.v);
        BothRoots(p2);
        CongScale(field.q, p2.u, p2.v, 0);
      }
    }

    lemma BothRoots(p: Coords)
      requires field.Valid() && field.Eq(i * p.u + p.v, 0) && field.Eq(-i * p.u + p.v, 0)
      ensures field.Eq(p.v, 0)
    {
      Combine2(field.q, 2 * p.v, 0, 1, i * p.u + p.v, 0, 1, -i * p.u + p.v, 0);
      field.SmallNonZero(2);
      field.ZeroProduct(2, p.v);
    }

    lemma NegatedRoot()
      requires Valid()
      ensures field.Eq(-i * -i, -1)
    {
      assert -i * -i == i * i;
    }

    lemma CrossTermNonZero(p1: Coords, p2: Coords)
      requires Valid() && field.Eq(CrossTerm(p1, p2) * CrossTerm(p1, p2), 1)
      ensures !field.Eq(p1.u * p1.v, 0) && !field.Eq(p2.u * p2.v, 0)
    {
      var c, p, r := CrossTerm(p1, p2), p1.u * p1.v, p2.u * p2.v;
      CrossTermShape(p1, p2);
      field.SmallNonZero(1);
      CrossTermFactor(d, p, r);
      CrossTermFactor(d, r, p);
      assert d * r * p == d * p * r by { CrossTermSwap(d, p, r); }
      field.NonZeroFactors(d * r * c, p, 1);
      field.NonZeroFactors(d * p * c, r, 1);
    }

    // Exactly one point solves the addition equations, and it is on the curve.
    lemma SumUnique(p1: Coords, p2: Coords, p3: Coords, p4: Coords)
      requires Valid() && OnCurve(p1) && OnCurve(p2)
      requires IsSum(p1, p2, p3)
      ensures IsSum(p1, p2, p4) <==> Same(p3, p4)
    {
      var c := CrossTerm(p1, p2);
      DenominatorsNonZero(p1, p2);
      field.QuotientUnique(1 + c, p1.u * p2.v + p1.v * p2.u, p3.u, p4.u);
      field.QuotientUnique(1 - c, p1.v * p2.v + p1.u * p2.u, p3.v, p4.v);
    }

    lemma SumOnCurve(p1: Coords, p2: Coords, p3: Coords)
      requires Valid() && OnCurve(p1) && OnCurve(p2) && IsSum(p1, p2, p3)
      ensures OnCurve(p3)
    {
      var c := CrossTerm(p1, p2);
      var n, m := p1.u * p2.v + p1.v * p2.u, p1.v * p2.v + p1.u * p2.u;
      var x, y := 1 + c, 1 - c;
      SumPolynomialVanishes(p1, p2);
      ClearDenominators(x, y, n, m, p3);
      DenominatorsNonZero(p1, p2);
      field.NonZeroProduct(x, y);
      field.NonZeroProduct(x * y, x * y);
      field.CancelVia((x * y) * (x * y), p3.v * p3.v - p3.u * p3.u, 1 + d * (p3.u * p3.u) * (p3.v * p3.v),
                      (x * x) * (m * m) - (y * y) * (n * n), (x * x) * (y * y) + d * (n * n) * (m * m));
    }

    // The polynomial of the sum is a combination of the two curve equations.
    lemma SumPolynomialVanishes(p1: Coords, p2: Coords)
      requires OnCurve(p1) && OnCurve(p2)
      ensures
        var c := CrossTerm(p1, p2);
        var n, m := p1.u * p2.v + p1.v * p2.u, p1.v * p2.v + p1.u * p2.u;
        var x, y := 1 + c, 1 - c;
        field.Eq((x * x) * (m * m) - (y * y) * (n * n), (x * x) * (y * y) + d * (n * n) * (m * m))
    {
      var p, r := p1.u * p1.v, p2.u * p2.v;
      var c, a, b := d * p * r, d * (p * p), d * (r * r);
      var t1, t2 := p1.v * p1.v - p1.u * p1.u, p2.v * p2.v - p2.u * p2.u;
      CrossTermShape(p1, p2);
      CurveShape(p1);
      CurveShape(p2);
      SumPolynomial(p1.u, p1.v, p2.u, p2.v, d);
      RootTerm1(d, p, r);
      SumRemainder(a, b, t1, t2, c);
      var n, m := p1.u * p2.v + p1.v * p2.u, p1.v * p2.v + p1.u * p2.u;
      var x, y := 1 + c, 1 - c;
      Combine2(field.q, (x * x) * (m * m) - (y * y) * (n * n), (x * x) * (y * y) + d * (n * n) * (m * m),
               t2 * (1 + a * b) - b * (t1 + 1 + a), t1, 1 + a,
               (1 + a) * (1 + a * b) - a * (t2 + 1 + b), t2, 1 + b);
    }

    // Multiplying the curve equation of p3 by the squared denominators.
    lemma ClearDenominators(x: int, y: int, n: int, m: int, p3: Coords)
      requires field.Eq(x * p3.u, n) && field.Eq(y * p3.v, m)
      ensures field.Eq(((x * y) * (x * y)) * (p3.v * p3.v - p3.u * p3.u), (x * x) * (m * m) - (y * y) * (n * n))
      ensures field.Eq(((x * y) * (x * y)) * (1 + d * (p3.u * p3.u) * (p3.v * p3.v)),
                       (x * x) * (y * y) + d * (n * n) * (m * m))
    {
      var q, u, v := field.q, p3.u, p3.v;
      CongSquare(q, x * u, n);
      CongSquare(q, y * v, m);
      CongMul(q, (x * u) * (x * u), n * n, (y * v) * (y * v), m * m);
      Cleared(x, y, u, v, d);
      CongScale(q, x * x, (y * v) * (y * v), m * m);
      CongScale(q, y * y, (x * u) * (x * u), n * n);
      CongSub(q, (x * x) * ((y * v) * (y * v)), (x * x) * (m * m), (y * y) * ((x * u) * (x * u)), (y * y) * (n * n));
      Associate(d, n * n, m * m);
      CongRefl(q, (x * x) * (y * y));
      CongScale(q, d, ((x * u) * (x * u)) * ((y * v) * (y * v)), (n * n) * (m * m));
      CongAdd(q, (x * x) * (y * y), (x * x) * (y * y),
              d * (((x * u) * (x * u)) * ((y * v) * (y * v))), d * ((n * n) * (m * m)));
    }

    // The wires of the addition gadget determine the sum, and nothing else satisfies them.
    lemma AddConstraintsSound(p1: Coords, p2: Coords, bigU: int, a: int, b: int, c: int, p3: Coords)
      requires AddConstraints(p1, p2, bigU, a, b, c, p3)
      ensures IsSum(p1, p2, p3)
    {
      var a0, b0, u0 := p2.v * p1.u, p2.u * p1.v, (p1.u + p1.v) * (p2.u + p2.v);
      Numerator(p1.u, p1.v, p2.u, p2.v);
      WiresSound(field.q, d, u0, bigU, a0, a, b0, b, c, p3.u, p3.v);
    }

    // The doubling gadget solves the same equations as adding a point to itself.
    lemma DoubleConstraintsSound(p: Coords, t: int, a: int, c: int, p3: Coords)
      requires DoubleConstraints(p, t, a, c, p3)
      ensures IsSum(p, p, p3)
    {
      assert p.v * p.u == p.u * p.v;
      AddConstraintsSound(p, p, t, a, a, c, p3);
    }

    lemma CrossTermShape(p1: Coords, p2: Coords)
      ensures CrossTerm(p1, p2) == d * (p1.u * p1.v) * (p2.u * p2.v)
    {
      assert (p2.v * p1.u) * (p2.u * p1.v) == (p1.u * p1.v) * (p2.u * p2.v);
      assert d * (p2.v * p1.u) * (p2.u * p1.v) == d * ((p2.v * p1.u) * (p2.u * p1.v));
      assert d * (p1.u * p1.v) * (p2.u * p2.v) == d * ((p1.u * p1.v) * (p2.u * p2.v));
    }

    lemma CurveShape(p: Coords)
      ensures d * (p.u * p.u) * (p.v * p.v) == d * ((p.u * p.v) * (p.u * p.v))
    {
      assert (p.u * p.u) * (p.v * p.v) == (p.u * p.v) * (p.u * p.v);
    }
  }

  lemma UnitSquare(q: int, c: int)
    requires Cong(q, 1 + c, 0) || Cong(q, 1 - c, 0)
    ensures Cong(q, c * c, 1)
  {
    if Cong(q, 1 + c, 0) {
      CongScale(q, c - 1, 1 + c, 0);
    } else {
      CongScale(q, -c - 1, 1 - c, 0);
    }
    DifferenceOfSquares(c);
    CongDiff(q, c * c, 1);
  }

  lemma DifferenceOfSquares(c: int)
    ensures (c - 1) * (1 + c) == c * c - 1
    ensures (-c - 1) * (1 - c) == c * c - 1
  {
  }

  // Replaces the wires a, b, c of a quotient equation by the values they are constrained to.
  lemma WireRatio(q: int, x: int, c0: int, c: int, a0: int, a: int, b0: int, b: int)
    requires Cong(q, a0, a) && Cong(q, b0, b) && Cong(q, c0, c) && Cong(q, (1 + c) * x, a + b)
    ensures Cong(q, (1 + c0) * x, a0 + b0)
  {
    Combine4(q, (1 + c0) * x, a0 + b0, x, c0, c, 1, (1 + c) * x, a + b, -1, a0, a, -1, b0, b);
  }

  // The sum equations follow from those of the wires, for any values a0, b0, u0 the wires carry.
  lemma WiresSound(q: int, d: int, u0: int, bigU: int, a0: int, a: int, b0: int, b: int, c: int, u: int, v: int)
    requires Cong(q, u0, bigU) && Cong(q, a0, a) && Cong(q, b0, b) && Cong(q, (d * a) * b, c)
    requires Cong(q, (1 + c) * u, a + b) && Cong(q, (1 - c) * v, bigU - a - b)
    ensures Cong(q, (1 + (d * a0) * b0) * u, a0 + b0)
    ensures Cong(q, (1 - (d * a0) * b0) * v, u0 - a0 - b0)
  {
    CongScale(q, d, a0, a);
    CongMul(q, d * a0, d * a, b0, b);
    CongTrans(q, (d * a0) * b0, (d * a) * b, c);
    WireRatio(q, u, (d * a0) * b0, c, a0, a, b0, b);
    CongSub(q, u0, bigU, a0, a);
    CongSub(q, u0 - a0, bigU - a, b0, b);
    WireDifference(q, v, (d * a0) * b0, c, u0 - a0 - b0, bigU - a - b);
  }

  lemma WireDifference(q: int, x: int, c0: int, c: int, n0: int, n: int)
    requires Cong(q, c0, c) && Cong(q, n0, n) && Cong(q, (1 - c) * x, n)
    ensures Cong(q, (1 - c0) * x, n0)
  {
    CongScale(q, -1, c0, c);
    CongRefl(q, 0);
    WireRatio(q, x, -1 * c0, -1 * c, n0, n, 0, 0);
  }

  lemma Numerator(u1: int, v1: int, u2: int, v2: int)
    ensures (u1 + v1) * (u2 + v2) - v2 * u1 - u2 * v1 == v1 * v2 + u1 * u2
  {
  }

  lemma CrossTermSwap(d: int, p: int, r: int)
    ensures d * r * p == d * p * r
  {
  }

  lemma CrossTermFactor(d: int, p: int, r: int)
    ensures d * r * (d * p * r) * p == (d * p * r) * (d * p * r)
  {
  }

  lemma Cleared(x: int, y: int, u: int, v: int, d: int)
    ensures ((x * y) * (x * y)) * (v * v - u * u) == (x * x) * ((y * v) * (y * v)) - (y * y) * ((x * u) * (x * u))
    ensures ((x * y) * (x * y)) * (1 + d * (u * u) * (v * v))
         == (x * x) * (y * y) + d * (((x * u) * (x * u)) * ((y * v) * (y * v)))
  {
    MulSwap(x, y, x, y);
    MulSwap(x, u, x, u);
    MulSwap(y, v, y, v);
    ClearedTerms(x * x, y * y, u * u, v * v, d);
  }

  lemma ClearedTerms(xx: int, yy: int, uu: int, vv: int, d: int)
    ensures (xx * yy) * (vv - uu) == xx * (yy * vv) - yy * (xx * uu)
    ensures (xx * yy) * (1 + d * uu * vv) == xx * yy + d * ((xx * uu) * (yy * vv))
  {
    assert (xx * yy) * (d * uu * vv) == d * ((xx * uu) * (yy * vv));
  }

  // With n, m the numerators of the sum, the curve equation of the sum reduces to one in the
  // curve polynomials t1, t2 of the operands.
  lemma SumPolynomial(u1: int, v1: int, u2: int, v2: int, d: int)
    ensures
      var p, r := u1 * v1, u2 * v2;
      var c, a, b := d * p * r, d * (p * p), d * (r * r);
      var n, m := u1 * v2 + v1 * u2, v1 * v2 + u1 * u2;
      var t1, t2 := v1 * v1 - u1 * u1, v2 * v2 - u2 * u2;
      var x, y := 1 + c, 1 - c;
      (x * x) * (m * m) - (y * y) * (n * n) - ((x * x) * (y * y) + d * (n * n) * (m * m))
      == t1 * t2 * (1 + c * c) - (1 - c * c) * (1 - c * c) - a * (t2 * t2) - b * (t1 * t1)
  {
    var p, r := u1 * v1, u2 * v2;
    var c := d * p * r;
    var n, m := u1 * v2 + v1 * u2, v1 * v2 + u1 * u2;
    var t1, t2 := v1 * v1 - u1 * u1, v2 * v2 - u2 * u2;
    var s1, s2 := v1 * v1 + u1 * u1, v2 * v2 + u2 * u2;
    NumeratorsDifference(u1, v1, u2, v2);
    NumeratorsSum(u1, v1, u2, v2);
    NumeratorsProduct(u1, v1, u2, v2);
    SquaresOfSums(u1, v1);
    SquaresOfSums(u2, v2);
    AssembleSum(d, p, r, n, m, s1, s2, t1, t2);
  }

  lemma AssembleSum(d: int, p: int, r: int, n: int, m: int, s1: int, s2: int, t1: int, t2: int)
    requires m * m - n * n == t1 * t2 && m * m + n * n == s1 * s2 + 4 * (p * r) && n * m == p * s2 + r * s1
    requires s1 * s1 == t1 * t1 + 4 * (p * p) && s2 * s2 == t2 * t2 + 4 * (r * r)
    ensures
      var c, a, b := d * p * r, d * (p * p), d * (r * r);
      var x, y := 1 + c, 1 - c;
      (x * x) * (m * m) - (y * y) * (n * n) - ((x * x) * (y * y) + d * (n * n) * (m * m))
      == t1 * t2 * (1 + c * c) - (1 - c * c) * (1 - c * c) - a * (t2 * t2) - b * (t1 * t1)
  {
    Denominators(n * n, m * m, d * p * r, t1 * t2);
    ProductSquare(p, r, s1, s2, d);
    MulSwap(n, m, n, m);
    Associate(d, n * n, m * m);
    SumPolynomialTerms(d, p, r, s1, s2, t1, t2);
    assert n * n + m * m == s1 * s2 + 4 * (p * r);
  }

  lemma NumeratorsDifference(u1: int, v1: int, u2: int, v2: int)
    ensures (v1 * v2 + u1 * u2) * (v1 * v2 + u1 * u2) - (u1 * v2 + v1 * u2) * (u1 * v2 + v1 * u2)
         == (v1 * v1 - u1 * u1) * (v2 * v2 - u2 * u2)
  {
  }

  lemma NumeratorsSum(u1: int, v1: int, u2: int, v2: int)
    ensures (v1 * v2 + u1 * u2) * (v1 * v2 + u1 * u2) + (u1 * v2 + v1 * u2) * (u1 * v2 + v1 * u2)
         == (v1 * v1 + u1 * u1) * (v2 * v2 + u2 * u2) + 4 * ((u1 * v1) * (u2 * v2))
  {
  }

  lemma NumeratorsProduct(u1: int, v1: int, u2: int, v2: int)
    ensures (u1 * v2 + v1 * u2) * (v1 * v2 + u1 * u2)
         == (u1 * v1) * (v2 * v2 + u2 * u2) + (u2 * v2) * (v1 * v1 + u1 * u1)
  {
  }

  lemma SquaresOfSums(u: int, v: int)
    ensures (v * v + u * u) * (v * v + u * u) == (v * v - u * u) * (v * v - u * u) + 4 * ((u * v) * (u * v))
  {
  }

  lemma Denominators(n: int, m: int, c: int, t: int)
    requires m - n == t
    ensures (1 + c) * (1 + c) * m - (1 - c) * (1 - c) * n == t * (1 + c * c) + 2 * (c * (n + m))
    ensures (1 + c) * (1 + c) * ((1 - c) * (1 - c)) == (1 - c * c) * (1 - c * c)
  {
  }

  lemma ProductSquare(p: int, r: int, s1: int, s2: int, d: int)
    ensures d * ((p * s2 + r * s1) * (p * s2 + r * s1))
         == (d * (p * p)) * (s2 * s2) + (d * (r * r)) * (s1 * s1) + 2 * ((d * p * r) * (s1 * s2))
  {
    Square2(p, s2, r, s1);
    ProductSquareTerms(d, p, r, s1, s2);
    SpreadThree(d, (p * p) * (s2 * s2), p * r * (s2 * s1), (r * r) * (s1 * s1));
  }

  lemma SpreadThree(d: int, a: int, b: int, c: int)
    ensures d * (a + 2 * b + c) == d * a + 2 * (d * b) + d * c
  {
  }

  lemma ProductSquareTerms(d: int, p: int, r: int, s1: int, s2: int)
    ensures d * ((p * p) * (s2 * s2)) == (d * (p * p)) * (s2 * s2)
    ensures d * ((r * r) * (s1 * s1)) == (d * (r * r)) * (s1 * s1)
    ensures d * (p * r * (s2 * s1)) == (d * p * r) * (s1 * s2)
  {
  }

  lemma SumPolynomialTerms(d: int, p: int, r: int, s1: int, s2: int, t1: int, t2: int)
    requires s1 * s1 == t1 * t1 + 4 * (p * p) && s2 * s2 == t2 * t2 + 4 * (r * r)
    ensures
      var c, a, b := d * p * r, d * (p * p), d * (r * r);
      2 * (c * (s1 * s2 + 4 * (p * r))) - (a * (s2 * s2) + b * (s1 * s1) + 2 * (c * (s1 * s2)))
      == -a * (t2 * t2) - b * (t1 * t1)
  {
    var c, a, b := d * p * r, d * (p * p), d * (r * r);
    assert c * (p * r) == a * (r * r) && c * (p * r) == b * (p * p) by { CrossProducts(d, p, r); }
    assert a * (s2 * s2) == a * (t2 * t2) + 4 * (a * (r * r));
    assert b * (s1 * s1) == b * (t1 * t1) + 4 * (b * (p * p));
    assert c * (s1 * s2 + 4 * (p * r)) == c * (s1 * s2) + 4 * (c * (p * r));
  }

  lemma CrossProducts(d: int, p: int, r: int)
    ensures (d * p * r) * (p * r) == (d * (p * p)) * (r * r)
    ensures (d * p * r) * (p * r) == (d * (r * r)) * (p * p)
  {
  }

  lemma SumRemainder(a: int, b: int, t1: int, t2: int, c: int)
    requires c * c == a * b
    ensures t1 * t2 * (1 + c * c) - (1 - c * c) * (1 - c * c) - a * (t2 * t2) - b * (t1 * t1)
         == (t2 * (1 + a * b) - b * (t1 + 1 + a)) * (t1 - (1 + a))
            + ((1 + a) * (1 + a * b) - a * (t2 + 1 + b)) * (t2 - (1 + b))
  {
    var k, g, h := 1 + a * b, 1 + a, 1 + b;
    RemainderZero(a, b);
    RemainderOne(t1, t2, k, g, b);
    RemainderTwo(t2, k, g, h, a);
  }

  lemma RemainderZero(a: int, b: int)
    ensures (1 - a * b) * (1 - a * b) == (1 + a) * (1 + b) * (1 + a * b) - a * ((1 + b) * (1 + b)) - b * ((1 + a) * (1 + a))
  {
  }

  lemma RemainderOne(t1: int, t2: int, k: int, g: int, b: int)
    ensures (t2 * k - b * (t1 + g)) * (t1 - g) == t1 * t2 * k - g * t2 * k - b * (t1 * t1) + b * (g * g)
  {
  }

  lemma RemainderTwo(t2: int, k: int, g: int, h: int, a: int)
    ensures (g * k - a * (t2 + h)) * (t2 - h) == g * t2 * k - g * h * k - a * (t2 * t2) + a * (h * h)
  {
  }

  lemma RootIdentity(u1: int, v1: int, u2: int, v2: int, d: int, j: int)
    ensures
      var p, r := u1 * v1, u2 * v2;
      var c := d * p * r;
      var x, z := j * u1 + c * v1, p * (j * u2 + v2);
      x * x - d * (z * z)
      == 1 * (v1 * v1 - u1 * u1 - (1 + d * (p * p))) + -(d * (p * p)) * (v2 * v2 - u2 * u2 - (1 + d * (r * r)))
         + (u1 * u1 - d * (p * p) * (u2 * u2)) * (j * j - -1) + (v1 * v1 - 1) * (c * c - 1)
  {
    var p, r := u1 * v1, u2 * v2;
    var c := d * p * r;
    var e := d * (p * p);
    var y := j * u2 + v2;
    Square2(j, u1, c, v1);
    Square2(j, u2, 1, v2);
    MulSwap(p, y, p, y);
    RootTerms(d, p, r, j, u2 * u2, v2 * v2);
    Associate(d, p * p, y * y);
    RootSum(j * j, u1 * u1, v1 * v1, u2 * u2, v2 * v2, c * c, e, d * (r * r), j * c * p);
  }

  lemma RootSum(jj: int, s1: int, n1: int, s2: int, n2: int, k: int, e: int, f: int, m: int)
    requires k == e * f
    ensures jj * s1 + 2 * m + k * n1 - (jj * (e * s2) + 2 * m + e * n2)
         == 1 * (n1 - s1 - (1 + e)) + -e * (n2 - s2 - (1 + f)) + (s1 - e * s2) * (jj - -1) + (n1 - 1) * (k - 1)
  {
  }

  lemma RootTerms(d: int, p: int, r: int, j: int, s: int, t: int)
    ensures
      var c, e := d * p * r, d * (p * p);
      && c * c == e * (d * (r * r))
      && e * (j * j * s + 2 * (j * r) + t) == (j * j) * (e * s) + 2 * (j * c * p) + e * t
  {
    RootTerm1(d, p, r);
    RootTerm2(d, p, r, j);
  }

  lemma RootTerm1(d: int, p: int, r: int)
    ensures (d * p * r) * (d * p * r) == (d * (p * p)) * (d * (r * r))
  {
  }

  lemma RootTerm2(d: int, p: int, r: int, j: int)
    ensures (d * (p * p)) * (j * r) == j * (d * p * r) * p
  {
  }

  lemma MulSwap(a: int, b: int, c: int, d: int)
    ensures (a * b) * (c * d) == (a * c) * (b * d)
  {
  }

  lemma ScaledSquare(w: int, d: int, z: int)
    ensures (w * w) * (d * (z * z)) == d * ((z * w) * (z * w))
  {
  }

  lemma Square2(a: int, b: int, c: int, d: int)
    ensures (a * b + c * d) * (a * b + c * d) == (a * a) * (b * b) + 2 * (a * c * (b * d)) + (c * c) * (d * d)
  {
  }
}
