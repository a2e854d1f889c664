/** The Montgomery chord through two points is the Edwards sum.

Names used throughout, for operands with Montgomery coordinates (x1, y1) and (x2, y2):
  w = y1 y2,  p = x1 x2,  s = x1 + x2,  delta = x2 - x1,  big = (x1+1)(x2+1),  small = (x1-1)(x2-1).
*/
module ChordAddition {
  import opened Residues
  import opened Powers
  import opened EdwardsCurve
  import opened MontgomeryCurve

  // delta^2 times the x-coordinate of the chord's third point.
  function ChordX(a: int, s: int, p: int, w: int): int {
    s * (p + 1) + 2 * (a * p) - 2 * w
  }

  // Half the sum and half the difference of denominator and numerator of the v-coordinate.
  function HalfSum(a: int, s: int, p: int, w: int): int {
    (p + 1) * w - p * (a * (p + 1) + 2 * s)
  }

  function HalfDifference(a: int, s: int, p: int, w: int): int {
    w * s + p * (a * s + 2 * (p + 1))
  }

  // The numerator of the u-coordinate, divided by the scale.
  function NumeratorU(x1: int, y1: int, x2: int, y2: int): int {
    (x1 * (x1 + 1) * (x2 - 1)) * y2 + (x2 * (x2 + 1) * (x1 - 1)) * y1
  }

  function Tail(a: int, s: int, p: int, w: int): int {
    w * s - p * (2 * p + a * s + 2)
  }

  function Cubic(a: int, x: int): int {
    x * (x * x + a * x + 1)
  }

  // --- the v-coordinate of the Edwards sum, over the Montgomery coordinates ---

  lemma {:induction false} ProductsOfCoordinates(c: Jubjub, p1: Coords, m1: Mont, p2: Coords, m2: Mont)
    requires IsMontgomery(c, p1, m1) && IsMontgomery(c, p2, m2)
    ensures c.field.Eq((p1.v * p2.v) * ((m1.x + 1) * (m2.x + 1)), (m1.x - 1) * (m2.x - 1))
    ensures c.field.Eq((p1.u * p2.u) * (m1.y * m2.y), (c.scale * c.scale) * (m1.x * m2.x))
  {
    var q := c.field.q;
    InverseMap(c, p1, m1);
    InverseMap(c, p2, m2);
    CongMul(q, (m1.x + 1) * p1.v, m1.x - 1, (m2.x + 1) * p2.v, m2.x - 1);
    CongMul(q, p1.u * m1.y, c.scale * m1.x, p2.u * m2.y, c.scale * m2.x);
    MulSwap(m1.x + 1, p1.v, m2.x + 1, p2.v);
    MulSwap(p1.u, m1.y, p2.u, m2.y);
    MulSwap(c.scale, m1.x, c.scale, m2.x);
    assert (p1.v * p2.v) * ((m1.x + 1) * (m2.x + 1)) == ((m1.x + 1) * (m2.x + 1)) * (p1.v * p2.v);
  }

  // Clears the denominators of cross term and numerator: vv, uu are products of coordinates.
  lemma ClearedCrossTerm(c: Jubjub, vv: int, uu: int, big: int, small: int, w: int, p: int)
    requires c.Valid()
    requires c.field.Eq(vv * big, small) && c.field.Eq(uu * w, (c.scale * c.scale) * p)
    ensures c.field.Eq((c.d * uu * vv) * (w * big), ((c.montA - 2) * p) * small)
    ensures c.field.Eq((vv + uu) * (w * big), w * small - ((c.montA + 2) * p) * big)
  {
    var q, ss := c.field.q, c.scale * c.scale;
    ScaledU(c, uu, w, ss, p);
    CongMul(q, c.d * (uu * w), (c.montA - 2) * p, vv * big, small);
    CrossTermProduct(c.d, uu, vv, w, big);
    NumeratorIdentity(vv, uu, w, big, small, ss, p, c.montA);
    CongRefl(q, 0);
    Combine4(q, (vv + uu) * (w * big), w * small - ((c.montA + 2) * p) * big,
             w, vv * big, small, big, uu * w, ss * p, p * big, ss, -(c.montA + 2), 0, 0, 0);
  }

  lemma ScaledU(c: Jubjub, uu: int, w: int, ss: int, p: int)
    requires c.field.Eq(c.d * ss, c.montA - 2) && c.field.Eq(uu * w, ss * p)
    ensures c.field.Eq(c.d * (uu * w), (c.montA - 2) * p)
  {
    CongScale(c.field.q, p, c.d * ss, c.montA - 2);
    CongScale(c.field.q, c.d, uu * w, ss * p);
    ScaledFactors(c.d, ss, p, c.montA - 2);
    CongTrans(c.field.q, c.d * (uu * w), p * (c.d * ss), p * (c.montA - 2));
  }

  lemma ScaledFactors(d: int, ss: int, p: int, m: int)
    ensures d * (ss * p) == p * (d * ss) && p * m == m * p
  {
  }

  lemma CrossTermProduct(d: int, uu: int, vv: int, w: int, big: int)
    ensures (d * uu * vv) * (w * big) == (d * (uu * w)) * (vv * big)
  {
  }

  lemma NumeratorIdentity(vv: int, uu: int, w: int, big: int, small: int, ss: int, p: int, a: int)
    ensures (vv + uu) * (w * big) - (w * small - ((a + 2) * p) * big)
         == w * (vv * big - small) + big * (uu * w - ss * p) + (p * big) * (ss - -(a + 2)) + 0 * (0 - 0)
  {
    assert (vv + uu) * (w * big) == w * (vv * big) + big * (uu * w);
    assert big * (ss * p) == (p * big) * ss;
    assert ((a + 2) * p) * big == (p * big) * (a + 2);
  }

  // With k the cleared cross term, den the cleared (1 - c) and num the cleared numerator of v3.
  lemma SumV(c: Jubjub, p1: Coords, m1: Mont, p2: Coords, m2: Mont, p3: Coords)
    requires c.Valid() && IsMontgomery(c, p1, m1) && IsMontgomery(c, p2, m2) && c.IsSum(p1, p2, p3)
    ensures
      var w, p, s := m1.y * m2.y, m1.x * m2.x, m1.x + m2.x;
      var scaled := w * ((m1.x + 1) * (m2.x + 1));
      var cross := c.CrossTerm(p1, p2);
      && c.field.Eq(((1 - cross) * scaled) * (1 - p3.v), 2 * HalfDifference(c.montA, s, p, w))
      && c.field.Eq(((1 - cross) * scaled) * (1 + p3.v), 2 * HalfSum(c.montA, s, p, w))
  {
    var q, w, p, s, a := c.field.q, m1.y * m2.y, m1.x * m2.x, m1.x + m2.x, c.montA;
    var big, small := (m1.x + 1) * (m2.x + 1), (m1.x - 1) * (m2.x - 1);
    var scaled, cross := w * big, c.CrossTerm(p1, p2);
    var vv, uu := p1.v * p2.v, p1.u * p2.u;
    ProductsOfCoordinates(c, p1, m1, p2, m2);
    ClearedCrossTerm(c, vv, uu, big, small, w, p);
    CrossTermProducts(c, p1, p2);
    CongScale(q, scaled, (1 - cross) * p3.v, vv + uu);
    HalvesIdentity(a, m1.x, m2.x, w);
    SumVCombine(q, cross, scaled, p3.v, vv + uu, ((a - 2) * p) * small, w * small - ((a + 2) * p) * big,
                HalfDifference(a, s, p, w), HalfSum(a, s, p, w));
  }

  lemma SumVCombine(q: int, cross: int, scaled: int, v: int, n: int, k: int, num: int, hd: int, hs: int)
    requires Cong(q, cross * scaled, k) && Cong(q, scaled * ((1 - cross) * v), scaled * n) && Cong(q, n * scaled, num)
    requires scaled - k - num == 2 * hd && scaled - k + num == 2 * hs
    ensures Cong(q, ((1 - cross) * scaled) * (1 - v), 2 * hd)
    ensures Cong(q, ((1 - cross) * scaled) * (1 + v), 2 * hs)
  {
    ScaledIdentities(cross, scaled, v, n);
    CongTrans(q, scaled * ((1 - cross) * v), scaled * n, num);
    CongRefl(q, scaled);
    CongSub(q, scaled, scaled, cross * scaled, k);
    CongSub(q, scaled - cross * scaled, scaled - k, scaled * ((1 - cross) * v), num);
    CongAdd(q, scaled - cross * scaled, scaled - k, scaled * ((1 - cross) * v), num);
  }

  lemma CrossTermProducts(c: Jubjub, p1: Coords, p2: Coords)
    ensures c.CrossTerm(p1, p2) == c.d * (p1.u * p2.u) * (p1.v * p2.v)
  {
    assert (p2.v * p1.u) * (p2.u * p1.v) == (p1.u * p2.u) * (p1.v * p2.v);
    Associate(c.d, p2.v * p1.u, p2.u * p1.v);
    Associate(c.d, p1.u * p2.u, p1.v * p2.v);
  }

  lemma ScaledIdentities(cross: int, scaled: int, v: int, n: int)
    ensures ((1 - cross) * scaled) * (1 - v) == scaled - cross * scaled - scaled * ((1 - cross) * v)
    ensures ((1 - cross) * scaled) * (1 + v) == scaled - cross * scaled + scaled * ((1 - cross) * v)
    ensures scaled * n == n * scaled
  {
    assert ((1 - cross) * scaled) * v == scaled * ((1 - cross) * v);
  }

  lemma HalvesIdentity(a: int, x1: int, x2: int, w: int)
    ensures
      var s, p := x1 + x2, x1 * x2;
      var big, small := (x1 + 1) * (x2 + 1), (x1 - 1) * (x2 - 1);
      && big == p + s + 1 && small == p - s + 1
      && w * big - ((a - 2) * p) * small - (w * small - ((a + 2) * p) * big) == 2 * HalfDifference(a, s, p, w)
      && w * big - ((a - 2) * p) * small + (w * small - ((a + 2) * p) * big) == 2 * HalfSum(a, s, p, w)
  {
    HalvesTerms(a, x1 + x2, x1 * x2, w);
  }

  lemma HalvesTerms(a: int, s: int, p: int, w: int)
    ensures
      var big, small := p + s + 1, p - s + 1;
      && w * big - ((a - 2) * p) * small - (w * small - ((a + 2) * p) * big) == 2 * HalfDifference(a, s, p, w)
      && w * big - ((a - 2) * p) * small + (w * small - ((a + 2) * p) * big) == 2 * HalfSum(a, s, p, w)
  {
  }

  // The same for the u-coordinate.
  lemma SumU(c: Jubjub, p1: Coords, m1: Mont, p2: Coords, m2: Mont, p3: Coords)
    requires c.Valid() && IsMontgomery(c, p1, m1) && IsMontgomery(c, p2, m2) && c.IsSum(p1, p2, p3)
    ensures
      var scaled := (m1.y * m2.y) * ((m1.x + 1) * (m2.x + 1));
      c.field.Eq(((1 + c.CrossTerm(p1, p2)) * scaled) * p3.u, c.scale * NumeratorU(m1.x, m1.y, m2.x, m2.y))
  {
    var q, x1, y1, x2, y2, sc := c.field.q, m1.x, m1.y, m2.x, m2.y, c.scale;
    var scaled, cross := (y1 * y2) * ((x1 + 1) * (x2 + 1)), c.CrossTerm(p1, p2);
    InverseMap(c, p1, m1);
    InverseMap(c, p2, m2);
    CongMul(q, p1.u * y1, sc * x1, (x2 + 1) * p2.v, x2 - 1);
    CongMul(q, p2.u * y2, sc * x2, (x1 + 1) * p1.v, x1 - 1);
    CongScale(q, scaled, (1 + cross) * p3.u, p1.u * p2.v + p1.v * p2.u);
    Associate(scaled, 1 + cross, p3.u);
    assert scaled * (1 + cross) == (1 + cross) * scaled;
    NumeratorUIdentity(p1.u, p1.v, x1, y1, p2.u, p2.v, x2, y2, sc);
    Combine2(q, scaled * (p1.u * p2.v + p1.v * p2.u), sc * NumeratorU(x1, y1, x2, y2),
             y2 * (x1 + 1), (p1.u * y1) * ((x2 + 1) * p2.v), (sc * x1) * (x2 - 1),
             y1 * (x2 + 1), (p2.u * y2) * ((x1 + 1) * p1.v), (sc * x2) * (x1 - 1));
    CongTrans(q, ((1 + cross) * scaled) * p3.u, scaled * (p1.u * p2.v + p1.v * p2.u), sc * NumeratorU(x1, y1, x2, y2));
  }

  lemma NumeratorUIdentity(u1: int, v1: int, x1: int, y1: int, u2: int, v2: int, x2: int, y2: int, sc: int)
    ensures ((y1 * y2) * ((x1 + 1) * (x2 + 1))) * (u1 * v2 + v1 * u2) - sc * NumeratorU(x1, y1, x2, y2)
         == (y2 * (x1 + 1)) * ((u1 * y1) * ((x2 + 1) * v2) - (sc * x1) * (x2 - 1))
            + (y1 * (x2 + 1)) * ((u2 * y2) * ((x1 + 1) * v1) - (sc * x2) * (x1 - 1))
  {
    SixFactors(y1, y2, x1 + 1, x2 + 1, u1, v2);
    SixFactors(y2, y1, x2 + 1, x1 + 1, u2, v1);
    NumeratorUTerm(sc, x1, x2, y2);
    NumeratorUTerm(sc, x2, x1, y1);
    MulSwap2(y1, y2, x1 + 1, x2 + 1);
    Spread((y1 * y2) * ((x1 + 1) * (x2 + 1)), u1, v2, v1, u2);
    SpreadOne(sc, x1 * (x1 + 1) * (x2 - 1), y2, x2 * (x2 + 1) * (x1 - 1), y1);
    Associate(sc, x1 * (x1 + 1) * (x2 - 1), y2);
    Associate(sc, x2 * (x2 + 1) * (x1 - 1), y1);
    Subtract(y2 * (x1 + 1), (u1 * y1) * ((x2 + 1) * v2), (sc * x1) * (x2 - 1));
    Subtract(y1 * (x2 + 1), (u2 * y2) * ((x1 + 1) * v1), (sc * x2) * (x1 - 1));
  }

  lemma MulSwap2(a: int, b: int, c: int, d: int)
    ensures (a * b) * (c * d) == (b * a) * (d * c)
  {
  }

  lemma Spread(k: int, a: int, b: int, c: int, d: int)
    ensures k * (a * b + c * d) == k * (a * b) + k * (d * c)
  {
  }

  lemma Subtract(k: int, a: int, b: int)
    ensures k * (a - b) == k * a - k * b
  {
  }

  lemma SixFactors(y1: int, y2: int, e1: int, e2: int, u: int, v: int)
    ensures ((y1 * y2) * (e1 * e2)) * (u * v) == (y2 * e1) * ((u * y1) * (e2 * v))
  {
    MulSwap(y1, y2, e2, e1);
    MulSwap(y1 * e2, y2 * e1, u * v, 1);
    MulSwap(u, v, y1, e2);
    assert (y1 * y2) * (e1 * e2) == (y1 * y2) * (e2 * e1);
    assert (y1 * e2) * (u * v) == (u * y1) * (e2 * v);
  }

  lemma NumeratorUTerm(sc: int, x: int, z: int, y: int)
    ensures (y * (x + 1)) * ((sc * x) * (z - 1)) == sc * ((x * (x + 1) * (z - 1)) * y)
  {
  }

  // --- the chord ---

  // Squaring the slope equation and using the curve equation of both operands.
  lemma ChordXEquation(c: Jubjub, m1: Mont, m2: Mont, slope: int, m3: Mont)
    requires ChordConstraints(c, m1, m2, slope, m3)
    requires c.field.Eq(m1.y * m1.y, Cubic(c.montA, m1.x)) && c.field.Eq(m2.y * m2.y, Cubic(c.montA, m2.x))
    ensures
      var delta := m2.x - m1.x;
      c.field.Eq((delta * delta) * m3.x, ChordX(c.montA, m1.x + m2.x, m1.x * m2.x, m1.y * m2.y))
  {
    var q, delta, l, a := c.field.q, m2.x - m1.x, m2.y - m1.y, c.montA;
    CongSquare(q, delta * slope, l);
    MulSwap(delta, slope, delta, slope);
    ChordXIdentity(a, m1.x, m1.y, m2.x, m2.y, slope * slope, m3.x);
    Combine4(q, (delta * delta) * m3.x, ChordX(a, m1.x + m2.x, m1.x * m2.x, m1.y * m2.y),
             -(delta * delta), slope * slope, a + m1.x + m2.x + m3.x,
             1, (delta * slope) * (delta * slope), l * l,
             1, m1.y * m1.y, Cubic(a, m1.x), 1, m2.y * m2.y, Cubic(a, m2.x));
  }

  lemma ChordXIdentity(a: int, x1: int, y1: int, x2: int, y2: int, ll: int, x3: int)
    ensures
      var dd, l := (x2 - x1) * (x2 - x1), y2 - y1;
      dd * x3 - ChordX(a, x1 + x2, x1 * x2, y1 * y2)
      == -dd * (ll - (a + x1 + x2 + x3)) + 1 * (dd * ll - l * l)
         + 1 * (y1 * y1 - Cubic(a, x1)) + 1 * (y2 * y2 - Cubic(a, x2))
  {
    var dd := (x2 - x1) * (x2 - x1);
    assert dd * (a + x1 + x2 + x3) == dd * (a + x1 + x2) + dd * x3;
    ChordXCubics(a, x1, x2);
    assert (y2 - y1) * (y2 - y1) == y2 * y2 - 2 * (y1 * y2) + y1 * y1;
  }

  lemma ChordXCubics(a: int, x1: int, x2: int)
    ensures Cubic(a, x1) + Cubic(a, x2) - ((x2 - x1) * (x2 - x1)) * (a + x1 + x2)
         == (x1 + x2) * (x1 * x2 + 1) + 2 * (a * (x1 * x2))
  {
  }

  // Both operands on the curve make K * (difference) == delta^2 * (sum).
  lemma {:induction false} ChordMatchesSum(c: Jubjub, m1: Mont, m2: Mont)
    requires c.field.Eq(m1.y * m1.y, Cubic(c.montA, m1.x)) && c.field.Eq(m2.y * m2.y, Cubic(c.montA, m2.x))
    ensures
      var w, p, s, a, delta := m1.y * m2.y, m1.x * m2.x, m1.x + m2.x, c.montA, m2.x - m1.x;
      c.field.Eq(ChordX(a, s, p, w) * HalfDifference(a, s, p, w), (delta * delta) * HalfSum(a, s, p, w))
  {
    var q, w, p, s, a, delta := c.field.q, m1.y * m2.y, m1.x * m2.x, m1.x + m2.x, c.montA, m2.x - m1.x;
    CongMul(q, m1.y * m1.y, Cubic(a, m1.x), m2.y * m2.y, Cubic(a, m2.x));
    MulSwap(m1.y, m2.y, m1.y, m2.y);
    CubicProduct(a, m1.x, m2.x);
    ChordSumIdentity(a, s, p, w);
    assert delta * delta == s * s - 4 * p;
    CongRefl(q, 0);
    Combine2(q, ChordX(a, s, p, w) * HalfDifference(a, s, p, w), (delta * delta) * HalfSum(a, s, p, w),
             -2 * s, w * w, CubicNorm(a, s, p), 0, 0, 0);
  }

  // The product of the two cubics, by sum and product of the x-coordinates.
  function CubicNorm(a: int, s: int, p: int): int {
    p * (p * p + a * p * s + (s * s - 2 * p) + a * a * p + a * s + 1)
  }

  lemma CubicProduct(a: int, x1: int, x2: int)
    ensures Cubic(a, x1) * Cubic(a, x2) == CubicNorm(a, x1 + x2, x1 * x2)
  {
    var g1, g2 := x1 * x1 + a * x1 + 1, x2 * x2 + a * x2 + 1;
    MulSwap(x1, g1, x2, g2);
    QuadraticProduct(a, x1, x2);
  }

  lemma QuadraticProduct(a: int, x1: int, x2: int)
    ensures
      var s, p := x1 + x2, x1 * x2;
      (x1 * x1 + a * x1 + 1) * (x2 * x2 + a * x2 + 1)
      == p * p + a * p * s + (s * s - 2 * p) + a * a * p + a * s + 1
  {
    var z1, z2, p := x1 * x1, x2 * x2, x1 * x2;
    assert z1 * (z2 + a * x2 + 1) == p * p + a * (p * x1) + z1;
    assert (a * x1) * (z2 + a * x2 + 1) == a * (p * x2) + a * a * p + a * x1;
  }

  lemma ChordSumIdentity(a: int, s: int, p: int, w: int)
    ensures ChordX(a, s, p, w) * HalfDifference(a, s, p, w) - (s * s - 4 * p) * HalfSum(a, s, p, w)
         == (-2 * s) * (w * w - CubicNorm(a, s, p))
  {
    var k, h, g, dd := s * (p + 1) + 2 * (a * p), a * s + 2 * (p + 1), a * (p + 1) + 2 * s, s * s - 4 * p;
    LinearTerm(a, s, p);
    ConstantTerm(a, s, p);
    ExpandProducts(k, h, g, dd, s, p, w);
    Associate(2, s, CubicNorm(a, s, p));
    CollectTerms(k * s - 2 * (p * h), dd * (p + 1), w, p * (k * h + dd * g), s, CubicNorm(a, s, p));
  }

  lemma CollectTerms(e: int, f: int, w: int, t: int, s: int, n: int)
    requires e == f && t == 2 * s * n
    ensures (-2 * s) * (w * w) + (e - f) * w + t == (-2 * s) * (w * w - n)
  {
  }

  lemma ExpandProducts(k: int, h: int, g: int, dd: int, s: int, p: int, w: int)
    ensures (k - 2 * w) * (w * s + p * h) - dd * ((p + 1) * w - p * g)
         == (-2 * s) * (w * w) + (k * s - 2 * (p * h) - dd * (p + 1)) * w + p * (k * h + dd * g)
  {
    assert (k - 2 * w) * (w * s + p * h) == k * s * w + k * (p * h) - 2 * s * (w * w) - 2 * (p * h) * w;
    assert dd * ((p + 1) * w - p * g) == dd * (p + 1) * w - dd * (p * g);
    assert p * (k * h + dd * g) == k * (p * h) + dd * (p * g);
  }

  lemma LinearTerm(a: int, s: int, p: int)
    ensures (s * (p + 1) + 2 * (a * p)) * s - 2 * (p * (a * s + 2 * (p + 1))) == (s * s - 4 * p) * (p + 1)
  {
  }

  lemma ConstantTerm(a: int, s: int, p: int)
    ensures p * ((s * (p + 1) + 2 * (a * p)) * (a * s + 2 * (p + 1)) + (s * s - 4 * p) * (a * (p + 1) + 2 * s))
         == 2 * s * CubicNorm(a, s, p)
  {
    ConstantFactor(a, s, p);
    Reassociate(p, 2 * s, p * p + a * p * s + (s * s - 2 * p) + a * a * p + a * s + 1);
  }

  lemma Reassociate(p: int, s: int, n: int)
    ensures p * (s * n) == s * (p * n)
  {
  }

  lemma ConstantFactor(a: int, s: int, p: int)
    ensures (s * (p + 1) + 2 * (a * p)) * (a * s + 2 * (p + 1)) + (s * s - 4 * p) * (a * (p + 1) + 2 * s)
         == 2 * s * (p * p + a * p * s + (s * s - 2 * p) + a * a * p + a * s + 1)
  {
    var e, ap := p + 1, a * p;
    FirstProduct(a, s, p, e);
    SecondProduct(a, s, p, e);
    ConstantSum(a, s, p);
  }

  lemma FirstProduct(a: int, s: int, p: int, e: int)
    ensures (s * e + 2 * (a * p)) * (a * s + 2 * e)
         == a * (s * s) * e + 2 * (a * a * p) * s + 2 * s * (e * e) + 4 * (a * p) * e
  {
  }

  lemma SecondProduct(a: int, s: int, p: int, e: int)
    ensures (s * s - 4 * p) * (a * e + 2 * s) == a * (s * s) * e + 2 * (s * s) * s - 4 * (a * p) * e - 8 * p * s
  {
  }

  lemma ConstantSum(a: int, s: int, p: int)
    ensures 2 * s * (p * p + a * p * s + (s * s - 2 * p) + a * a * p + a * s + 1)
         == 2 * (a * (s * s) * (p + 1)) + 2 * (a * a * p) * s + 2 * s * ((p + 1) * (p + 1)) + 2 * (s * s) * s - 8 * p * s
  {
  }

  // --- the y-coordinate ---

  // The intercept m = y1 x2 - x1 y2 of the chord: m^2 == p K, and l m + p delta^2 == Tail.
  lemma InterceptEquations(c: Jubjub, m1: Mont, m2: Mont)
    requires c.field.Eq(m1.y * m1.y, Cubic(c.montA, m1.x)) && c.field.Eq(m2.y * m2.y, Cubic(c.montA, m2.x))
    ensures
      var w, p, s, delta := m1.y * m2.y, m1.x * m2.x, m1.x + m2.x, m2.x - m1.x;
      var m := m1.y * m2.x - m1.x * m2.y;
      && c.field.Eq(m * m, p * ChordX(c.montA, s, p, w))
      && c.field.Eq((m2.y - m1.y) * m + p * (delta * delta), Tail(c.montA, s, p, w))
  {
    var q, w, p, s, delta, a := c.field.q, m1.y * m2.y, m1.x * m2.x, m1.x + m2.x, m2.x - m1.x, c.montA;
    var m := m1.y * m2.x - m1.x * m2.y;
    InterceptSquare(a, m1.x, m1.y, m2.x, m2.y);
    Combine2(q, m * m, p * ChordX(a, s, p, w),
             m2.x * m2.x, m1.y * m1.y, Cubic(a, m1.x), m1.x * m1.x, m2.y * m2.y, Cubic(a, m2.x));
    InterceptTail(a, m1.x, m1.y, m2.x, m2.y);
    Negate(m2.x, m1.y * m1.y - Cubic(a, m1.x));
    Negate(m1.x, m2.y * m2.y - Cubic(a, m2.x));
    Combine2(q, (m2.y - m1.y) * m + p * (delta * delta), Tail(a, s, p, w),
             -m2.x, m1.y * m1.y, Cubic(a, m1.x), -m1.x, m2.y * m2.y, Cubic(a, m2.x));
  }

  // p delta^3 y3 == -m Tail.
  lemma ChordYEquation(c: Jubjub, m1: Mont, m2: Mont, slope: int, m3: Mont)
    requires ChordConstraints(c, m1, m2, slope, m3)
    requires c.field.Eq(m1.y * m1.y, Cubic(c.montA, m1.x)) && c.field.Eq(m2.y * m2.y, Cubic(c.montA, m2.x))
    ensures
      var w, p, s, delta := m1.y * m2.y, m1.x * m2.x, m1.x + m2.x, m2.x - m1.x;
      var m := m1.y * m2.x - m1.x * m2.y;
      c.field.Eq((p * (delta * (delta * delta))) * m3.y, -m * Tail(c.montA, s, p, w))
  {
    var w, p, s, delta, a := m1.y * m2.y, m1.x * m2.x, m1.x + m2.x, m2.x - m1.x, c.montA;
    ChordXEquation(c, m1, m2, slope, m3);
    InterceptEquations(c, m1, m2);
    ChordYCombine(c.field.q, delta, slope, m1.x, m1.y, m2.x, m2.y, m3.x, m3.y, ChordX(a, s, p, w), Tail(a, s, p, w), p);
  }

  lemma ChordYCombine(q: int, delta: int, slope: int, x1: int, y1: int, x2: int, y2: int, x3: int, y3: int,
                      k: int, t: int, p: int)
    requires delta == x2 - x1
    requires Cong(q, delta * slope, y2 - y1) && Cong(q, (x1 - x3) * slope, y3 + y1)
    requires Cong(q, (delta * delta) * x3, k)
    requires Cong(q, (y1 * x2 - x1 * y2) * (y1 * x2 - x1 * y2), p * k)
    requires Cong(q, (y2 - y1) * (y1 * x2 - x1 * y2) + p * (delta * delta), t)
    ensures Cong(q, (p * (delta * (delta * delta))) * y3, -(y1 * x2 - x1 * y2) * t)
  {
    var dd, l, m := delta * delta, y2 - y1, y1 * x2 - x1 * y2;
    var r := l * (x1 * dd - k) - y1 * (delta * dd);
    ThirdY(delta, slope, l, x1, y1, x3, y3, k);
    CongRefl(q, 0);
    Combine4(q, (delta * dd) * y3, r, -(delta * dd), (x1 - x3) * slope, y3 + y1,
             dd * (x1 - x3), delta * slope, l, -l, dd * x3, k, 0, 0, 0);
    CongScale(q, p, (delta * dd) * y3, r);
    InterceptFactor(p, delta, l, x1, y1, x2, y2, k, t);
    Combine2(q, p * r, -m * t, l, m * m, p * k, -m, l * m + p * dd, t);
    Associate(p, delta * dd, y3);
    CongTrans(q, (p * (delta * dd)) * y3, p * r, -m * t);
  }

  lemma InterceptSquare(a: int, x1: int, y1: int, x2: int, y2: int)
    ensures
      var m, p := y1 * x2 - x1 * y2, x1 * x2;
      m * m - p * ChordX(a, x1 + x2, p, y1 * y2)
      == (x2 * x2) * (y1 * y1 - Cubic(a, x1)) + (x1 * x1) * (y2 * y2 - Cubic(a, x2))
  {
    InterceptCubics(a, x1, x2);
    InterceptExpansion(x1, y1, x2, y2);
    SpreadChordX(x1 * x2, (x1 + x2) * (x1 * x2 + 1) + 2 * (a * (x1 * x2)), y1 * y2);
    assert (x2 * x2) * (y1 * y1 - Cubic(a, x1)) == (x2 * x2) * (y1 * y1) - (x2 * x2) * Cubic(a, x1);
    assert (x1 * x1) * (y2 * y2 - Cubic(a, x2)) == (x1 * x1) * (y2 * y2) - (x1 * x1) * Cubic(a, x2);
  }

  lemma InterceptExpansion(x1: int, y1: int, x2: int, y2: int)
    ensures (y1 * x2 - x1 * y2) * (y1 * x2 - x1 * y2)
         == (x2 * x2) * (y1 * y1) + (x1 * x1) * (y2 * y2) - (x1 * x2) * (2 * (y1 * y2))
  {
  }

  lemma SpreadChordX(p: int, k: int, w: int)
    ensures p * (k - 2 * w) == p * k - p * (2 * w)
  {
  }

  lemma InterceptCubics(a: int, x1: int, x2: int)
    ensures (x2 * x2) * Cubic(a, x1) + (x1 * x1) * Cubic(a, x2)
         == (x1 * x2) * ((x1 + x2) * (x1 * x2 + 1) + 2 * (a * (x1 * x2)))
  {
  }

  lemma InterceptTail(a: int, x1: int, y1: int, x2: int, y2: int)
    ensures
      var m, l, p := y1 * x2 - x1 * y2, y2 - y1, x1 * x2;
      l * m + p * ((x2 - x1) * (x2 - x1)) - Tail(a, x1 + x2, p, y1 * y2)
      == -(x2 * (y1 * y1 - Cubic(a, x1))) - x1 * (y2 * y2 - Cubic(a, x2))
  {
    TailProduct(x1, y1, x2, y2);
    TailCubics(a, x1, x2);
    Subtract(x2, y1 * y1, Cubic(a, x1));
    Subtract(x1, y2 * y2, Cubic(a, x2));
  }

  lemma Negate(a: int, b: int)
    ensures -a * b == -(a * b)
  {
  }

  lemma TailProduct(x1: int, y1: int, x2: int, y2: int)
    ensures (y2 - y1) * (y1 * x2 - x1 * y2) == (y1 * y2) * (x1 + x2) - x2 * (y1 * y1) - x1 * (y2 * y2)
  {
  }

  lemma TailCubics(a: int, x1: int, x2: int)
    ensures
      var p, s := x1 * x2, x1 + x2;
      x2 * Cubic(a, x1) + x1 * Cubic(a, x2) == p * ((x2 - x1) * (x2 - x1)) + p * (2 * p + a * s + 2)
  {
    TailFactor(x1, x2, x1 * x1 + a * x1 + 1, x2 * x2 + a * x2 + 1);
    TailSum(a, x1, x2);
    SpreadSum(x1 * x2, (x2 - x1) * (x2 - x1), 2 * (x1 * x2) + a * (x1 + x2) + 2);
  }

  lemma TailFactor(x1: int, x2: int, g1: int, g2: int)
    ensures x2 * (x1 * g1) + x1 * (x2 * g2) == (x1 * x2) * (g1 + g2)
  {
  }

  lemma TailSum(a: int, x1: int, x2: int)
    ensures (x1 * x1 + a * x1 + 1) + (x2 * x2 + a * x2 + 1) == (x2 - x1) * (x2 - x1) + (2 * (x1 * x2) + a * (x1 + x2) + 2)
  {
  }

  lemma SpreadSum(p: int, a: int, b: int)
    ensures p * (a + b) == p * a + p * b
  {
  }

  lemma ThirdY(delta: int, slope: int, l: int, x1: int, y1: int, x3: int, y3: int, k: int)
    ensures
      var dd := delta * delta;
      (delta * dd) * y3 - (l * (x1 * dd - k) - y1 * (delta * dd))
      == -(delta * dd) * ((x1 - x3) * slope - (y3 + y1)) + (dd * (x1 - x3)) * (delta * slope - l)
         + -l * (dd * x3 - k) + 0 * (0 - 0)
  {
    var dd := delta * delta;
    assert (delta * dd) * ((x1 - x3) * slope) == (dd * (x1 - x3)) * (delta * slope);
  }

  lemma InterceptFactor(p: int, delta: int, l: int, x1: int, y1: int, x2: int, y2: int, k: int, t: int)
    requires delta == x2 - x1 && l == y2 - y1
    ensures
      var dd, m := delta * delta, y1 * x2 - x1 * y2;
      p * (l * (x1 * dd - k) - y1 * (delta * dd)) - (-m * t) == l * (m * m - p * k) + -m * (l * m + p * dd - t)
  {
    var dd, m := delta * delta, y1 * x2 - x1 * y2;
    assert l * x1 - y1 * delta == -m;
    InterceptLine(l, x1, y1, delta, dd, k);
    InterceptExpand(p, l, m, dd, k, t);
  }

  lemma InterceptLine(l: int, x1: int, y1: int, delta: int, dd: int, k: int)
    ensures l * (x1 * dd - k) - y1 * (delta * dd) == (l * x1 - y1 * delta) * dd - l * k
  {
  }

  lemma InterceptExpand(p: int, l: int, m: int, dd: int, k: int, t: int)
    ensures p * (-m * dd - l * k) - (-m * t) == l * (m * m - p * k) + -m * (l * m + p * dd - t)
  {
  }

  // --- the u-coordinate of the sum against the chord ---

  // -N Tail == m delta (1 + c)(w big), with both sides reduced by the curve equations.
  lemma TailMatchesSum(c: Jubjub, m1: Mont, m2: Mont)
    requires c.field.Eq(m1.y * m1.y, Cubic(c.montA, m1.x)) && c.field.Eq(m2.y * m2.y, Cubic(c.montA, m2.x))
    ensures
      var w, p, s, a, delta := m1.y * m2.y, m1.x * m2.x, m1.x + m2.x, c.montA, m2.x - m1.x;
      var big, small := (m1.x + 1) * (m2.x + 1), (m1.x - 1) * (m2.x - 1);
      c.field.Eq(-NumeratorU(m1.x, m1.y, m2.x, m2.y) * Tail(a, s, p, w),
                 (m1.y * m2.x - m1.x * m2.y) * (delta * (w * big + ((a - 2) * p) * small)))
  {
    var q, x1, y1, x2, y2, a := c.field.q, m1.x, m1.y, m2.x, m2.y, c.montA;
    var w, p, s, delta, big, small := y1 * y2, x1 * x2, x1 + x2, x2 - x1, (x1 + 1) * (x2 + 1), (x1 - 1) * (x2 - 1);
    var a2, a1, f1, f2 := x1 * (x1 + 1) * (x2 - 1), x2 * (x2 + 1) * (x1 - 1), Cubic(a, x1), Cubic(a, x2);
    var n, m := a2 * y2 + a1 * y1, -x1 * y2 + x2 * y1;
    ReduceTimesW(q, a2, y2, a1, y1, f1, f2);
    ReduceTimesW(q, -x1, y2, x2, y1, f1, f2);
    TailReduction(a, x1, y1, x2, y2, n, m, w);
    Combine2(q, -n * Tail(a, s, p, w), m * (delta * (w * big + ((a - 2) * p) * small)),
                -s, n * w, (a2 * f2) * y1 + (a1 * f1) * y2,
                -(delta * big), m * w, (-x1 * f2) * y1 + (x2 * f1) * y2);
    assert m == y1 * x2 - x1 * y2 by { Negate(x1, y2); }
  }

  lemma ReduceTimesW(q: int, b2: int, y2: int, b1: int, y1: int, f1: int, f2: int)
    requires Cong(q, y1 * y1, f1) && Cong(q, y2 * y2, f2)
    ensures Cong(q, (b2 * y2 + b1 * y1) * (y1 * y2), (b2 * f2) * y1 + (b1 * f1) * y2)
  {
    TimesW(b2, y2, b1, y1, f1, f2);
    Combine2(q, (b2 * y2 + b1 * y1) * (y1 * y2), (b2 * f2) * y1 + (b1 * f1) * y2, b2 * y1, y2 * y2, f2, b1 * y2, y1 * y1, f1);
  }

  lemma TimesW(b2: int, y2: int, b1: int, y1: int, f1: int, f2: int)
    ensures (b2 * y2 + b1 * y1) * (y1 * y2) - ((b2 * f2) * y1 + (b1 * f1) * y2)
         == (b2 * y1) * (y2 * y2 - f2) + (b1 * y2) * (y1 * y1 - f1)
  {
  }

  lemma TailReduction(a: int, x1: int, y1: int, x2: int, y2: int, n: int, m: int, w: int)
    requires n == (x1 * (x1 + 1) * (x2 - 1)) * y2 + (x2 * (x2 + 1) * (x1 - 1)) * y1 && m == -x1 * y2 + x2 * y1
    ensures
      var p, s, delta, big, small := x1 * x2, x1 + x2, x2 - x1, (x1 + 1) * (x2 + 1), (x1 - 1) * (x2 - 1);
      var a2, a1, f1, f2 := x1 * (x1 + 1) * (x2 - 1), x2 * (x2 + 1) * (x1 - 1), Cubic(a, x1), Cubic(a, x2);
      -n * Tail(a, s, p, w) - m * (delta * (w * big + ((a - 2) * p) * small))
      == -s * (n * w - ((a2 * f2) * y1 + (a1 * f1) * y2))
         + -(delta * big) * (m * w - ((-x1 * f2) * y1 + (x2 * f1) * y2))
  {
    var p, s, delta, big, small := x1 * x2, x1 + x2, x2 - x1, (x1 + 1) * (x2 + 1), (x1 - 1) * (x2 - 1);
    var a2, a1, f1, f2 := x1 * (x1 + 1) * (x2 - 1), x2 * (x2 + 1) * (x1 - 1), Cubic(a, x1), Cubic(a, x2);
    var t, g := 2 * p + a * s + 2, (a - 2) * p;
    var pt, db, dr := p * t, delta * big, delta * (g * small);
    Coefficient(a, x1, x2);
    CoefficientSwapped(a, x1, x2);
    SplitTail(n, w, s, pt, m, delta, big, g * small);
    SpreadY(s, pt, db, dr, a2, a1, x1, x2, f1, f2, y1, y2);
    FinishTail(n * w, m * w, s, db, (a2 * f2) * y1 + (a1 * f1) * y2, (-x1 * f2) * y1 + (x2 * f1) * y2, pt * n, dr * m);
  }

  lemma FinishTail(nw: int, mw: int, s: int, db: int, e: int, f: int, ptn: int, drm: int)
    requires -s * e + ptn - db * f - drm == 0
    ensures -s * nw + ptn - db * mw - drm == -s * (nw - e) + -db * (mw - f)
  {
  }

  lemma CoefficientSwapped(a: int, x1: int, x2: int)
    ensures
      var p, s, delta, big, small := x1 * x2, x1 + x2, x2 - x1, (x1 + 1) * (x2 + 1), (x1 - 1) * (x2 - 1);
      var a2, a1 := x1 * (x1 + 1) * (x2 - 1), x2 * (x2 + 1) * (x1 - 1);
      -s * (a1 * Cubic(a, x1)) + (p * (2 * p + a * s + 2)) * a2 - (delta * big) * (x2 * Cubic(a, x1))
      + (delta * (((a - 2) * p) * small)) * x1 == 0
  {
    Coefficient(a, x2, x1);
    var p, s, delta, big, small := x1 * x2, x1 + x2, x2 - x1, (x1 + 1) * (x2 + 1), (x1 - 1) * (x2 - 1);
    assert x2 * x1 == p && (x2 + 1) * (x1 + 1) == big && (x2 - 1) * (x1 - 1) == small;
    NegatedFactor(delta, big, x2 * Cubic(a, x1));
    NegatedFactor(delta, ((a - 2) * p) * small, x1);
  }

  lemma NegatedFactor(d: int, e: int, f: int)
    ensures (-d * e) * f == -((d * e) * f)
  {
  }

  lemma SplitTail(n: int, w: int, s: int, pt: int, m: int, delta: int, big: int, rest: int)
    ensures -n * (w * s - pt) - m * (delta * (w * big + rest))
         == -s * (n * w) + pt * n - (delta * big) * (m * w) - (delta * rest) * m
  {
    assert m * (delta * (w * big + rest)) == (delta * big) * (m * w) + (delta * rest) * m;
  }

  lemma SpreadY(s: int, pt: int, db: int, dr: int, a2: int, a1: int, x1: int, x2: int, f1: int, f2: int, y1: int, y2: int)
    requires -s * (a2 * f2) + pt * a1 + db * (x1 * f2) - dr * x2 == 0
    requires -s * (a1 * f1) + pt * a2 - db * (x2 * f1) + dr * x1 == 0
    ensures -s * ((a2 * f2) * y1 + (a1 * f1) * y2) + pt * (a2 * y2 + a1 * y1)
            - db * ((-x1 * f2) * y1 + (x2 * f1) * y2) - dr * (-x1 * y2 + x2 * y1) == 0
  {
    var e1, e2 := a2 * f2, a1 * f1;
    var g1, g2 := x1 * f2, x2 * f1;
    SpreadTerms(s, pt, db, dr, e1, e2, g1, g2, a1, a2, x1, x2, y1, y2);
    assert -x1 * f2 == -g1;
  }

  lemma SpreadTerms(s: int, pt: int, db: int, dr: int, e1: int, e2: int, g1: int, g2: int,
                    a1: int, a2: int, x1: int, x2: int, y1: int, y2: int)
    ensures -s * (e1 * y1 + e2 * y2) + pt * (a2 * y2 + a1 * y1) - db * (-g1 * y1 + g2 * y2) - dr * (-x1 * y2 + x2 * y1)
         == (-s * e1 + pt * a1 + db * g1 - dr * x2) * y1 + (-s * e2 + pt * a2 - db * g2 + dr * x1) * y2
  {
    SpreadOne(s, e1, y1, e2, y2);
    SpreadOne(pt, a2, y2, a1, y1);
    SpreadOne(db, -g1, y1, g2, y2);
    SpreadOne(dr, -x1, y2, x2, y1);
  }

  lemma SpreadOne(k: int, a: int, b: int, c: int, d: int)
    ensures k * (a * b + c * d) == (k * a) * b + (k * c) * d
  {
  }

  // The coefficient of y1 vanishes; by symmetry so does that of y2.
  lemma Coefficient(a: int, x1: int, x2: int)
    ensures
      var p, s, delta, big, small := x1 * x2, x1 + x2, x2 - x1, (x1 + 1) * (x2 + 1), (x1 - 1) * (x2 - 1);
      var a2, a1 := x1 * (x1 + 1) * (x2 - 1), x2 * (x2 + 1) * (x1 - 1);
      -s * (a2 * Cubic(a, x2)) + (p * (2 * p + a * s + 2)) * a1 + (delta * big) * (x1 * Cubic(a, x2))
      - (delta * (((a - 2) * p) * small)) * x2 == 0
  {
    var g, t := x2 * x2 + a * x2 + 1, 2 * (x1 * x2) + a * (x1 + x2) + 2;
    CoefficientCore(a, x1, x2);
    var core := t * (x2 + 1) - 2 * (x1 + 1) * g - (x2 - x1) * (a - 2) * (x2 - 1);
    CoefficientParts(a, x1, x2, g, t);
    assert (x1 * x2) * (x2 * (x1 - 1)) * core == 0;
  }

  lemma CoefficientCore(a: int, x1: int, x2: int)
    ensures (2 * (x1 * x2) + a * (x1 + x2) + 2) * (x2 + 1) - 2 * (x1 + 1) * (x2 * x2 + a * x2 + 1)
            - (x2 - x1) * (a - 2) * (x2 - 1) == 0
  {
    CoreG(a, x1, x2);
    CoreT(a, x1, x2);
    CoreA(a, x1, x2);
  }

  lemma CoreG(a: int, x1: int, x2: int)
    ensures 2 * (x1 + 1) * (x2 * x2 + a * x2 + 1)
         == 2 * (x1 * (x2 * x2)) + 2 * (a * (x1 * x2)) + 2 * x1 + 2 * (x2 * x2) + 2 * (a * x2) + 2
  {
  }

  lemma CoreT(a: int, x1: int, x2: int)
    ensures (2 * (x1 * x2) + a * (x1 + x2) + 2) * (x2 + 1)
         == 2 * (x1 * (x2 * x2)) + 2 * (x1 * x2) + a * (x1 * x2) + a * x1 + a * (x2 * x2) + a * x2 + 2 * x2 + 2
  {
  }

  lemma CoreA(a: int, x1: int, x2: int)
    ensures (x2 - x1) * (a - 2) * (x2 - 1)
         == a * (x2 * x2) - a * x2 - a * (x1 * x2) + a * x1 - 2 * (x2 * x2) + 2 * x2 + 2 * (x1 * x2) - 2 * x1
  {
  }

  lemma CoefficientParts(a: int, x1: int, x2: int, g: int, t: int)
    ensures
      var p, s, delta, big, small := x1 * x2, x1 + x2, x2 - x1, (x1 + 1) * (x2 + 1), (x1 - 1) * (x2 - 1);
      var a2, a1 := x1 * (x1 + 1) * (x2 - 1), x2 * (x2 + 1) * (x1 - 1);
      -s * (a2 * (x2 * g)) + (p * t) * a1 + (delta * big) * (x1 * (x2 * g)) - (delta * (((a - 2) * p) * small)) * x2
      == p * (x2 * (x1 - 1)) * (t * (x2 + 1) - 2 * (x1 + 1) * g - (x2 - x1) * (a - 2) * (x2 - 1))
  {
    var p, s, delta, big, small := x1 * x2, x1 + x2, x2 - x1, (x1 + 1) * (x2 + 1), (x1 - 1) * (x2 - 1);
    var a2, a1 := x1 * (x1 + 1) * (x2 - 1), x2 * (x2 + 1) * (x1 - 1);
    PartG(x1, x2, g);
    PartT(x1, x2, p, t);
    PartA(x1, x2, p, a - 2);
    var z := p * (x2 * (x1 - 1));
    Distribute3(z, t * (x2 + 1), 2 * (x1 + 1) * g, (x2 - x1) * (a - 2) * (x2 - 1));
  }

  lemma Distribute3(z: int, e: int, f: int, h: int)
    ensures z * (e - f - h) == z * e - z * f - z * h
  {
  }

  lemma PartG(x1: int, x2: int, g: int)
    ensures -(x1 + x2) * ((x1 * (x1 + 1) * (x2 - 1)) * (x2 * g)) + ((x2 - x1) * ((x1 + 1) * (x2 + 1))) * (x1 * (x2 * g))
         == -(((x1 * x2) * (x2 * (x1 - 1))) * (2 * (x1 + 1) * g))
  {
    var e := (x1 + 1) * (x1 * (x2 * g));
    PartG1(x1, x2 - 1, x2 * g);
    PartG2(x2 - x1, x1, x2 + 1, x2 * g);
    PartG3(x1, x2, e);
    PartG4(x1, x2, x2 * (x1 - 1), g);
  }

  lemma PartG1(x1: int, z: int, h: int)
    ensures (x1 * (x1 + 1) * z) * h == z * ((x1 + 1) * (x1 * h))
  {
  }

  lemma PartG2(delta: int, x1: int, z: int, h: int)
    ensures (delta * ((x1 + 1) * z)) * (x1 * h) == (delta * z) * ((x1 + 1) * (x1 * h))
  {
  }

  lemma PartG3(x1: int, x2: int, e: int)
    ensures -(x1 + x2) * ((x2 - 1) * e) + ((x2 - x1) * (x2 + 1)) * e == -(2 * (x2 * (x1 - 1)) * e)
  {
    assert (x1 + x2) * ((x2 - 1) * e) == ((x1 + x2) * (x2 - 1)) * e;
    assert (x2 - x1) * (x2 + 1) - (x1 + x2) * (x2 - 1) == -(2 * (x2 * (x1 - 1)));
  }

  lemma PartG4(x1: int, x2: int, z: int, g: int)
    ensures ((x1 * x2) * z) * (2 * (x1 + 1) * g) == 2 * z * ((x1 + 1) * (x1 * (x2 * g)))
  {
  }

  lemma PartT(x1: int, x2: int, p: int, t: int)
    ensures (p * t) * (x2 * (x2 + 1) * (x1 - 1)) == (p * (x2 * (x1 - 1))) * (t * (x2 + 1))
  {
  }

  lemma PartA(x1: int, x2: int, p: int, b: int)
    ensures ((x2 - x1) * ((b * p) * ((x1 - 1) * (x2 - 1)))) * x2 == (p * (x2 * (x1 - 1))) * ((x2 - x1) * b * (x2 - 1))
  {
  }

  // --- the theorem ---

  // Any wires satisfying the chord equations are the Montgomery coordinates of the Edwards sum.
  lemma ChordIsSum(c: Jubjub, p1: Coords, m1: Mont, p2: Coords, m2: Mont, slope: int, m3: Mont, p3: Coords)
    requires c.Valid() && c.OnCurve(p1) && c.OnCurve(p2) && c.IsSum(p1, p2, p3)
    requires !c.field.Eq(p1.u, 0) && IsMontgomery(c, p1, m1)
    requires !c.field.Eq(p2.u, 0) && IsMontgomery(c, p2, m2)
    requires !c.field.Eq(m1.x, m2.x)
    requires ChordConstraints(c, m1, m2, slope, m3)
    ensures IsMontgomery(c, p3, m3)
  {
    MontgomeryEquation(c, p1, m1);
    MontgomeryEquation(c, p2, m2);
    assert MontRhs(c, m1.x) == Cubic(c.montA, m1.x) && MontRhs(c, m2.x) == Cubic(c.montA, m2.x);
    ChordX3(c, p1, m1, p2, m2, slope, m3, p3);
    ChordY3(c, p1, m1, p2, m2, slope, m3, p3);
  }

  // The cleared denominators are non-zero.
  lemma ClearedNonZero(c: Jubjub, p1: Coords, m1: Mont, p2: Coords, m2: Mont)
    requires c.Valid() && c.OnCurve(p1) && c.OnCurve(p2)
    requires !c.field.Eq(p1.u, 0) && IsMontgomery(c, p1, m1)
    requires !c.field.Eq(p2.u, 0) && IsMontgomery(c, p2, m2)
    requires !c.field.Eq(m1.x, m2.x)
    ensures
      var cross, delta := c.CrossTerm(p1, p2), m2.x - m1.x;
      var scaled := (m1.y * m2.y) * ((m1.x + 1) * (m2.x + 1));
      && !c.field.Eq((1 - cross) * scaled, 0)
      && !c.field.Eq((1 + cross) * scaled, 0)
      && !c.field.Eq(delta * delta, 0)
      && !c.field.Eq((m1.x * m2.x) * (delta * (delta * delta)), 0)
  {
    var f, delta := c.field, m2.x - m1.x;
    MontgomeryNonZero(c, p1, m1);
    MontgomeryNonZero(c, p2, m2);
    c.DenominatorsNonZero(p1, p2);
    f.NonZeroProduct(m1.y, m2.y);
    f.NonZeroProduct(m1.x + 1, m2.x + 1);
    f.NonZeroProduct(m1.y * m2.y, (m1.x + 1) * (m2.x + 1));
    f.NonZeroProduct(1 - c.CrossTerm(p1, p2), (m1.y * m2.y) * ((m1.x + 1) * (m2.x + 1)));
    f.NonZeroProduct(1 + c.CrossTerm(p1, p2), (m1.y * m2.y) * ((m1.x + 1) * (m2.x + 1)));
    if f.Eq(delta, 0) {
      CongDiff(f.q, m2.x, m1.x);
      CongSym(f.q, m2.x, m1.x);
    }
    f.NonZeroProduct(delta, delta);
    f.NonZeroProduct(delta, delta * delta);
    f.NonZeroProduct(m1.x, m2.x);
    f.NonZeroProduct(m1.x * m2.x, delta * (delta * delta));
  }

  lemma ChordX3(c: Jubjub, p1: Coords, m1: Mont, p2: Coords, m2: Mont, slope: int, m3: Mont, p3: Coords)
    requires c.Valid() && c.OnCurve(p1) && c.OnCurve(p2) && c.IsSum(p1, p2, p3)
    requires !c.field.Eq(p1.u, 0) && IsMontgomery(c, p1, m1)
    requires !c.field.Eq(p2.u, 0) && IsMontgomery(c, p2, m2)
    requires !c.field.Eq(m1.x, m2.x)
    requires ChordConstraints(c, m1, m2, slope, m3)
    requires c.field.Eq(m1.y * m1.y, Cubic(c.montA, m1.x)) && c.field.Eq(m2.y * m2.y, Cubic(c.montA, m2.x))
    ensures c.field.Eq((1 - p3.v) * m3.x, 1 + p3.v)
  {
    var w, p, s, a, delta := m1.y * m2.y, m1.x * m2.x, m1.x + m2.x, c.montA, m2.x - m1.x;
    var dd, den := delta * delta, (1 - c.CrossTerm(p1, p2)) * (w * ((m1.x + 1) * (m2.x + 1)));
    ClearedNonZero(c, p1, m1, p2, m2);
    ChordXEquation(c, m1, m2, slope, m3);
    ChordMatchesSum(c, m1, m2);
    SumV(c, p1, m1, p2, m2, p3);
    CancelX3(c.field, dd, den, m3.x, p3.v, ChordX(a, s, p, w), HalfDifference(a, s, p, w), HalfSum(a, s, p, w));
  }

  lemma CancelX3(f: Field, dd: int, den: int, x3: int, v3: int, k: int, hd: int, hs: int)
    requires f.Valid() && !f.Eq(dd, 0) && !f.Eq(den, 0)
    requires f.Eq(dd * x3, k) && f.Eq(den * (1 - v3), 2 * hd) && f.Eq(den * (1 + v3), 2 * hs)
    requires f.Eq(k * hd, dd * hs)
    ensures f.Eq((1 - v3) * x3, 1 + v3)
  {
    var q := f.q;
    CongMul(q, dd * x3, k, den * (1 - v3), 2 * hd);
    CongScale(q, 2, k * hd, dd * hs);
    CongScale(q, dd, den * (1 + v3), 2 * hs);
    CancelX3Terms(dd, den, x3, 1 - v3, 1 + v3, k, hd, hs);
    f.NonZeroProduct(dd, den);
    f.CancelVia(dd * den, (1 - v3) * x3, 1 + v3, 2 * (k * hd), 2 * (dd * hs));
  }

  lemma CancelX3Terms(dd: int, den: int, x3: int, e: int, g: int, k: int, hd: int, hs: int)
    ensures (dd * x3) * (den * e) == (dd * den) * (e * x3)
    ensures k * (2 * hd) == 2 * (k * hd)
    ensures dd * (den * g) == (dd * den) * g && dd * (2 * hs) == 2 * (dd * hs)
  {
  }

  lemma ChordY3(c: Jubjub, p1: Coords, m1: Mont, p2: Coords, m2: Mont, slope: int, m3: Mont, p3: Coords)
    requires c.Valid() && c.OnCurve(p1) && c.OnCurve(p2) && c.IsSum(p1, p2, p3)
    requires !c.field.Eq(p1.u, 0) && IsMontgomery(c, p1, m1)
    requires !c.field.Eq(p2.u, 0) && IsMontgomery(c, p2, m2)
    requires !c.field.Eq(m1.x, m2.x)
    requires ChordConstraints(c, m1, m2, slope, m3)
    requires c.field.Eq(m1.y * m1.y, Cubic(c.montA, m1.x)) && c.field.Eq(m2.y * m2.y, Cubic(c.montA, m2.x))
    ensures c.field.Eq(p3.u * m3.y, c.scale * m3.x)
  {
    var w, p, s, a, delta := m1.y * m2.y, m1.x * m2.x, m1.x + m2.x, c.montA, m2.x - m1.x;
    var den := (1 + c.CrossTerm(p1, p2)) * (w * ((m1.x + 1) * (m2.x + 1)));
    var m, n := m1.y * m2.x - m1.x * m2.y, NumeratorU(m1.x, m1.y, m2.x, m2.y);
    ClearedNonZero(c, p1, m1, p2, m2);
    ChordXEquation(c, m1, m2, slope, m3);
    ChordYEquation(c, m1, m2, slope, m3);
    InterceptEquations(c, m1, m2);
    SumU(c, p1, m1, p2, m2, p3);
    TailAgainstDenominator(c, p1, m1, p2, m2);
    CancelY3(c.field, p, delta, den, p3.u, m3.x, m3.y, ChordX(a, s, p, w), Tail(a, s, p, w), m, n, c.scale);
  }

  lemma TailAgainstDenominator(c: Jubjub, p1: Coords, m1: Mont, p2: Coords, m2: Mont)
    requires c.Valid() && IsMontgomery(c, p1, m1) && IsMontgomery(c, p2, m2)
    requires c.field.Eq(m1.y * m1.y, Cubic(c.montA, m1.x)) && c.field.Eq(m2.y * m2.y, Cubic(c.montA, m2.x))
    ensures
      var w, p, s, delta := m1.y * m2.y, m1.x * m2.x, m1.x + m2.x, m2.x - m1.x;
      var den := (1 + c.CrossTerm(p1, p2)) * (w * ((m1.x + 1) * (m2.x + 1)));
      c.field.Eq(-NumeratorU(m1.x, m1.y, m2.x, m2.y) * Tail(c.montA, s, p, w),
                 (m1.y * m2.x - m1.x * m2.y) * (delta * den))
  {
    var q, w, p, s, delta, a := c.field.q, m1.y * m2.y, m1.x * m2.x, m1.x + m2.x, m2.x - m1.x, c.montA;
    var big, small := (m1.x + 1) * (m2.x + 1), (m1.x - 1) * (m2.x - 1);
    var cross, m := c.CrossTerm(p1, p2), m1.y * m2.x - m1.x * m2.y;
    TailMatchesSum(c, m1, m2);
    ProductsOfCoordinates(c, p1, m1, p2, m2);
    ClearedCrossTerm(c, p1.v * p2.v, p1.u * p2.u, big, small, w, p);
    CrossTermProducts(c, p1, p2);
    ScaledCross(q, cross, w * big, ((a - 2) * p) * small, m, delta);
    CongTrans(q, -NumeratorU(m1.x, m1.y, m2.x, m2.y) * Tail(a, s, p, w),
              m * (delta * (w * big + ((a - 2) * p) * small)), m * (delta * ((1 + cross) * (w * big))));
  }

  lemma ScaledCross(q: int, cross: int, e: int, r: int, m: int, delta: int)
    requires Cong(q, cross * e, r)
    ensures Cong(q, m * (delta * (e + r)), m * (delta * ((1 + cross) * e)))
  {
    assert (1 + cross) * e == e + cross * e;
    CongSym(q, cross * e, r);
    CongRefl(q, e);
    CongAdd(q, e, e, r, cross * e);
    CongScale(q, delta, e + r, e + cross * e);
    CongScale(q, m, delta * (e + r), delta * (e + cross * e));
  }

  lemma CancelY3(f: Field, p: int, delta: int, den: int, u3: int, x3: int, y3: int,
                 k: int, t: int, m: int, n: int, sc: int)
    requires f.Valid() && !f.Eq(den, 0) && !f.Eq(p * (delta * (delta * delta)), 0)
    requires f.Eq((delta * delta) * x3, k) && f.Eq((p * (delta * (delta * delta))) * y3, -m * t)
    requires f.Eq(m * m, p * k) && f.Eq(den * u3, sc * n) && f.Eq(-n * t, m * (delta * den))
    ensures f.Eq(u3 * y3, sc * x3)
  {
    var q, ddd := f.q, delta * (delta * delta);
    // den u3 p delta^3 y3 == sc n (-m t) == sc m m delta den
    CongMul(q, den * u3, sc * n, (p * ddd) * y3, -m * t);
    CongScale(q, sc * m, -n * t, m * (delta * den));
    CancelY3Left(den, u3, p * ddd, y3, sc, n, m, t);
    CongTrans(q, (den * (p * ddd)) * (u3 * y3), (sc * m) * (-n * t), (sc * m) * (m * (delta * den)));
    // sc m m delta den == sc delta den p k == den p delta^3 (sc x3)
    CongScale(q, sc * (delta * den), m * m, p * k);
    CongScale(q, (sc * (delta * den)) * p, (delta * delta) * x3, k);
    CancelY3Right(den, delta, p, x3, sc, m, k);
    CongSym(q, (den * (p * ddd)) * (sc * x3), (sc * (delta * den)) * (p * k));
    CongTrans(q, (den * (p * ddd)) * (u3 * y3), (sc * (delta * den)) * (m * m), (sc * (delta * den)) * (p * k));
    CongTrans(q, (den * (p * ddd)) * (u3 * y3), (sc * (delta * den)) * (p * k), (den * (p * ddd)) * (sc * x3));
    f.NonZeroProduct(den, p * ddd);
    f.Cancel(den * (p * ddd), u3 * y3, sc * x3);
  }

  lemma CancelY3Left(den: int, u3: int, e: int, y3: int, sc: int, n: int, m: int, t: int)
    ensures (den * u3) * (e * y3) == (den * e) * (u3 * y3)
    ensures (sc * n) * (-m * t) == (sc * m) * (-n * t)
  {
    MulSwap(den, u3, e, y3);
    assert (sc * n) * (m * t) == (sc * m) * (n * t);
  }

  lemma CancelY3Right(den: int, delta: int, p: int, x3: int, sc: int, m: int, k: int)
    ensures (sc * m) * (m * (delta * den)) == (sc * (delta * den)) * (m * m)
    ensures ((sc * (delta * den)) * p) * ((delta * delta) * x3) == (den * (p * (delta * (delta * delta)))) * (sc * x3)
    ensures ((sc * (delta * den)) * p) * k == (sc * (delta * den)) * (p * k)
  {
    RightOne(sc, m, delta * den);
    RightTwo(den, delta, p, x3, sc);
  }

  lemma RightOne(sc: int, m: int, e: int)
    ensures (sc * m) * (m * e) == (sc * e) * (m * m)
  {
  }

  lemma RightTwo(den: int, delta: int, p: int, x3: int, sc: int)
    ensures ((sc * (delta * den)) * p) * ((delta * delta) * x3) == (den * (p * (delta * (delta * delta)))) * (sc * x3)
  {
  }
}
