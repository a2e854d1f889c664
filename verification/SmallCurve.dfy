/** The hypotheses on the curve have a model: the eight points of -u^2 + v^2 = 1 + 3 u^2 v^2 modulo 5,
all multiples of (1, 2). */
module SmallCurve {
  import opened Wrappers
  import opened Residues
  import opened Groups
  import opened EdwardsCurve
  import opened JubjubGroup

  // A residue modulo 8: the point that is so many times (1, 2).
  type Eighth = k: int | 0 <= k < 8

  function U(k: Eighth): int {
    if k == 0 || k == 4 then 0 else if k == 1 || k == 3 then 1 else if k == 2 then -2 else if k == 6 then 2 else -1
  }

  function V(k: Eighth): int {
    if k == 2 || k == 6 then 0 else if k == 1 || k == 7 then 2 else if k == 3 || k == 5 then -2 else if k == 0 then 1 else -1
  }

  function InvertModuloFive(a: int): Option<int> {
    if a % 5 == 0 then None else Some(if a % 5 == 2 then 3 else if a % 5 == 3 then 2 else a % 5)
  }

  function Params(): Jubjub {
    Jubjub(Field(5, InvertModuloFive), 3, 2, 2, 4)
  }

  function AddEighths(a: Eighth, b: Eighth): Eighth {
    if a + b < 8 then a + b else a + b - 8
  }

  function NegEighth(a: Eighth): Eighth {
    if a == 0 then 0 else 8 - a
  }

  function EightPoints(): Curve<Eighth> {
    var add: (Eighth, Eighth) -> Eighth := AddEighths;
    var neg: Eighth -> Eighth := NegEighth;
    var u: Eighth -> int := U;
    var v: Eighth -> int := V;
    Curve(Group(0, add, neg), Params(), u, v)
  }

  lemma ModuloFive(a: int, b: int)
    ensures Cong(5, a, b) <==> (a - b) % 5 == 0
  {
    if Cong(5, a, b) {
      var k := Quotient(5, a, b);
    }
    if (a - b) % 5 == 0 { CongBy(5, a, b, (a - b) / 5); }
  }

  // --- the field and its constants ---

  lemma RemainderProduct(k: int, r: int, b: int)
    ensures ((5 * k + r) * b - r * b) % 5 == 0
  {
    assert (5 * k + r) * b == 5 * (k * b) + r * b;
  }

  lemma InverseTable(r: int, b: int)
    requires 0 < r < 5 && InvertModuloFive(r) == Some(b)
    ensures r * b == 1 || r * b == 6 || r * b == 16
  {
  }

  lemma OneModuloFive(n: int, m: int)
    requires (n - m) % 5 == 0 && (m == 1 || m == 6 || m == 16)
    ensures (n - 1) % 5 == 0
  {
  }

  lemma InvertFive(a: int)
    ensures Params().field.InverseAt(a)
  {
    var r := a % 5;
    ModuloFive(a, 0);
    if r != 0 {
      var b := InvertModuloFive(a).value;
      RemainderProduct(a / 5, r, b);
      InverseTable(r, b);
      OneModuloFive(a * b, r * b);
      ModuloFive(a * b, 1);
    }
  }

  lemma SmallSquare(r: int)
    requires 0 <= r < 5
    ensures r * r == 0 || r * r == 1 || r * r == 4 || r * r == 9 || r * r == 16
  {
  }

  lemma NotThree(n: int, m: int, s: int)
    requires (n - m) % 5 == 0 && (m - s) % 5 == 0 && (s == 0 || s == 1 || s == 4 || s == 9 || s == 16)
    ensures (n - 3) % 5 != 0
  {
  }

  lemma ThreeIsNotSquare(x: int)
    ensures !Cong(5, x * x, 3)
  {
    var k, r := x / 5, x % 5;
    RemainderProduct(k, r, x);
    RemainderProduct(k, r, r);
    SmallSquare(r);
    NotThree(x * x, x * r, r * r) by { assert r * x == x * r; }
    ModuloFive(x * x, 3);
  }

  lemma ParamsValid()
    ensures Params().Valid()
  {
    forall a: int ensures Params().field.InverseAt(a) {
      InvertFive(a);
    }
    forall x: int ensures Params().NotRootOfD(x) {
      ThreeIsNotSquare(x);
    }
    ModuloFive(4, -1);
    ModuloFive(4, -6);
    ModuloFive(12, 2);
  }

  // --- the points ---

  predicate PointAt(k: Eighth, u: int, v: int) {
    U(k) == u && V(k) == v
  }

  // A sum given by numbers: a and b are the two products, c is the cross term, n the numerator of v.
  lemma NumbersAdd(u1: int, v1: int, u2: int, v2: int, u3: int, v3: int, a: int, b: int, c: int, n: int)
    requires a == v2 * u1 && b == u2 * v1 && c == 3 * a * b && n == v1 * v2 + u1 * u2
    requires ((1 + c) * u3 - (a + b)) % 5 == 0 && ((1 - c) * v3 - n) % 5 == 0
    ensures Params().IsSum(Coords(u1, v1), Coords(u2, v2), Coords(u3, v3))
  {
    assert u1 * v2 == a && v1 * u2 == b;
    ModuloFive((1 + c) * u3, a + b);
    ModuloFive((1 - c) * v3, n);
  }

  lemma SumOf(p: Eighth, u1: int, v1: int, r: Eighth, u2: int, v2: int, u3: int, v3: int, a: int, b: int, c: int, n: int)
    requires PointAt(p, u1, v1) && PointAt(r, u2, v2) && PointAt(AddEighths(p, r), u3, v3)
    requires a == v2 * u1 && b == u2 * v1 && c == 3 * a * b && n == v1 * v2 + u1 * u2
    requires ((1 + c) * u3 - (a + b)) % 5 == 0 && ((1 - c) * v3 - n) % 5 == 0
    ensures EightPoints().SumAt(p, r)
  {
    NumbersAdd(u1, v1, u2, v2, u3, v3, a, b, c, n);
  }

  lemma Sums00(r: Eighth)
    requires 0 <= r <= 3
    ensures EightPoints().SumAt(0, r)
  {
    match r {
      case 0 => SumOf(0, 0, 1, r, 0, 1, 0, 1, 0, 0, 0, 1);
      case 1 => SumOf(0, 0, 1, r, 1, 2, 1, 2, 0, 1, 0, 2);
      case 2 => SumOf(0, 0, 1, r, -2, 0, -2, 0, 0, -2, 0, 0);
      case 3 => SumOf(0, 0, 1, r, 1, -2, 1, -2, 0, 1, 0, -2);
    }
  }

  lemma Sums04(r: Eighth)
    requires 4 <= r <= 7
    ensures EightPoints().SumAt(0, r)
  {
    match r {
      case 4 => SumOf(0, 0, 1, r, 0, -1, 0, -1, 0, 0, 0, -1);
      case 5 => SumOf(0, 0, 1, r, -1, -2, -1, -2, 0, -1, 0, -2);
      case 6 => SumOf(0, 0, 1, r, 2, 0, 2, 0, 0, 2, 0, 0);
      case 7 => SumOf(0, 0, 1, r, -1, 2, -1, 2, 0, -1, 0, 2);
    }
  }

  lemma Sums11(r: Eighth)
    requires 1 <= r <= 3
    ensures EightPoints().SumAt(1, r)
  {
    match r {
      case 1 => SumOf(1, 1, 2, r, 1, 2, -2, 0, 2, 2, 12, 5);
      case 2 => SumOf(1, 1, 2, r, -2, 0, 1, -2, 0, -4, 0, -2);
      case 3 => SumOf(1, 1, 2, r, 1, -2, 0, -1, -2, 2, -12, -3);
    }
  }

  lemma Sums14(r: Eighth)
    requires 4 <= r <= 7
    ensures EightPoints().SumAt(1, r)
  {
    match r {
      case 4 => SumOf(1, 1, 2, r, 0, -1, -1, -2, -1, 0, 0, -2);
      case 5 => SumOf(1, 1, 2, r, -1, -2, 2, 0, -2, -2, 12, -5);
      case 6 => SumOf(1, 1, 2, r, 2, 0, -1, 2, 0, 4, 0, 2);
      case 7 => SumOf(1, 1, 2, r, -1, 2, 0, 1, 2, -2, -12, 3);
    }
  }

  lemma Sums22(r: Eighth)
    requires 2 <= r <= 4
    ensures EightPoints().SumAt(2, r)
  {
    match r {
      case 2 => SumOf(2, -2, 0, r, -2, 0, 0, -1, 0, 0, 0, 4);
      case 3 => SumOf(2, -2, 0, r, 1, -2, -1, -2, 4, 0, 0, -2);
      case 4 => SumOf(2, -2, 0, r, 0, -1, 2, 0, 2, 0, 0, 0);
    }
  }

  lemma Sums25(r: Eighth)
    requires 5 <= r <= 7
    ensures EightPoints().SumAt(2, r)
  {
    match r {
      case 5 => SumOf(2, -2, 0, r, -1, -2, -1, 2, 4, 0, 0, 2);
      case 6 => SumOf(2, -2, 0, r, 2, 0, 0, 1, 0, 0, 0, -4);
      case 7 => SumOf(2, -2, 0, r, -1, 2, 1, 2, -4, 0, 0, 2);
    }
  }

  lemma Sums33(r: Eighth)
    requires 3 <= r <= 4
    ensures EightPoints().SumAt(3, r)
  {
    match r {
      case 3 => SumOf(3, 1, -2, r, 1, -2, 2, 0, -2, -2, 12, 5);
      case 4 => SumOf(3, 1, -2, r, 0, -1, -1, 2, -1, 0, 0, 2);
    }
  }

  lemma Sums35(r: Eighth)
    requires 5 <= r <= 7
    ensures EightPoints().SumAt(3, r)
  {
    match r {
      case 5 => SumOf(3, 1, -2, r, -1, -2, 0, 1, -2, 2, -12, 3);
      case 6 => SumOf(3, 1, -2, r, 2, 0, 1, 2, 0, -4, 0, 2);
      case 7 => SumOf(3, 1, -2, r, -1, 2, -2, 0, 2, 2, 12, -5);
    }
  }

  lemma Sums44(r: Eighth)
    requires 4 <= r <= 7
    ensures EightPoints().SumAt(4, r)
  {
    match r {
      case 4 => SumOf(4, 0, -1, r, 0, -1, 0, 1, 0, 0, 0, 1);
      case 5 => SumOf(4, 0, -1, r, -1, -2, 1, 2, 0, 1, 0, 2);
      case 6 => SumOf(4, 0, -1, r, 2, 0, -2, 0, 0, -2, 0, 0);
      case 7 => SumOf(4, 0, -1, r, -1, 2, 1, -2, 0, 1, 0, -2);
    }
  }

  lemma Sums55(r: Eighth)
    requires 5 <= r <= 7
    ensures EightPoints().SumAt(5, r)
  {
    match r {
      case 5 => SumOf(5, -1, -2, r, -1, -2, -2, 0, 2, 2, 12, 5);
      case 6 => SumOf(5, -1, -2, r, 2, 0, 1, -2, 0, -4, 0, -2);
      case 7 => SumOf(5, -1, -2, r, -1, 2, 0, -1, -2, 2, -12, -3);
    }
  }

  lemma Sums66(r: Eighth)
    requires 6 <= r <= 7
    ensures EightPoints().SumAt(6, r)
  {
    match r {
      case 6 => SumOf(6, 2, 0, r, 2, 0, 0, -1, 0, 0, 0, 4);
      case 7 => SumOf(6, 2, 0, r, -1, 2, -1, -2, 4, 0, 0, -2);
    }
  }

  lemma Sums77(r: Eighth)
    requires 7 <= r <= 7
    ensures EightPoints().SumAt(7, r)
  {
    match r {
      case 7 => SumOf(7, -1, 2, r, -1, 2, 2, 0, -2, -2, 12, 5);
    }
  }

  lemma TermsCommute(d: int, u1: int, v1: int, u2: int, v2: int)
    ensures d * (v1 * u2) * (u1 * v2) == d * (v2 * u1) * (u2 * v1)
    ensures u2 * v1 + v2 * u1 == u1 * v2 + v1 * u2 && v2 * v1 + u2 * u1 == v1 * v2 + u1 * u2
  {
    assert d * (v1 * u2) * (u1 * v2) == d * ((v1 * u2) * (u1 * v2)) && d * (v2 * u1) * (u2 * v1) == d * ((v2 * u1) * (u2 * v1));
    assert v1 * u2 == u2 * v1 && u1 * v2 == v2 * u1;
  }

  lemma IsSumCommutes(g: Jubjub, p1: Coords, p2: Coords, p3: Coords)
    requires g.IsSum(p1, p2, p3)
    ensures g.IsSum(p2, p1, p3)
  {
    TermsCommute(g.d, p1.u, p1.v, p2.u, p2.v);
  }

  lemma SumsCommute(p: Eighth, r: Eighth)
    requires EightPoints().SumAt(p, r)
    ensures EightPoints().SumAt(r, p)
  {
    var c := EightPoints();
    IsSumCommutes(c.params, c.Affine(p), c.Affine(r), c.Affine(c.group.add(p, r)));
    assert c.group.add(p, r) == c.group.add(r, p);
  }

  lemma OrderedSums(p: Eighth, r: Eighth)
    requires p <= r
    ensures EightPoints().SumAt(p, r)
  {
    match p {
      case 0 => if r < 4 { Sums00(r); } else { Sums04(r); }
      case 1 => if r < 4 { Sums11(r); } else { Sums14(r); }
      case 2 => if r < 5 { Sums22(r); } else { Sums25(r); }
      case 3 => if r < 5 { Sums33(r); } else { Sums35(r); }
      case 4 => Sums44(r);
      case 5 => Sums55(r);
      case 6 => Sums66(r);
      case 7 => Sums77(r);
    }
  }

  lemma Sums(p: Eighth, r: Eighth)
    ensures EightPoints().SumAt(p, r)
  {
    if p <= r {
      OrderedSums(p, r);
    } else {
      OrderedSums(r, p);
      SumsCommute(r, p);
    }
  }

  lemma PointOf(k: Eighth, u: int, v: int)
    requires PointAt(k, u, v) && (v * v - u * u - (1 + 3 * (u * u) * (v * v))) % 5 == 0
    requires (U(NegEighth(k)) + u) % 5 == 0 && V(NegEighth(k)) == v
    ensures EightPoints().OnCurveAt(k)
  {
    ModuloFive(v * v - u * u, 1 + 3 * (u * u) * (v * v));
    ModuloFive(U(NegEighth(k)), -u);
    CongRefl(5, v);
  }

  lemma PointsLow(k: Eighth)
    requires 0 <= k < 4
    ensures EightPoints().OnCurveAt(k)
  {
    match k {
      case 0 => PointOf(k, 0, 1);
      case 1 => PointOf(k, 1, 2);
      case 2 => PointOf(k, -2, 0);
      case 3 => PointOf(k, 1, -2);
    }
  }

  lemma PointsHigh(k: Eighth)
    requires 4 <= k < 8
    ensures EightPoints().OnCurveAt(k)
  {
    match k {
      case 4 => PointOf(k, 0, -1);
      case 5 => PointOf(k, -1, -2);
      case 6 => PointOf(k, 2, 0);
      case 7 => PointOf(k, -1, 2);
    }
  }

  lemma Distinct(p: Eighth, r: Eighth)
    ensures EightPoints().InjectiveAt(p, r)
  {
    ModuloFive(U(p), U(r));
    ModuloFive(V(p), V(r));
  }

  lemma EighthsAssociate(x: Eighth, y: Eighth, z: Eighth)
    ensures AddEighths(AddEighths(x, y), z) == AddEighths(x, AddEighths(y, z))
  {
  }

  lemma EighthsAreGroup()
    ensures IsGroup(EightPoints().group)
  {
    var g := EightPoints().group;
    forall x: Eighth, y: Eighth, z: Eighth ensures AssociativeAt(g, x, y, z) {
      EighthsAssociate(x, y, z);
    }
    forall x: Eighth, y: Eighth ensures CommutativeAt(g, x, y) {
    }
    forall x: Eighth ensures NeutralAt(g, x) {
    }
  }

  /** All hypotheses on the curve and its group hold together. */
  lemma CurvesExist()
    ensures IsCurve(EightPoints())
  {
    var c := EightPoints();
    EighthsAreGroup();
    ParamsValid();
    CongRefl(5, 0);
    CongRefl(5, 1);
    forall p: Eighth ensures c.OnCurveAt(p) {
      if p < 4 { PointsLow(p); } else { PointsHigh(p); }
    }
    forall p: Eighth, r: Eighth ensures c.SumAt(p, r) {
      Sums(p, r);
    }
    forall p: Eighth, r: Eighth ensures c.InjectiveAt(p, r) {
      Distinct(p, r);
    }
  }

  // --- no other solutions ---

  function Balanced(x: int): (r: int)
    ensures -2 <= r <= 2 && (x - r) % 5 == 0
  {
    if x % 5 <= 2 then x % 5 else x % 5 - 5
  }

  lemma BalancedSquare(r: int)
    requires -2 <= r <= 2
    ensures r == 0 ==> r * r == 0
    ensures r == 1 || r == -1 ==> r * r == 1
    ensures r == 2 || r == -2 ==> r * r == 4
  {
  }

  lemma SquarePairs(s: int, t: int)
    requires (s == 0 || s == 1 || s == 4) && (t == 0 || t == 1 || t == 4)
    requires (t - s - (1 + 3 * s * t)) % 5 == 0
    ensures (s == 0 && t == 1) || (s == 1 && t == 4) || (s == 4 && t == 0)
  {
  }

  function PointWith(a: int, b: int): Eighth {
    if a == 0 then (if b == 1 then 0 else 4)
    else if a == 2 then 6
    else if a == -2 then 2
    else if a == 1 then (if b == 2 then 1 else 3)
    else (if b == 2 then 7 else 5)
  }

  lemma PointWithCoordinates(a: int, b: int)
    requires -2 <= a <= 2 && -2 <= b <= 2 && (b * b - a * a - (1 + 3 * (a * a) * (b * b))) % 5 == 0
    ensures PointAt(PointWith(a, b), a, b)
  {
    BalancedSquare(a);
    BalancedSquare(b);
    SquarePairs(a * a, b * b);
  }

  // The curve equation does not depend on the representatives.
  lemma OnCurveBalanced(e: Coords)
    requires Params().OnCurve(e)
    ensures Params().OnCurve(Coords(Balanced(e.u), Balanced(e.v)))
  {
    var q, a, b := 5, Balanced(e.u), Balanced(e.v);
    ModuloFive(e.u, a);
    ModuloFive(e.v, b);
    CongSquare(q, e.u, a);
    CongSquare(q, e.v, b);
    CongSub(q, e.v * e.v, b * b, e.u * e.u, a * a);
    CongScale(q, 3, e.u * e.u, a * a);
    CongMul(q, 3 * (e.u * e.u), 3 * (a * a), e.v * e.v, b * b);
    CongRefl(q, 1);
    CongAdd(q, 1, 1, 3 * (e.u * e.u) * (e.v * e.v), 3 * (a * a) * (b * b));
    CongSym(q, e.v * e.v - e.u * e.u, b * b - a * a);
    CongTrans(q, b * b - a * a, e.v * e.v - e.u * e.u, 1 + 3 * (e.u * e.u) * (e.v * e.v));
    CongTrans(q, b * b - a * a, 1 + 3 * (e.u * e.u) * (e.v * e.v), 1 + 3 * (a * a) * (b * b));
  }

  lemma SolutionIsPoint(e: Coords)
    ensures PointExists(EightPoints(), e)
  {
    if Params().OnCurve(e) {
      var a, b := Balanced(e.u), Balanced(e.v);
      OnCurveBalanced(e);
      ModuloFive(b * b - a * a, 1 + 3 * (a * a) * (b * b));
      PointWithCoordinates(a, b);
      ModuloFive(e.u, a);
      ModuloFive(e.v, b);
      assert At(EightPoints(), e, PointWith(a, b));
    }
  }

  /** These are all the points of the curve. */
  lemma AllPointsExist()
    ensures HasAllPoints(EightPoints())
  {
    forall e: Coords ensures PointExists(EightPoints(), e) {
      SolutionIsPoint(e);
    }
  }
}
