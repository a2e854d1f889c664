/** The constants the circuit hard-codes, checked against the equations the proofs assume of them.
Two facts are left as assumptions: that the integers modulo q are a field, and that d is not a square
in it. */
module JubjubConstants {
  import opened Residues
  import opened EdwardsCurve
  import opened Powers
  import opened PedersenSpec

  const Q: int := 0x73eda753299d7d483339d80809a1d80553bda402fffe5bfeffffffff00000001
  const EDWARDS_D: int := 0x2a9318e74bfa2b48f5fd9207e6bd7fd4292d7f6d37579d2601065fd6d6343eb1
  const MONTGOMERY_A: int := 0xa002
  const MONTGOMERY_SCALE: int := 0x2762de61e862645e31de341e77d764e5ce4069703da88abd8f4535f7cf82b8d9
  const ROOT_OF_MINUS_ONE: int := 0x8d51ccce760304d0ec030002760300000001000000000000

  lemma RootOfMinusOne()
    ensures Cong(Q, ROOT_OF_MINUS_ONE * ROOT_OF_MINUS_ONE, -1)
  {
    CongBy(Q, ROOT_OF_MINUS_ONE * ROOT_OF_MINUS_ONE, -1, 0xac45a4010001a4020000000100000001);
  }

  lemma ScaleSquared()
    ensures Cong(Q, MONTGOMERY_SCALE * MONTGOMERY_SCALE, -(MONTGOMERY_A + 2))
  {
    CongBy(Q, MONTGOMERY_SCALE * MONTGOMERY_SCALE, -(MONTGOMERY_A + 2),
           0xd619da8e0acf9f02325699aed135b666d8082c00dab118979d67e622fdd47f5);
  }

  lemma ScaledD()
    ensures Cong(Q, EDWARDS_D * (MONTGOMERY_SCALE * MONTGOMERY_SCALE), MONTGOMERY_A - 2)
  {
    CongBy(Q, EDWARDS_D * (MONTGOMERY_SCALE * MONTGOMERY_SCALE), MONTGOMERY_A - 2,
           0x239b4387aab298f84b5d5297984db58f9ccea4d9d56ca999d6824031fc1b4a986018d5930cb0ae9b2bd9824272f2379832507110f3a7a73b549ee621b2fdba1);
  }

  // d is -(10240/10241), the value from which the Montgomery coefficient is derived.
  lemma DIsRatio()
    ensures Cong(Q, 10241 * EDWARDS_D, -10240)
  {
    CongBy(Q, 10241 * EDWARDS_D, -10240, 0xeb1);
  }

  // The field order has 255 bits.
  lemma FieldSize()
    ensures Pow(2, 254) < Q < Pow(2, 255)
  {
    assert Pow(2, 2) == 2 * Pow(2, 1) == 4 * Pow(2, 0) == 4 && Pow(2, 4) == 4 * Pow(2, 2) == 16;
    PowPow(2, 4, 63);
    SixteenTo63();
    PowAdd(2, 252, 2);
    assert Pow(2, 255) == 2 * Pow(2, 254);
  }

  /** The hard-coded constants are those of a valid curve as soon as the field and d are what the
  design says they are. */
  lemma ConstantsValid(field: Field)
    requires field.q == Q && field.Valid()
    requires forall x: int :: !Cong(Q, x * x, EDWARDS_D)
    ensures Jubjub(field, EDWARDS_D, ROOT_OF_MINUS_ONE, MONTGOMERY_SCALE, MONTGOMERY_A).Valid()
    ensures Pow(2, 254) < field.q < Pow(2, 255)
  {
    var c := Jubjub(field, EDWARDS_D, ROOT_OF_MINUS_ONE, MONTGOMERY_SCALE, MONTGOMERY_A);
    FieldSize();
    RootOfMinusOne();
    ScaleSquared();
    ScaledD();
    forall x: int
      ensures c.NotRootOfD(x)
    {
      assert !Cong(Q, x * x, EDWARDS_D);
    }
  }

  // --- the empty leaf ---

  const UNCOMMITTED: int := 1

  // Scaled by d, a square that every point with u at the empty leaf would have as the square of its v.
  const UNCOMMITTED_ROOT: int := 0x305c18365dd9ab717e2ef54c4ec8cb2954836cadbdca32ac59403fbc48a3a055

  lemma UncommittedRatio()
    ensures Cong(Q, (1 - EDWARDS_D * (UNCOMMITTED * UNCOMMITTED)) * (EDWARDS_D * (UNCOMMITTED_ROOT * UNCOMMITTED_ROOT)),
                 1 + UNCOMMITTED * UNCOMMITTED)
  {
    CongBy(Q, (1 - EDWARDS_D * (UNCOMMITTED * UNCOMMITTED)) * (EDWARDS_D * (UNCOMMITTED_ROOT * UNCOMMITTED_ROOT)),
           1 + UNCOMMITTED * UNCOMMITTED,
           -0x8ed62ca04688e4674cad9a1c02ceddde3440e0e81aa820e91775c70b4b6497f3019434258d3f42368c73ec3682d85743f4b772442ff64df853eca51fbe98211ed7b78bb2e728d0365662c681d9a99a70d8d6cde851a3f233ea5460889f6632);
  }

  // The curve equation at a given square of u, solved for the square of v.
  lemma CurveForV(q: int, d: int, s: int, a: int, w: int)
    requires Cong(q, w - s, 1 + d * s * w) && Cong(q, s, a)
    ensures Cong(q, (1 - d * a) * w, 1 + a)
  {
    CurveForVIdentity(d, s, a, w);
    Combine2(q, (1 - d * a) * w, 1 + a, 1, w - s, 1 + d * s * w, 1 + d * w, s, a);
  }

  lemma CurveForVIdentity(d: int, s: int, a: int, w: int)
    ensures (1 - d * a) * w - (1 + a) == 1 * (w - s - (1 + d * s * w)) + (1 + d * w) * (s - a)
  {
    assert (d * w) * s == d * s * w && (d * w) * a == d * a * w;
  }

  /** No point of the curve has the empty leaf as its u: the square of its v would be d times a square. */
  lemma UncommittedIsNoPoint(c: Jubjub, e: Coords)
    requires c.Valid() && c.field.q == Q && c.d == EDWARDS_D && c.OnCurve(e)
    ensures !c.field.Eq(e.u, UNCOMMITTED)
  {
    var a, w := UNCOMMITTED * UNCOMMITTED, UNCOMMITTED_ROOT;
    UncommittedRatio();
    NoSquare(c, e.v, w, 1 - c.d * a, 1 + a);
    if c.field.Eq(e.u, UNCOMMITTED) {
      CongSquare(Q, e.u, UNCOMMITTED);
      CurveForV(Q, c.d, e.u * e.u, a, e.v * e.v);
    }
  }

  lemma NoSquare(c: Jubjub, v: int, w: int, x: int, n: int)
    requires c.Valid() && 0 < n < c.field.q && c.field.Eq(x * (c.d * (w * w)), n)
    ensures !c.field.Eq(x * (v * v), n)
  {
    c.field.SmallNonZero(n);
    c.field.NonZeroFactors(x, c.d * (w * w), n);
    CongRefl(c.field.q, c.d * (w * w));
    c.field.NonZeroFactors(c.d, w * w, c.d * (w * w));
    CongRefl(c.field.q, w * w);
    c.field.NonZeroFactors(w, w, w * w);
    c.NotSquareAt(v * c.field.inv(w));
    if c.field.Eq(x * (v * v), n) {
      c.field.QuotientUnique(x, n, v * v, c.d * (w * w));
      c.RatioIsRoot(v, w);
    }
  }
}
