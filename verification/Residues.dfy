/** Arithmetic modulo a field order, on integer representatives.

An integer stands for its residue class: `Cong(q, a, b)` says that `a` and `b` are the same
element of the field with `q` elements.  Polynomial identities are then identities of integers.
*/
module Residues {
  import opened Wrappers

  // k copies of q.  Defined by repeated addition, so that a congruence brings in no product.
  ghost function Scaled(q: int, k: int): int
    decreases if k < 0 then -k else k
  {
    if k == 0 then 0 else if k > 0 then Scaled(q, k - 1) + q else Scaled(q, k + 1) - q
  }

  lemma {:induction false} ScaledIsProduct(q: int, k: int)
    ensures Scaled(q, k) == q * k
    decreases if k < 0 then -k else k
  {
    if k > 0 {
      ScaledIsProduct(q, k - 1);
      NextProduct(q, k);
    } else if k < 0 {
      ScaledIsProduct(q, k + 1);
      NextProduct(q, k);
    } else {
      assert q * k == 0;
    }
  }

  lemma NextProduct(q: int, k: int)
    ensures q * (k - 1) + q == q * k && q * (k + 1) - q == q * k
  {
  }

  ghost predicate Cong(q: int, a: int, b: int) {
    exists k: int :: a - b == Scaled(q, k)
  }

  ghost function Quotient(q: int, a: int, b: int): (k: int)
    requires Cong(q, a, b)
    ensures a - b == q * k
  {
    var k :| a - b == Scaled(q, k);
    ScaledIsProduct(q, k);
    k
  }

  lemma CongBy(q: int, a: int, b: int, k: int)
    requires a - b == q * k
    ensures Cong(q, a, b)
  {
    ScaledIsProduct(q, k);
    assert a - b == Scaled(q, k);
  }

  lemma CongRefl(q: int, a: int)
    ensures Cong(q, a, a)
  {
    CongBy(q, a, a, 0);
  }

  lemma Distribute(q: int, k: int, l: int)
    ensures q * (k + l) == q * k + q * l && q * (k - l) == q * k - q * l && q * -k == -(q * k)
  {
  }

  lemma CongSym(q: int, a: int, b: int)
    requires Cong(q, a, b)
    ensures Cong(q, b, a)
  {
    var k := Quotient(q, a, b);
    Distribute(q, k, 0);
    CongBy(q, b, a, -k);
  }

  lemma CongTrans(q: int, a: int, b: int, c: int)
    requires Cong(q, a, b) && Cong(q, b, c)
    ensures Cong(q, a, c)
  {
    var k, l := Quotient(q, a, b), Quotient(q, b, c);
    Distribute(q, k, l);
    CongBy(q, a, c, k + l);
  }

  lemma CongAdd(q: int, a: int, b: int, c: int, d: int)
    requires Cong(q, a, b) && Cong(q, c, d)
    ensures Cong(q, a + c, b + d)
  {
    var k, l := Quotient(q, a, b), Quotient(q, c, d);
    Distribute(q, k, l);
    CongBy(q, a + c, b + d, k + l);
  }

  lemma CongSub(q: int, a: int, b: int, c: int, d: int)
    requires Cong(q, a, b) && Cong(q, c, d)
    ensures Cong(q, a - c, b - d)
  {
    var k, l := Quotient(q, a, b), Quotient(q, c, d);
    Distribute(q, k, l);
    CongBy(q, a - c, b - d, k - l);
  }

  lemma ProductDifference(a: int, b: int, c: int, d: int)
    ensures a * c - b * d == (a - b) * c + b * (c - d)
  {
  }

  lemma CommonFactor(q: int, k: int, c: int, b: int, l: int)
    ensures (q * k) * c + b * (q * l) == q * (k * c + b * l)
  {
  }

  lemma CongMul(q: int, a: int, b: int, c: int, d: int)
    requires Cong(q, a, b) && Cong(q, c, d)
    ensures Cong(q, a * c, b * d)
  {
    var k, l := Quotient(q, a, b), Quotient(q, c, d);
    ProductDifference(a, b, c, d);
    CommonFactor(q, k, c, b, l);
    CongBy(q, a * c, b * d, k * c + b * l);
  }

  lemma CongScale(q: int, c: int, a: int, b: int)
    requires Cong(q, a, b)
    ensures Cong(q, c * a, c * b)
  {
    CongRefl(q, c);
    CongMul(q, c, c, a, b);
  }

  lemma CongSquare(q: int, a: int, b: int)
    requires Cong(q, a, b)
    ensures Cong(q, a * a, b * b)
  {
    CongMul(q, a, b, a, b);
  }

  // Moves everything to one side.
  lemma CongDiff(q: int, a: int, b: int)
    ensures Cong(q, a, b) <==> Cong(q, a - b, 0)
  {
    if Cong(q, a, b) {
      CongBy(q, a - b, 0, Quotient(q, a, b));
    }
    if Cong(q, a - b, 0) {
      CongBy(q, a, b, Quotient(q, a - b, 0));
    }
  }

  // If a - b is a combination of differences of congruent pairs, then a and b are congruent.
  lemma Combine2(q: int, a: int, b: int, c1: int, a1: int, b1: int, c2: int, a2: int, b2: int)
    requires Cong(q, a1, b1) && Cong(q, a2, b2)
    requires a - b == c1 * (a1 - b1) + c2 * (a2 - b2)
    ensures Cong(q, a, b)
  {
    var k1, k2 := Quotient(q, a1, b1), Quotient(q, a2, b2);
    ScaledTerm(q, c1, a1 - b1, k1);
    ScaledTerm(q, c2, a2 - b2, k2);
    SumOfProducts(q, c1 * k1, c2 * k2);
    CongBy(q, a, b, c1 * k1 + c2 * k2);
  }

  lemma ScaledTerm(q: int, c: int, d: int, k: int)
    requires d == q * k
    ensures c * d == q * (c * k)
  {
  }

  lemma SumOfProducts(q: int, x: int, y: int)
    ensures q * (x + y) == q * x + q * y
  {
  }

  lemma Combine4(q: int, a: int, b: int, c1: int, a1: int, b1: int, c2: int, a2: int, b2: int,
                 c3: int, a3: int, b3: int, c4: int, a4: int, b4: int)
    requires Cong(q, a1, b1) && Cong(q, a2, b2) && Cong(q, a3, b3) && Cong(q, a4, b4)
    requires a - b == c1 * (a1 - b1) + c2 * (a2 - b2) + c3 * (a3 - b3) + c4 * (a4 - b4)
    ensures Cong(q, a, b)
  {
    var l := c1 * (a1 - b1) + c2 * (a2 - b2);
    Combine2(q, l, 0, c1, a1, b1, c2, a2, b2);
    Combine2(q, a - b - l, 0, c3, a3, b3, c4, a4, b4);
    CongAdd(q, l, 0, a - b - l, 0);
    CongDiff(q, a, b);
  }

  lemma NotMultiple(q: int, n: int, k: int)
    requires 0 < n < q
    ensures n != q * k && -n != q * k
  {
    if k >= 1 {
      assert q * k >= q;
    } else if k <= -1 {
      assert q * k <= -q;
    }
  }

  lemma Rotate(x: int, y: int, z: int)
    ensures x * (y * z) == z * (y * x)
  {
  }

  /** A prime field, given by its order and an inversion function that fails on zero only. */
  datatype Field = Field(q: int, invert: int -> Option<int>) {

    ghost predicate InverseAt(a: int) {
      match invert(a)
      case None => Cong(q, a, 0)
      case Some(b) => Cong(q, a * b, 1)
    }

    // Every class other than zero has an inverse, and two is not zero.
    ghost predicate Valid() {
      && q > 2
      && forall a: int :: InverseAt(a)
    }

    function inv(a: int): int {
      if invert(a).Some? then invert(a).value else 0
    }

    ghost predicate Eq(a: int, b: int) {
      Cong(q, a, b)
    }

    lemma SmallNonZero(n: int)
      requires Valid() && 0 < n < q
      ensures !Cong(q, n, 0) && !Cong(q, -n, 0)
    {
      forall k: int
        ensures n - 0 != Scaled(q, k) && -n - 0 != Scaled(q, k)
      {
        ScaledIsProduct(q, k);
        NotMultiple(q, n, k);
      }
    }

    lemma Inverse(a: int)
      requires Valid() && !Cong(q, a, 0)
      ensures Cong(q, a * inv(a), 1)
    {
      assert InverseAt(a);
    }

    lemma InvertFails(a: int)
      requires Valid()
      ensures invert(a).None? <==> Cong(q, a, 0)
    {
      assert InverseAt(a);
      if invert(a).Some? && Cong(q, a, 0) {
        CongScale(q, inv(a), a, 0);
        CongSym(q, a * inv(a), 1);
        CongTrans(q, 1, a * inv(a), 0);
        SmallNonZero(1);
      }
    }

    // The field has no zero divisors.
    lemma ZeroProduct(a: int, b: int)
      requires Valid() && Cong(q, a * b, 0) && !Cong(q, a, 0)
      ensures Cong(q, b, 0)
    {
      Inverse(a);
      CongScale(q, inv(a), a * b, 0);
      CongScale(q, b, a * inv(a), 1);
      Rotate(inv(a), a, b);
      CongSym(q, b * (a * inv(a)), b * 1);
      CongTrans(q, b, inv(a) * (a * b), inv(a) * 0);
    }

    lemma NonZeroProduct(a: int, b: int)
      requires Valid() && !Cong(q, a, 0) && !Cong(q, b, 0)
      ensures !Cong(q, a * b, 0)
    {
      if Cong(q, a * b, 0) {
        ZeroProduct(a, b);
      }
    }

    // The factors of a non-zero product are non-zero.
    lemma NonZeroFactors(a: int, b: int, k: int)
      requires Cong(q, a * b, k) && !Cong(q, k, 0)
      ensures !Cong(q, a, 0) && !Cong(q, b, 0)
    {
      CongSym(q, a * b, k);
      if Cong(q, a, 0) {
        CongScale(q, b, a, 0);
        CongTrans(q, k, a * b, 0);
      } else if Cong(q, b, 0) {
        CongScale(q, a, b, 0);
        CongTrans(q, k, a * b, 0);
      }
    }

    lemma Cancel(c: int, a: int, b: int)
      requires Valid() && !Cong(q, c, 0) && Cong(q, c * a, c * b)
      ensures Cong(q, a, b)
    {
      CongDiff(q, c * a, c * b);
      assert c * a - c * b == c * (a - b);
      ZeroProduct(c, a - b);
      CongDiff(q, a, b);
    }

    // Two fractions over the same denominator are equal when their numerators are.
    lemma CancelVia(c: int, a: int, b: int, ca: int, cb: int)
      requires Valid() && !Cong(q, c, 0)
      requires Cong(q, c * a, ca) && Cong(q, c * b, cb) && Cong(q, ca, cb)
      ensures Cong(q, a, b)
    {
      CongSym(q, c * b, cb);
      CongTrans(q, c * a, ca, cb);
      CongTrans(q, c * a, cb, c * b);
      Cancel(c, a, b);
    }

    // x * x == y * y leaves only x == y and x == -y.
    lemma SquareRoots(x: int, y: int)
      requires Valid() && Cong(q, x * x, y * y)
      ensures Cong(q, x, y) || Cong(q, x, -y)
    {
      CongDiff(q, x * x, y * y);
      assert x * x - y * y == (x - y) * (x + y);
      CongDiff(q, x, y);
      CongDiff(q, x, -y);
      assert x - -y == x + y;
      if !Cong(q, x, y) {
        ZeroProduct(x - y, x + y);
      }
    }

    // An equation c * x == n with c non-zero has one solution.
    lemma QuotientUnique(c: int, n: int, x: int, y: int)
      requires Valid() && !Cong(q, c, 0) && Cong(q, c * x, n)
      ensures Cong(q, c * y, n) <==> Cong(q, x, y)
    {
      if Cong(q, c * y, n) {
        CongRefl(q, n);
        CancelVia(c, x, y, n, n);
      }
      if Cong(q, x, y) {
        CongScale(q, c, x, y);
        CongSym(q, c * x, c * y);
        CongTrans(q, c * y, c * x, n);
      }
    }

    // Division solves that equation.
    lemma Divide(c: int, n: int)
      requires Valid() && !Cong(q, c, 0)
      ensures Cong(q, c * (n * inv(c)), n)
    {
      Inverse(c);
      CongScale(q, n, c * inv(c), 1);
      assert c * (n * inv(c)) == n * (c * inv(c));
    }
  }
}
