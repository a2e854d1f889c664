/** The scalar field of Jubjub's prime-order subgroup, by canonical representatives. */
module Scalars {
  import opened Residues
  import opened Groups

  // r_J
  const JUBJUB_ORDER: int := 6554484396890773809930967563523245729705921265872317281365359162392183254199

  type Fr = x: int | 0 <= x < JUBJUB_ORDER

  function Reduce(x: int): Fr {
    x % JUBJUB_ORDER
  }

  function FrAdd(a: Fr, b: Fr): Fr {
    Reduce(a + b)
  }

  function FrSub(a: Fr, b: Fr): Fr {
    var x: int, y: int := a, b;
    Reduce(x - y)
  }

  function FrNeg(a: Fr): Fr {
    var x: int := a;
    Reduce(-x)
  }

  lemma ReduceCong(x: int)
    ensures Cong(JUBJUB_ORDER, Reduce(x), x)
  {
    CongBy(JUBJUB_ORDER, Reduce(x), x, -(x / JUBJUB_ORDER));
  }

  lemma FrAddCong(a: Fr, x: int, b: Fr, y: int)
    requires Cong(JUBJUB_ORDER, a, x) && Cong(JUBJUB_ORDER, b, y)
    ensures Cong(JUBJUB_ORDER, FrAdd(a, b), x + y)
  {
    ReduceCong(a + b);
    CongAdd(JUBJUB_ORDER, a, x, b, y);
    CongTrans(JUBJUB_ORDER, FrAdd(a, b), a + b, x + y);
  }

  lemma FrSubCong(a: Fr, x: int, b: Fr, y: int)
    requires Cong(JUBJUB_ORDER, a, x) && Cong(JUBJUB_ORDER, b, y)
    ensures Cong(JUBJUB_ORDER, FrSub(a, b), x - y)
  {
    var m: int, n: int := a, b;
    ReduceCong(m - n);
    CongSub(JUBJUB_ORDER, m, x, n, y);
    CongTrans(JUBJUB_ORDER, FrSub(a, b), m - n, x - y);
  }

  lemma FrNegCong(a: Fr, x: int)
    requires Cong(JUBJUB_ORDER, a, x)
    ensures Cong(JUBJUB_ORDER, FrNeg(a), -x)
  {
    var n: int := a;
    ReduceCong(-n);
    CongScale(JUBJUB_ORDER, -1, n, x);
    CongTrans(JUBJUB_ORDER, FrNeg(a), -n, -x);
  }

  function Abs(x: int): nat {
    if x < 0 then -x else x
  }

  // Integers smaller than the order are zero modulo the order only when they are zero.
  lemma SmallNotCongruent(k: int)
    requires 0 < Abs(k) < JUBJUB_ORDER
    ensures !Cong(JUBJUB_ORDER, k, 0)
  {
    forall t: int
      ensures k - 0 != Scaled(JUBJUB_ORDER, t)
    {
      ScaledIsProduct(JUBJUB_ORDER, t);
      if k > 0 { NotMultiple(JUBJUB_ORDER, k, t); } else { NotMultiple(JUBJUB_ORDER, -k, t); }
    }
  }

  // A residue class has one canonical representative.
  lemma ReducedEqual(a: Fr, b: Fr)
    requires Cong(JUBJUB_ORDER, a, b)
    ensures a == b
  {
    if a != b {
      CongDiff(JUBJUB_ORDER, a, b);
      var x: int, y: int := a, b;
      SmallNotCongruent(x - y);
    }
  }

  // p is killed by the order; every subgroup point is.
  ghost predicate InSubgroup<P>(g: Group<P>, p: P) {
    Mul(g, JUBJUB_ORDER, p) == g.zero
  }

  ghost predicate OrderAt<P>(g: Group<P>, p: P, k: int) {
    Mul(g, k, p) == g.zero <==> Cong(JUBJUB_ORDER, k, 0)
  }

  // p generates a subgroup of order r_J.
  ghost predicate HasOrderR<P>(g: Group<P>, p: P) {
    forall k: int :: OrderAt(g, p, k)
  }

  lemma GeneratorInSubgroup<P(!new)>(g: Group<P>, p: P)
    requires HasOrderR(g, p)
    ensures InSubgroup(g, p)
  {
    assert OrderAt(g, p, JUBJUB_ORDER);
    CongBy(JUBJUB_ORDER, JUBJUB_ORDER, 0, 1);
  }

  // Congruent scalars give one multiple of a subgroup point.
  lemma SameMultiple<P(!new)>(g: Group<P>, p: P, k: int, l: int)
    requires IsGroup(g) && InSubgroup(g, p) && Cong(JUBJUB_ORDER, k, l)
    ensures Mul(g, k, p) == Mul(g, l, p)
  {
    MulModulo(g, k, l, JUBJUB_ORDER, Quotient(JUBJUB_ORDER, k, l), p);
  }

  // On a generator, equal multiples come from congruent scalars only.
  lemma MultiplesEqualIff<P(!new)>(g: Group<P>, p: P, k: int, l: int)
    requires IsGroup(g) && HasOrderR(g, p)
    ensures Mul(g, k, p) == Mul(g, l, p) <==> Cong(JUBJUB_ORDER, k, l)
  {
    MulSub(g, k, l, p);
    assert OrderAt(g, p, k - l);
    CongDiff(JUBJUB_ORDER, k, l);
    SubIff(g, Mul(g, k, p), Mul(g, l, p), g.zero);
    Neutral(g, Mul(g, l, p));
  }
}
