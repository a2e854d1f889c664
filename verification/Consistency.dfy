/** The laws assumed of the group have a model: the integers modulo r_J are a group in which one
has order r_J. */
module Consistency {
  import opened Residues
  import opened Groups
  import opened Scalars

  function IntegersModuloR(): Group<Fr> {
    Group(0, (a: Fr, b: Fr) => FrAdd(a, b), (a: Fr) => FrNeg(a))
  }

  lemma IntegersAssociate(a: Fr, b: Fr, c: Fr)
    ensures FrAdd(FrAdd(a, b), c) == FrAdd(a, FrAdd(b, c))
  {
    var x: int, y: int, z: int := a, b, c;
    CongRefl(JUBJUB_ORDER, x);
    CongRefl(JUBJUB_ORDER, y);
    CongRefl(JUBJUB_ORDER, z);
    FrAddCong(a, x, b, y);
    FrAddCong(FrAdd(a, b), x + y, c, z);
    FrAddCong(b, y, c, z);
    FrAddCong(a, x, FrAdd(b, c), y + z);
    CongSym(JUBJUB_ORDER, FrAdd(a, FrAdd(b, c)), x + (y + z));
    CongTrans(JUBJUB_ORDER, FrAdd(FrAdd(a, b), c), x + y + z, FrAdd(a, FrAdd(b, c)));
    ReducedEqual(FrAdd(FrAdd(a, b), c), FrAdd(a, FrAdd(b, c)));
  }

  lemma IntegersNeutral(a: Fr)
    ensures FrAdd(a, 0) == a && FrAdd(a, FrNeg(a)) == 0
  {
    var x: int := a;
    CongRefl(JUBJUB_ORDER, x);
    CongRefl(JUBJUB_ORDER, 0);
    FrAddCong(a, x, 0, 0);
    ReducedEqual(FrAdd(a, 0), a);
    FrNegCong(a, x);
    FrAddCong(a, x, FrNeg(a), -x);
    ReducedEqual(FrAdd(a, FrNeg(a)), 0);
  }

  lemma IntegersAreGroup()
    ensures IsGroup(IntegersModuloR())
  {
    var g := IntegersModuloR();
    forall x: Fr, y: Fr, z: Fr
      ensures AssociativeAt(g, x, y, z)
    {
      IntegersAssociate(x, y, z);
    }
    forall x: Fr
      ensures NeutralAt(g, x)
    {
      IntegersNeutral(x);
    }
  }

  lemma IntegersStep(m: Fr, k: int)
    requires Cong(JUBJUB_ORDER, m, k)
    ensures Cong(JUBJUB_ORDER, FrAdd(m, 1), k + 1) && Cong(JUBJUB_ORDER, FrAdd(m, FrNeg(1)), k - 1)
  {
    CongRefl(JUBJUB_ORDER, 1);
    FrAddCong(m, k, 1, 1);
    FrNegCong(1, 1);
    FrAddCong(m, k, FrNeg(1), -1);
  }

  lemma IntegersNext(k: int)
    ensures k > 0 ==> Mul(IntegersModuloR(), k, 1) == FrAdd(Mul(IntegersModuloR(), k - 1, 1), 1)
    ensures k < 0 ==> Mul(IntegersModuloR(), k, 1) == FrAdd(Mul(IntegersModuloR(), k + 1, 1), FrNeg(1))
  {
  }

  lemma {:induction false} IntegersMultiple(k: int)
    ensures Cong(JUBJUB_ORDER, Mul(IntegersModuloR(), k, 1), k)
    decreases Abs(k)
  {
    if k > 0 {
      IntegersMultiple(k - 1);
      IntegersNext(k);
      IntegersStep(Mul(IntegersModuloR(), k - 1, 1), k - 1);
    } else if k < 0 {
      IntegersMultiple(k + 1);
      IntegersNext(k);
      IntegersStep(Mul(IntegersModuloR(), k + 1, 1), k + 1);
    } else {
      CongRefl(JUBJUB_ORDER, 0);
    }
  }

  /** Generators of order r_J exist. */
  lemma GeneratorsExist()
    ensures IsGroup(IntegersModuloR()) && HasOrderR(IntegersModuloR(), 1)
  {
    var g := IntegersModuloR();
    IntegersAreGroup();
    forall k: int
      ensures OrderAt(g, 1, k)
    {
      IntegersMultiple(k);
      if Mul(g, k, 1) == 0 { CongSym(JUBJUB_ORDER, 0, k); }
      if Cong(JUBJUB_ORDER, k, 0) {
        CongTrans(JUBJUB_ORDER, Mul(g, k, 1), k, 0);
        ReducedEqual(Mul(g, k, 1), 0);
      }
    }
  }
}
