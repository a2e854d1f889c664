/** Commutative groups as records of operations, and scalar multiplication derived from them.

The laws are named predicates at a point, so that a proof states where it uses a law.
*/
module Groups {

  datatype Group<!P> = Group(zero: P, add: (P, P) -> P, neg: P -> P)

  ghost predicate AssociativeAt<P>(g: Group<P>, x: P, y: P, z: P) {
    g.add(g.add(x, y), z) == g.add(x, g.add(y, z))
  }

  ghost predicate CommutativeAt<P>(g: Group<P>, x: P, y: P) {
    g.add(x, y) == g.add(y, x)
  }

  ghost predicate NeutralAt<P>(g: Group<P>, x: P) {
    g.add(x, g.zero) == x && g.add(x, g.neg(x)) == g.zero
  }

  ghost predicate IsGroup<P(!new)>(g: Group<P>) {
    && (forall x: P, y: P, z: P :: AssociativeAt(g, x, y, z))
    && (forall x: P, y: P :: CommutativeAt(g, x, y))
    && (forall x: P :: NeutralAt(g, x))
  }

  function Sub<P>(g: Group<P>, x: P, y: P): P {
    g.add(x, g.neg(y))
  }

  lemma Assoc<P(!new)>(g: Group<P>, x: P, y: P, z: P)
    requires IsGroup(g)
    ensures g.add(g.add(x, y), z) == g.add(x, g.add(y, z))
  {
    assert AssociativeAt(g, x, y, z);
  }

  lemma Comm<P(!new)>(g: Group<P>, x: P, y: P)
    requires IsGroup(g)
    ensures g.add(x, y) == g.add(y, x)
  {
    assert CommutativeAt(g, x, y);
  }

  lemma Neutral<P(!new)>(g: Group<P>, x: P)
    requires IsGroup(g)
    ensures g.add(x, g.zero) == x && g.add(g.zero, x) == x
    ensures g.add(x, g.neg(x)) == g.zero && g.add(g.neg(x), x) == g.zero
  {
    assert NeutralAt(g, x);
    Comm(g, x, g.zero);
    Comm(g, x, g.neg(x));
  }

  // (a + b) + (c + d) == (a + c) + (b + d)
  lemma Interchange<P(!new)>(g: Group<P>, a: P, b: P, c: P, d: P)
    requires IsGroup(g)
    ensures g.add(g.add(a, b), g.add(c, d)) == g.add(g.add(a, c), g.add(b, d))
  {
    Assoc(g, a, b, g.add(c, d));
    Assoc(g, b, c, d);
    Comm(g, b, c);
    Assoc(g, c, b, d);
    Assoc(g, a, c, g.add(b, d));
  }

  lemma CancelRight<P(!new)>(g: Group<P>, x: P, y: P, z: P)
    requires IsGroup(g) && g.add(x, z) == g.add(y, z)
    ensures x == y
  {
    Assoc(g, x, z, g.neg(z));
    Assoc(g, y, z, g.neg(z));
    Neutral(g, z);
    Neutral(g, x);
    Neutral(g, y);
  }

  // The negation is the only inverse.
  lemma NegUnique<P(!new)>(g: Group<P>, x: P, y: P)
    requires IsGroup(g) && g.add(x, y) == g.zero
    ensures x == g.neg(y)
  {
    Neutral(g, y);
    CancelRight(g, x, g.neg(y), y);
  }

  lemma NegAdd<P(!new)>(g: Group<P>, x: P, y: P)
    requires IsGroup(g)
    ensures g.neg(g.add(x, y)) == g.add(g.neg(x), g.neg(y))
  {
    Interchange(g, g.neg(x), g.neg(y), x, y);
    Neutral(g, x);
    Neutral(g, y);
    Neutral(g, g.zero);
    NegUnique(g, g.add(g.neg(x), g.neg(y)), g.add(x, y));
  }

  lemma NegNeg<P(!new)>(g: Group<P>, x: P)
    requires IsGroup(g)
    ensures g.neg(g.neg(x)) == x && g.neg(g.zero) == g.zero
  {
    Neutral(g, x);
    NegUnique(g, x, g.neg(x));
    Neutral(g, g.zero);
    NegUnique(g, g.zero, g.zero);
  }

  // x - y == z exactly when x == z + y.
  lemma SubIff<P(!new)>(g: Group<P>, x: P, y: P, z: P)
    requires IsGroup(g)
    ensures Sub(g, x, y) == z <==> x == g.add(z, y)
  {
    Assoc(g, x, g.neg(y), y);
    Assoc(g, z, y, g.neg(y));
    Neutral(g, y);
    Neutral(g, x);
    Neutral(g, z);
  }

  /** [k]p for any integer k. */
  function Mul<P>(g: Group<P>, k: int, p: P): P
    decreases if k < 0 then -k else k
  {
    if k == 0 then g.zero
    else if k > 0 then g.add(Mul(g, k - 1, p), p)
    else g.add(Mul(g, k + 1, p), g.neg(p))
  }

  lemma MulOne<P(!new)>(g: Group<P>, p: P)
    requires IsGroup(g)
    ensures Mul(g, 0, p) == g.zero && Mul(g, 1, p) == p && Mul(g, 2, p) == g.add(p, p)
  {
    Neutral(g, p);
    assert Mul(g, 1, p) == g.add(Mul(g, 0, p), p);
  }

  lemma MulSucc<P(!new)>(g: Group<P>, k: int, p: P)
    requires IsGroup(g)
    ensures Mul(g, k + 1, p) == g.add(Mul(g, k, p), p)
    ensures Mul(g, k - 1, p) == g.add(Mul(g, k, p), g.neg(p))
  {
    if k < 0 {
      Assoc(g, Mul(g, k + 1, p), g.neg(p), p);
      Neutral(g, p);
      Neutral(g, Mul(g, k + 1, p));
    }
    if k > 0 {
      Assoc(g, Mul(g, k - 1, p), p, g.neg(p));
      Neutral(g, p);
      Neutral(g, Mul(g, k - 1, p));
    }
  }

  lemma {:induction false} MulAdd<P(!new)>(g: Group<P>, k: int, l: int, p: P)
    requires IsGroup(g)
    ensures Mul(g, k + l, p) == g.add(Mul(g, k, p), Mul(g, l, p))
    decreases if l < 0 then -l else l
  {
    if l == 0 {
      Neutral(g, Mul(g, k, p));
    } else if l > 0 {
      MulAdd(g, k, l - 1, p);
      MulSucc(g, k + l - 1, p);
      Assoc(g, Mul(g, k, p), Mul(g, l - 1, p), p);
    } else {
      MulAdd(g, k, l + 1, p);
      MulSucc(g, k + l + 1, p);
      Assoc(g, Mul(g, k, p), Mul(g, l + 1, p), g.neg(p));
    }
  }

  lemma MulNeg<P(!new)>(g: Group<P>, k: int, p: P)
    requires IsGroup(g)
    ensures Mul(g, -k, p) == g.neg(Mul(g, k, p))
  {
    MulAdd(g, -k, k, p);
    NegUnique(g, Mul(g, -k, p), Mul(g, k, p));
  }

  lemma MulSub<P(!new)>(g: Group<P>, k: int, l: int, p: P)
    requires IsGroup(g)
    ensures Mul(g, k - l, p) == Sub(g, Mul(g, k, p), Mul(g, l, p))
  {
    MulAdd(g, k, -l, p);
    MulNeg(g, l, p);
  }

  lemma StepProduct(k: int, l: int)
    ensures (k - 1) * l + l == k * l && (k + 1) * l - l == k * l
  {
  }

  lemma {:induction false} MulMul<P(!new)>(g: Group<P>, k: int, l: int, p: P)
    requires IsGroup(g)
    ensures Mul(g, k, Mul(g, l, p)) == Mul(g, k * l, p)
    decreases if k < 0 then -k else k
  {
    if k > 0 {
      MulMul(g, k - 1, l, p);
      StepProduct(k, l);
      MulAdd(g, (k - 1) * l, l, p);
    } else if k < 0 {
      MulMul(g, k + 1, l, p);
      StepProduct(k, l);
      MulSub(g, (k + 1) * l, l, p);
    } else {
      assert k * l == 0;
    }
  }

  lemma {:induction false} MulZero<P(!new)>(g: Group<P>, k: int)
    requires IsGroup(g)
    ensures Mul(g, k, g.zero) == g.zero
    decreases if k < 0 then -k else k
  {
    Neutral(g, g.zero);
    NegNeg(g, g.zero);
    if k > 0 { MulZero(g, k - 1); } else if k < 0 { MulZero(g, k + 1); }
  }

  // A multiple of the order contributes nothing.
  lemma MulModulo<P(!new)>(g: Group<P>, k: int, l: int, order: int, t: int, p: P)
    requires IsGroup(g) && Mul(g, order, p) == g.zero
    requires k - l == order * t
    ensures Mul(g, k, p) == Mul(g, l, p)
  {
    MulMul(g, t, order, p);
    MulZero(g, t);
    assert t * order == order * t;
    MulAdd(g, l, order * t, p);
    Neutral(g, Mul(g, l, p));
  }
}
