/** The signature scheme as an abstract record: signing and verification are functions with one law,
and keys are multiples of a base point, so that re-randomization is addition. */
module RedJubjub {
  import opened Residues
  import opened Bytes
  import opened Groups
  import opened Scalars

  type Signature = seq<byte>

  // The coin is the randomness that a signature consumes.
  datatype Scheme<!P> = Scheme(group: Group<P>, base: P, sign: (Fr, seq<byte>, nat) -> Signature,
                               verify: (P, seq<byte>, Signature) -> bool) {
    function PublicKey(sk: Fr): P {
      Mul(group, sk, base)
    }

    function RandomizeSecret(sk: Fr, alpha: Fr): Fr {
      FrAdd(sk, alpha)
    }

    function RandomizePublic(pk: P, alpha: Fr): P {
      group.add(pk, PublicKey(alpha))
    }

    ghost predicate SignatureVerifiesAt(sk: Fr, message: seq<byte>, coin: nat) {
      verify(PublicKey(sk), message, sign(sk, message, coin))
    }
  }

  // A signature verifies under the key of its signer.
  ghost predicate IsScheme<P(!new)>(s: Scheme<P>) {
    && IsGroup(s.group)
    && HasOrderR(s.group, s.base)
    && forall sk: Fr, message: seq<byte>, coin: nat :: s.SignatureVerifiesAt(sk, message, coin)
  }

  // Randomizing commutes with taking the public key.
  lemma RandomizeCommutes<P(!new)>(s: Scheme<P>, sk: Fr, alpha: Fr)
    requires IsScheme(s)
    ensures s.PublicKey(s.RandomizeSecret(sk, alpha)) == s.RandomizePublic(s.PublicKey(sk), alpha)
  {
    var x: int, y: int := sk, alpha;
    CongRefl(JUBJUB_ORDER, x);
    CongRefl(JUBJUB_ORDER, y);
    FrAddCong(sk, x, alpha, y);
    GeneratorInSubgroup(s.group, s.base);
    SameMultiple(s.group, s.base, FrAdd(sk, alpha), x + y);
    MulAdd(s.group, x, y, s.base);
  }

  // A randomized signature verifies under the randomized key.
  lemma RandomizedSignatureVerifies<P(!new)>(s: Scheme<P>, sk: Fr, alpha: Fr, message: seq<byte>, coin: nat)
    requires IsScheme(s)
    ensures s.verify(s.RandomizePublic(s.PublicKey(sk), alpha), message, s.sign(s.RandomizeSecret(sk, alpha), message, coin))
  {
    RandomizeCommutes(s, sk, alpha);
    assert s.SignatureVerifiesAt(s.RandomizeSecret(sk, alpha), message, coin);
  }

  // Different canonical secrets have different public keys.
  lemma PublicKeyInjective<P(!new)>(s: Scheme<P>, sk1: Fr, sk2: Fr)
    requires IsScheme(s)
    ensures s.PublicKey(sk1) == s.PublicKey(sk2) <==> sk1 == sk2
  {
    var x: int, y: int := sk1, sk2;
    MultiplesEqualIff(s.group, s.base, x, y);
    CongRefl(JUBJUB_ORDER, x);
    CongDiff(JUBJUB_ORDER, x, y);
    if x != y { SmallNotCongruent(x - y); }
  }
}
