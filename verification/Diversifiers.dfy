/** Diversifier search, addresses of a viewing key, and recovering the index of an address. */
module Diversifiers {
  import opened Wrappers
  import opened Residues
  import opened Groups
  import opened Scalars
  import opened Keys
  import opened Zip32
  import opened Consistency

  const MAX_INDEX: nat := 0xff_ffff_ffff_ffff_ffff_ffff

  // Diversifier indices and diversifiers are both strings of 88 bits, here by value.
  type Index88 = j: nat | j <= 0xff_ffff_ffff_ffff_ffff_ffff

  datatype PaymentAddress<P> = PaymentAddress(diversifier: Index88, pkd: P)

  datatype Scope = External | Internal

  /** The cipher under a diversifier key, and the base point of a diversifier, if it has one. */
  datatype Cipher<!P> = Cipher(group: Group<P>, encrypt: (Bytes32, Index88) -> Index88, decrypt: (Bytes32, Index88) -> Index88,
                               base: Index88 -> Option<P>) {
    ghost predicate InverseAt(dk: Bytes32, x: Index88) {
      decrypt(dk, encrypt(dk, x)) == x && encrypt(dk, decrypt(dk, x)) == x
    }

    function Diversifier(dk: Bytes32, j: Index88): Option<Index88> {
      var d := encrypt(dk, j);
      if base(d).Some? then Some(d) else None
    }
  }

  // The key of the address is the incoming viewing key times the base; the identity is refused.
  function ToPaymentAddress<P(==)>(c: Cipher<P>, ivk: Fr, d: Index88): Option<PaymentAddress<P>> {
    match c.base(d)
    case None => None
    case Some(g) =>
      var pkd := Mul(c.group, ivk, g);
      if pkd == c.group.zero then None else Some(PaymentAddress(d, pkd))
  }

  ghost predicate IsCipher<P>(c: Cipher<P>) {
    forall dk: Bytes32, x: Index88 :: c.InverseAt(dk, x)
  }

  // Every base point generates the prime-order subgroup.
  ghost predicate HasBasesOfOrderR<P(!new)>(c: Cipher<P>) {
    IsGroup(c.group) && forall d: Index88 | c.base(d).Some? :: HasOrderR(c.group, c.base(d).value)
  }

  // Then only the zero key is left without an address.
  lemma AddressExistsIff<P(!new)>(c: Cipher<P>, ivk: Fr, d: Index88)
    requires HasBasesOfOrderR(c)
    ensures ToPaymentAddress(c, ivk, d).Some? <==> c.base(d).Some? && ivk != 0
  {
    if c.base(d).Some? {
      var k: int := ivk;
      assert OrderAt(c.group, c.base(d).value, k);
      if k == 0 { CongRefl(JUBJUB_ORDER, 0); } else { SmallNotCongruent(k); }
    }
  }

  /** The least valid index at or above the given one, with its diversifier; None when there is none.
  The search is bounded by the distance to the last index. */
  method FindDiversifier<P>(c: Cipher<P>, dk: Bytes32, start: Index88) returns (r: Option<(Index88, Index88)>)
    ensures r.None? <==> forall i: Index88 | start <= i :: c.Diversifier(dk, i).None?
    ensures r.Some? ==>
              && start <= r.value.0 && c.Diversifier(dk, r.value.0) == Some(r.value.1)
              && forall i: Index88 | start <= i < r.value.0 :: c.Diversifier(dk, i).None?
  {
    var j := start;
    while true
      invariant start <= j && forall i: Index88 | start <= i < j :: c.Diversifier(dk, i).None?
      decreases MAX_INDEX - j
    {
      match c.Diversifier(dk, j) {
        case Some(d) => return Some((j, d));
        case None =>
          if j == MAX_INDEX { return None; }
          j := j + 1;
      }
    }
  }

  /** An external key with its internal counterpart, reduced to what addresses depend on. */
  datatype ViewingPair = ViewingPair(externalDk: Bytes32, externalIvk: Fr, internalDk: Bytes32, internalIvk: Fr)

  function AddressAt<P(==)>(c: Cipher<P>, dk: Bytes32, ivk: Fr, j: Index88): Option<PaymentAddress<P>> {
    match c.Diversifier(dk, j)
    case None => None
    case Some(d) => ToPaymentAddress(c, ivk, d)
  }

  function ExternalAddress<P(==)>(c: Cipher<P>, key: ViewingPair, j: Index88): Option<PaymentAddress<P>> {
    AddressAt(c, key.externalDk, key.externalIvk, j)
  }

  function InternalAddress<P(==)>(c: Cipher<P>, key: ViewingPair, j: Index88): Option<PaymentAddress<P>> {
    AddressAt(c, key.internalDk, key.internalIvk, j)
  }

  // The pair of an extended key, for a hash of full viewing keys to incoming viewing keys.
  function PairOf<P>(d: Derivation<P>, ivkOf: FullViewingKey<P> -> Fr, k: ExtendedFullViewingKey<P>): ViewingPair {
    var (fvk, dk) := DeriveInternalFvk(d, k.fvk, k.dk);
    ViewingPair(k.dk, ivkOf(k.fvk), dk, ivkOf(fvk))
  }

  /** The internal addresses of a key are the external ones of its derived internal key. */
  lemma InternalIsDerived<P>(c: Cipher<P>, d: Derivation<P>, ivkOf: FullViewingKey<P> -> Fr, k: ExtendedFullViewingKey<P>, j: Index88)
    ensures InternalAddress(c, PairOf(d, ivkOf, k), j) == ExternalAddress(c, PairOf(d, ivkOf, DeriveInternalFull(d, k)), j)
  {
  }

  // An address is its diversifier with the multiple of the diversifier's base.
  lemma AddressParts<P>(c: Cipher<P>, dk: Bytes32, ivk: Fr, j: Index88)
    requires AddressAt(c, dk, ivk, j).Some?
    ensures
      var d := c.encrypt(dk, j);
      c.base(d).Some? && AddressAt(c, dk, ivk, j).value == PaymentAddress(d, Mul(c.group, ivk, c.base(d).value))
  {
  }

  ghost predicate FirstDiversifier<P>(c: Cipher<P>, dk: Bytes32, start: Index88, j: Index88) {
    start <= j && c.Diversifier(dk, j).Some? && forall i: Index88 | start <= i < j :: c.Diversifier(dk, i).None?
  }

  /** The search for an address: the least index at which the key has one, unless the first valid
  diversifier gives the identity. */
  method FindAddress<P(==, !new)>(c: Cipher<P>, dk: Bytes32, ivk: Fr, start: Index88) returns (r: Option<(Index88, PaymentAddress<P>)>)
    ensures r.Some? ==>
              && start <= r.value.0 && AddressAt(c, dk, ivk, r.value.0) == Some(r.value.1)
              && forall i: Index88 | start <= i < r.value.0 :: AddressAt(c, dk, ivk, i).None?
    ensures r.None? <==> (forall i: Index88 | start <= i :: c.Diversifier(dk, i).None?)
                         || exists j: Index88 :: FirstDiversifier(c, dk, start, j) && AddressAt(c, dk, ivk, j).None?
    ensures HasBasesOfOrderR(c) ==> (r.None? <==> ivk == 0 || forall i: Index88 | start <= i :: c.Diversifier(dk, i).None?)
  {
    var found := FindDiversifier(c, dk, start);
    match found {
      case None => return None;
      case Some((j, d)) =>
        if HasBasesOfOrderR(c) { AddressExistsIff(c, ivk, d); }
        match ToPaymentAddress(c, ivk, d) {
          case None =>
            assert FirstDiversifier(c, dk, start, j);
            return None;
          case Some(address) => return Some((j, address));
        }
    }
  }

  // As written, both attempts test the external address.
  function DecryptDiversifier<P(==)>(c: Cipher<P>, key: ViewingPair, address: PaymentAddress<P>): Option<(Index88, Scope)> {
    var external := c.decrypt(key.externalDk, address.diversifier);
    if ExternalAddress(c, key, external) == Some(address) then Some((external, External))
    else
      var internal := c.decrypt(key.internalDk, address.diversifier);
      if ExternalAddress(c, key, internal) == Some(address) then Some((internal, Internal))
      else None
  }

  /** Decryption returns an index exactly for the addresses the external key has there, always with
  the external scope: the internal result cannot occur. */
  lemma DecryptDiversifierIff<P>(c: Cipher<P>, key: ViewingPair, address: PaymentAddress<P>, j: Index88)
    requires IsCipher(c)
    ensures DecryptDiversifier(c, key, address) == Some((j, External)) <==> ExternalAddress(c, key, j) == Some(address)
    ensures DecryptDiversifier(c, key, address) != Some((j, Internal))
  {
    assert c.InverseAt(key.externalDk, j);
    var internal := c.decrypt(key.internalDk, address.diversifier);
    assert c.InverseAt(key.externalDk, internal);
    if ExternalAddress(c, key, j) == Some(address) { AddressParts(c, key.externalDk, key.externalIvk, j); }
    if ExternalAddress(c, key, internal) == Some(address) { AddressParts(c, key.externalDk, key.externalIvk, internal); }
  }

  /** So an address of the internal key, which its documentation says is recovered, is recovered
  exactly when the two keys have the same incoming viewing key. */
  lemma InternalAddressIff<P(!new)>(c: Cipher<P>, key: ViewingPair, j: Index88, address: PaymentAddress<P>)
    requires IsCipher(c) && HasBasesOfOrderR(c) && InternalAddress(c, key, j) == Some(address)
    ensures DecryptDiversifier(c, key, address).Some? <==> key.externalIvk == key.internalIvk
  {
    var d := address.diversifier;
    assert c.InverseAt(key.externalDk, d);
    SameKeyIff(c, key.externalIvk, key.internalIvk, d, address);
    var r := DecryptDiversifier(c, key, address);
    if r.Some? {
      DecryptDiversifierIff(c, key, address, r.value.0);
      AddressParts(c, key.externalDk, key.externalIvk, r.value.0);
    }
  }

  // Two keys have one address at a diversifier exactly when they are equal.
  lemma SameKeyIff<P(!new)>(c: Cipher<P>, ivk: Fr, other: Fr, d: Index88, address: PaymentAddress<P>)
    requires HasBasesOfOrderR(c) && ToPaymentAddress(c, other, d) == Some(address)
    ensures ToPaymentAddress(c, ivk, d) == Some(address) <==> ivk == other
  {
    if ToPaymentAddress(c, ivk, d) == Some(address) {
      MultiplesEqualIff(c.group, c.base(d).value, ivk, other);
      ReducedEqual(ivk, other);
    }
  }

  // The identity as cipher, over the integers modulo r_J.
  function PlainCipher(): Cipher<Fr> {
    Cipher(IntegersModuloR(), (dk: Bytes32, j: Index88) => j, (dk: Bytes32, j: Index88) => j, (d: Index88) => Some(1))
  }

  // With incoming viewing keys 1 and 2 the internal address at index zero is refused.
  lemma InternalAddressRefused(dk: Bytes32)
    ensures IsCipher(PlainCipher()) && HasBasesOfOrderR(PlainCipher())
    ensures
      var key, address := ViewingPair(dk, 1, dk, 2), PaymentAddress(0, 2);
      InternalAddress(PlainCipher(), key, 0) == Some(address) && DecryptDiversifier(PlainCipher(), key, address).None?
  {
    var c, key, address := PlainCipher(), ViewingPair(dk, 1, dk, 2), PaymentAddress(0, 2);
    GeneratorsExist();
    forall b: Bytes32, x: Index88 ensures c.InverseAt(b, x) {
    }
    MulOne(c.group, 1);
    InternalAddressIff(c, key, 0, address);
  }
}
