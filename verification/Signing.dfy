/** Signing a bundle in memory: prepare, sign with keys, append external signatures, finalize. */
module Signing {
  import opened Wrappers
  import opened Bytes
  import opened Scalars
  import opened RedJubjub
  import opened Bundles

  datatype Error = InvalidExternalSignature | DuplicateSignature | MissingSignatures

  datatype SigningParts<P> = SigningParts(ak: P, alpha: Fr)

  datatype SigningMetadata<P> = SigningMetadata(dummyAsk: Option<Fr>, parts: SigningParts<P>)

  datatype MaybeSigned<P> = Unsigned(parts: SigningParts<P>) | Signed(signature: Signature)

  datatype BindingKeyOnly = BindingKeyOnly(bsk: Fr)

  datatype PartiallyAuthorized = PartiallyAuthorized(bindingSignature: Signature, sighash: seq<byte>)

  datatype Authorized = Authorized(bindingSig: Signature)

  type UnsignedBundle<P, S, O> = Bundle<P, S, O, SigningMetadata<P>, BindingKeyOnly>
  type PartialBundle<P, S, O> = Bundle<P, S, O, MaybeSigned<P>, PartiallyAuthorized>
  type AuthorizedBundle<P, S, O> = Bundle<P, S, O, Signature, Authorized>

  /** The spend authorization scheme and the binding scheme, over one group. */
  datatype Schemes<!P> = Schemes(spendAuth: Scheme<P>, binding: Scheme<P>)

  ghost predicate AreSchemes<P(!new)>(s: Schemes<P>) {
    IsScheme(s.spendAuth) && IsScheme(s.binding)
  }

  // --- the operations; the context is the next coin of the random source ---

  function Same<T>(context: nat, x: T): (T, nat) {
    (x, context)
  }

  function SignRandomized<P>(sc: Scheme<P>, ask: Fr, alpha: Fr, sighash: seq<byte>, coin: nat): Signature {
    sc.sign(sc.RandomizeSecret(ask, alpha), sighash, coin)
  }

  function PrepareSpend<P>(sc: Scheme<P>, sighash: seq<byte>, coin: nat, m: SigningMetadata<P>): (MaybeSigned<P>, nat) {
    match m.dummyAsk
    case None => (Unsigned(m.parts), coin)
    case Some(ask) => (Signed(SignRandomized(sc, ask, m.parts.alpha, sighash, coin)), coin + 1)
  }

  function PrepareBinding<P>(sc: Scheme<P>, sighash: seq<byte>, coin: nat, a: BindingKeyOnly): (PartiallyAuthorized, nat) {
    (PartiallyAuthorized(sc.sign(a.bsk, sighash, coin), sighash), coin + 1)
  }

  function PrepareMap<P>(sc: Scheme<P>, sighash: seq<byte>): (nat, SigningMetadata<P>) -> (MaybeSigned<P>, nat) {
    (c: nat, m: SigningMetadata<P>) => PrepareSpend(sc, sighash, c, m)
  }

  function BindingMap<P>(sc: Scheme<P>, sighash: seq<byte>): (nat, BindingKeyOnly) -> (PartiallyAuthorized, nat) {
    (c: nat, a: BindingKeyOnly) => PrepareBinding(sc, sighash, c, a)
  }

  function Prepare<P, S, O>(s: Schemes<P>, b: UnsignedBundle<P, S, O>, coin: nat, sighash: seq<byte>): (PartialBundle<P, S, O>, nat) {
    MapAuthorization(b, coin, Same, Same,
                     PrepareMap(s.spendAuth, sighash), BindingMap(s.binding, sighash))
  }

  function SignSpend<P(==)>(sc: Scheme<P>, ask: Fr, sighash: seq<byte>, coin: nat, m: MaybeSigned<P>): (MaybeSigned<P>, nat) {
    match m
    case Unsigned(parts) =>
      if parts.ak == sc.PublicKey(ask) then (Signed(SignRandomized(sc, ask, parts.alpha, sighash, coin)), coin + 1)
      else (m, coin)
    case Signed(_) => (m, coin)
  }

  function SignMap<P(==)>(sc: Scheme<P>, ask: Fr, sighash: seq<byte>): (nat, MaybeSigned<P>) -> (MaybeSigned<P>, nat) {
    (c: nat, m: MaybeSigned<P>) => SignSpend(sc, ask, sighash, c, m)
  }

  function Sign<P(==), S, O>(sc: Scheme<P>, b: PartialBundle<P, S, O>, ask: Fr, coin: nat): (PartialBundle<P, S, O>, nat) {
    MapAuthorization(b, coin, Same, Same,
                     SignMap(sc, ask, b.authorization.sighash), Same)
  }

  // Counts the inputs for which the signature is valid.
  function AppendToSpend<P>(sc: Scheme<P>, sig: Signature, sighash: seq<byte>, validFor: nat, m: MaybeSigned<P>): (MaybeSigned<P>, nat) {
    match m
    case Unsigned(parts) =>
      if sc.verify(sc.RandomizePublic(parts.ak, parts.alpha), sighash, sig) then (Signed(sig), validFor + 1)
      else (m, validFor)
    case Signed(_) => (m, validFor)
  }

  function AppendMap<P>(sc: Scheme<P>, sig: Signature, sighash: seq<byte>): (nat, MaybeSigned<P>) -> (MaybeSigned<P>, nat) {
    (c: nat, m: MaybeSigned<P>) => AppendToSpend(sc, sig, sighash, c, m)
  }

  function AppendSignature<P, S, O>(sc: Scheme<P>, b: PartialBundle<P, S, O>, sig: Signature): Result<PartialBundle<P, S, O>, Error> {
    var (r, validFor) := MapAuthorization(b, 0, Same, Same,
                                          AppendMap(sc, sig, b.authorization.sighash), Same);
    if validFor == 0 then Err(InvalidExternalSignature)
    else if validFor == 1 then Ok(r)
    else Err(DuplicateSignature)
  }

  function AppendSignatures<P, S, O>(sc: Scheme<P>, b: PartialBundle<P, S, O>, sigs: seq<Signature>): Result<PartialBundle<P, S, O>, Error>
    decreases |sigs|
  {
    if sigs == [] then Ok(b)
    else match AppendSignature(sc, b, sigs[0])
         case Err(e) => Err(e)
         case Ok(next) => AppendSignatures(sc, next, sigs[1..])
  }

  function FinalizeSpend<P>(m: MaybeSigned<P>): Result<Signature, Error> {
    match m
    case Signed(sig) => Ok(sig)
    case Unsigned(_) => Err(MissingSignatures)
  }

  function FinalizeAuth(a: PartiallyAuthorized): Result<Authorized, Error> {
    Ok(Authorized(a.bindingSignature))
  }

  function Keep<T>(x: T): Result<T, Error> {
    Ok(x)
  }

  function Finalize<P, S, O>(b: PartialBundle<P, S, O>): Result<AuthorizedBundle<P, S, O>, Error> {
    TryMapAuthorization(b, Keep, Keep, FinalizeSpend, FinalizeAuth)
  }

  // Folds the keys over the prepared bundle.
  function SignAll<P(==), S, O>(sc: Scheme<P>, b: PartialBundle<P, S, O>, keys: seq<Fr>, coin: nat, n: nat): (PartialBundle<P, S, O>, nat)
    requires n <= |keys|
  {
    if n == 0 then (b, coin)
    else
      var (partial, reached) := SignAll(sc, b, keys, coin, n - 1);
      Sign(sc, partial, keys[n - 1], reached)
  }

  function ApplySignatures<P(==), S, O>(s: Schemes<P>, b: UnsignedBundle<P, S, O>, coin: nat, sighash: seq<byte>, keys: seq<Fr>)
    : Result<AuthorizedBundle<P, S, O>, Error> {
    var (prepared, reached) := Prepare(s, b, coin, sighash);
    Finalize(SignAll(s.spendAuth, prepared, keys, reached, |keys|).0)
  }

  // --- single steps ---

  /** b2 is b1 with possibly more signatures: nothing else differs, and no signature is replaced. */
  ghost predicate Extends<P, S, O>(b1: PartialBundle<P, S, O>, b2: PartialBundle<P, S, O>) {
    && b1.Effects() == b2.Effects()
    && b1.authorization == b2.authorization
    && b1.outputs == b2.outputs
    && |b1.spends| == |b2.spends|
    && forall k: nat | k < |b1.spends| ::
         && b2.spends[k].zkproof == b1.spends[k].zkproof
         && b2.spends[k].rk == b1.spends[k].rk
         && (b1.spends[k].spendAuthSig.Signed? ==> b2.spends[k].spendAuthSig == b1.spends[k].spendAuthSig)
         && (b2.spends[k].spendAuthSig.Unsigned? ==> b2.spends[k].spendAuthSig == b1.spends[k].spendAuthSig)
  }

  lemma ExtendsTransitive<P, S, O>(b1: PartialBundle<P, S, O>, b2: PartialBundle<P, S, O>, b3: PartialBundle<P, S, O>)
    requires Extends(b1, b2) && Extends(b2, b3)
    ensures Extends(b1, b3)
  {
  }

  // Mapping with a function that changes nothing keeps the outputs, proofs included.
  lemma SameOutputs<P, O>(outputs: seq<OutputDescription<P, O>>, context: nat)
    ensures MapOutputs(outputs, context, Same, |outputs|).0 == outputs
  {
    var r := MapOutputs(outputs, context, Same, |outputs|).0;
    forall k: nat | k < |outputs| ensures r[k] == outputs[k] {
      MapOutputsAt(outputs, context, Same, |outputs|, k);
    }
  }

  // The proofs of a bundle, which signing never touches.
  ghost predicate SameProofs<P, S, O, A1, Au1, A2, Au2>(b1: Bundle<P, S, O, A1, Au1>, b2: Bundle<P, S, O, A2, Au2>) {
    && |b1.spends| == |b2.spends| && b1.outputs == b2.outputs
    && forall k: nat | k < |b1.spends| :: b1.spends[k].zkproof == b2.spends[k].zkproof
  }

  // What an unsigned spend promises, and what a signed one has.
  ghost predicate SpendSound<P, S>(sc: Scheme<P>, sighash: seq<byte>, d: SpendDescription<P, S, MaybeSigned<P>>) {
    match d.spendAuthSig
    case Unsigned(parts) => d.rk == sc.RandomizePublic(parts.ak, parts.alpha)
    case Signed(sig) => sc.verify(d.rk, sighash, sig)
  }

  ghost predicate Sound<P, S, O>(sc: Scheme<P>, b: PartialBundle<P, S, O>) {
    forall k: nat | k < |b.spends| :: SpendSound(sc, b.authorization.sighash, b.spends[k])
  }

  // The builder's signing metadata belongs to the randomized key of each spend.
  ghost predicate Consistent<P, S, O>(sc: Scheme<P>, b: UnsignedBundle<P, S, O>) {
    forall k: nat | k < |b.spends| ::
      var m := b.spends[k].spendAuthSig;
      && b.spends[k].rk == sc.RandomizePublic(m.parts.ak, m.parts.alpha)
      && (m.dummyAsk.Some? ==> sc.PublicKey(m.dummyAsk.value) == m.parts.ak)
  }

  // Preparing signs exactly the dummies.
  lemma PrepareAt<P, S, O>(s: Schemes<P>, b: UnsignedBundle<P, S, O>, coin: nat, sighash: seq<byte>, k: nat)
    requires k < |b.spends|
    ensures
      var d, m := Prepare(s, b, coin, sighash).0.spends[k], b.spends[k].spendAuthSig;
      && d.Effects() == b.spends[k].Effects() && d.zkproof == b.spends[k].zkproof
      && (m.dummyAsk.None? ==> d.spendAuthSig == Unsigned(m.parts))
      && (m.dummyAsk.Some? ==> exists c: nat :: d.spendAuthSig == Signed(SignRandomized(s.spendAuth, m.dummyAsk.value, m.parts.alpha, sighash, c)))
  {
    MapSpendsAt(b.spends, coin, Same, PrepareMap(s.spendAuth, sighash), |b.spends|, k);
  }

  lemma PrepareSound<P(!new), S, O>(s: Schemes<P>, b: UnsignedBundle<P, S, O>, coin: nat, sighash: seq<byte>)
    requires AreSchemes(s) && Consistent(s.spendAuth, b)
    ensures
      var r := Prepare(s, b, coin, sighash).0;
      && Sound(s.spendAuth, r) && r.Effects() == b.Effects() && SameProofs(b, r) && r.authorization.sighash == sighash
      && s.binding.verify(s.binding.PublicKey(b.authorization.bsk), sighash, r.authorization.bindingSignature)
  {
    var r := Prepare(s, b, coin, sighash).0;
    MapKeepsEffects(b, coin, Same, Same,
                    PrepareMap(s.spendAuth, sighash), BindingMap(s.binding, sighash));
    SameOutputs(b.outputs, MapSpends(b.spends, coin, Same, PrepareMap(s.spendAuth, sighash), |b.spends|).1);
    forall k: nat | k < |r.spends|
      ensures SpendSound(s.spendAuth, sighash, r.spends[k]) && r.spends[k].zkproof == b.spends[k].zkproof
    {
      PrepareAt(s, b, coin, sighash, k);
      var m := b.spends[k].spendAuthSig;
      if m.dummyAsk.Some? {
        var c: nat :| r.spends[k].spendAuthSig == Signed(SignRandomized(s.spendAuth, m.dummyAsk.value, m.parts.alpha, sighash, c));
        RandomizedSignatureVerifies(s.spendAuth, m.dummyAsk.value, m.parts.alpha, sighash, c);
      }
    }
    BindingVerifies(s, b, coin, sighash);
  }

  lemma BindingVerifies<P(!new), S, O>(s: Schemes<P>, b: UnsignedBundle<P, S, O>, coin: nat, sighash: seq<byte>)
    requires AreSchemes(s)
    ensures s.binding.verify(s.binding.PublicKey(b.authorization.bsk), sighash,
                             Prepare(s, b, coin, sighash).0.authorization.bindingSignature)
  {
    var c1 := MapSpends(b.spends, coin, Same, PrepareMap(s.spendAuth, sighash), |b.spends|).1;
    var c2 := MapOutputs(b.outputs, c1, Same, |b.outputs|).1;
    assert Prepare(s, b, coin, sighash).0.authorization == PrepareBinding(s.binding, sighash, c2, b.authorization).0;
    assert s.binding.SignatureVerifiesAt(b.authorization.bsk, sighash, c2);
  }

  // Signing with a key signs exactly the unsigned spends it controls.
  lemma SignAt<P, S, O>(sc: Scheme<P>, b: PartialBundle<P, S, O>, ask: Fr, coin: nat, k: nat)
    requires k < |b.spends|
    ensures
      var d, m := Sign(sc, b, ask, coin).0.spends[k], b.spends[k].spendAuthSig;
      && d.Effects() == b.spends[k].Effects() && d.zkproof == b.spends[k].zkproof
      && (m.Signed? || m.parts.ak != sc.PublicKey(ask) ==> d.spendAuthSig == m)
      && (m.Unsigned? && m.parts.ak == sc.PublicKey(ask) ==>
            exists c: nat :: d.spendAuthSig == Signed(SignRandomized(sc, ask, m.parts.alpha, b.authorization.sighash, c)))
  {
    MapSpendsAt(b.spends, coin, Same, SignMap(sc, ask, b.authorization.sighash), |b.spends|, k);
  }

  lemma SignExtends<P(!new), S, O>(sc: Scheme<P>, b: PartialBundle<P, S, O>, ask: Fr, coin: nat)
    requires IsScheme(sc)
    ensures Extends(b, Sign(sc, b, ask, coin).0)
    ensures Sound(sc, b) ==> Sound(sc, Sign(sc, b, ask, coin).0)
  {
    var r, sighash := Sign(sc, b, ask, coin).0, b.authorization.sighash;
    MapKeepsEffects(b, coin, Same, Same,
                    SignMap(sc, ask, sighash), Same);
    SameOutputs(b.outputs, MapSpends(b.spends, coin, Same, SignMap(sc, ask, sighash), |b.spends|).1);
    forall k: nat | k < |b.spends|
      ensures r.spends[k].zkproof == b.spends[k].zkproof && r.spends[k].rk == b.spends[k].rk
      ensures b.spends[k].spendAuthSig.Signed? || r.spends[k].spendAuthSig.Unsigned?
              ==> r.spends[k].spendAuthSig == b.spends[k].spendAuthSig
      ensures SpendSound(sc, sighash, b.spends[k]) ==> SpendSound(sc, sighash, r.spends[k])
    {
      SignAt(sc, b, ask, coin, k);
      assert r.spends[k].Effects().rk == b.spends[k].Effects().rk;
      var m := b.spends[k].spendAuthSig;
      if m.Unsigned? && m.parts.ak == sc.PublicKey(ask) {
        var c: nat :| r.spends[k].spendAuthSig == Signed(SignRandomized(sc, ask, m.parts.alpha, sighash, c));
        RandomizedSignatureVerifies(sc, ask, m.parts.alpha, sighash, c);
      }
    }
  }

  // --- coins: no two signatures of a run share their randomness ---

  // The number of dummies among the first n spends.
  function Dummies<P, S>(spends: seq<SpendDescription<P, S, SigningMetadata<P>>>, n: nat): nat
    requires n <= |spends|
  {
    if n == 0 then 0 else Dummies(spends, n - 1) + if spends[n - 1].spendAuthSig.dummyAsk.Some? then 1 else 0
  }

  lemma {:induction false} PrepareCoinsAt<P, S>(sc: Scheme<P>, spends: seq<SpendDescription<P, S, SigningMetadata<P>>>, coin: nat,
                                                sighash: seq<byte>, n: nat)
    requires n <= |spends|
    ensures MapSpends(spends, coin, Same<S>, PrepareMap(sc, sighash), n).1 == coin + Dummies(spends, n)
  {
    if n > 0 { PrepareCoinsAt(sc, spends, coin, sighash, n - 1); }
  }

  lemma {:induction false} OutputsKeepCoin<P, O>(outputs: seq<OutputDescription<P, O>>, coin: nat, n: nat)
    requires n <= |outputs|
    ensures MapOutputs(outputs, coin, Same<O>, n).1 == coin
  {
    if n > 0 { OutputsKeepCoin(outputs, coin, n - 1); }
  }

  /** Preparing signs each dummy with the next coin, and binds with the one after them. */
  lemma PrepareCoins<P, S, O>(s: Schemes<P>, b: UnsignedBundle<P, S, O>, coin: nat, sighash: seq<byte>)
    ensures
      var (r, after) := Prepare(s, b, coin, sighash);
      && after == coin + Dummies(b.spends, |b.spends|) + 1
      && r.authorization.bindingSignature == s.binding.sign(b.authorization.bsk, sighash, coin + Dummies(b.spends, |b.spends|))
      && forall k: nat | k < |b.spends| && b.spends[k].spendAuthSig.dummyAsk.Some? ::
           var m := b.spends[k].spendAuthSig;
           r.spends[k].spendAuthSig
           == Signed(SignRandomized(s.spendAuth, m.dummyAsk.value, m.parts.alpha, sighash, coin + Dummies(b.spends, k)))
  {
    var (r, after) := Prepare(s, b, coin, sighash);
    PrepareCoinsAt(s.spendAuth, b.spends, coin, sighash, |b.spends|);
    OutputsKeepCoin(b.outputs, coin + Dummies(b.spends, |b.spends|), |b.outputs|);
    forall k: nat | k < |b.spends| && b.spends[k].spendAuthSig.dummyAsk.Some?
      ensures r.spends[k].spendAuthSig
              == Signed(SignRandomized(s.spendAuth, b.spends[k].spendAuthSig.dummyAsk.value, b.spends[k].spendAuthSig.parts.alpha,
                                       sighash, coin + Dummies(b.spends, k)))
    {
      MapSpendsAt(b.spends, coin, Same<S>, PrepareMap(s.spendAuth, sighash), |b.spends|, k);
      PrepareCoinsAt(s.spendAuth, b.spends, coin, sighash, k);
    }
  }

  // The key is about to sign this spend.
  predicate Signs<P(==)>(sc: Scheme<P>, m: MaybeSigned<P>, ask: Fr) {
    m.Unsigned? && m.parts.ak == sc.PublicKey(ask)
  }

  // The number of such spends among the first n.
  function Signable<P(==), S>(sc: Scheme<P>, spends: seq<SpendDescription<P, S, MaybeSigned<P>>>, ask: Fr, n: nat): nat
    requires n <= |spends|
  {
    if n == 0 then 0 else Signable(sc, spends, ask, n - 1) + if Signs(sc, spends[n - 1].spendAuthSig, ask) then 1 else 0
  }

  lemma {:induction false} SignCoinsAt<P, S>(sc: Scheme<P>, spends: seq<SpendDescription<P, S, MaybeSigned<P>>>, ask: Fr, coin: nat,
                                             sighash: seq<byte>, n: nat)
    requires n <= |spends|
    ensures MapSpends(spends, coin, Same<S>, SignMap(sc, ask, sighash), n).1 == coin + Signable(sc, spends, ask, n)
  {
    if n > 0 { SignCoinsAt(sc, spends, ask, coin, sighash, n - 1); }
  }

  lemma SignedWithCoin<P, S, O>(sc: Scheme<P>, b: PartialBundle<P, S, O>, ask: Fr, coin: nat, k: nat)
    requires k < |b.spends| && Signs(sc, b.spends[k].spendAuthSig, ask)
    ensures Sign(sc, b, ask, coin).0.spends[k].spendAuthSig
            == Signed(SignRandomized(sc, ask, b.spends[k].spendAuthSig.parts.alpha, b.authorization.sighash,
                                     coin + Signable(sc, b.spends, ask, k)))
  {
    MapSpendsAt(b.spends, coin, Same<S>, SignMap(sc, ask, b.authorization.sighash), |b.spends|, k);
    SignCoinsAt(sc, b.spends, ask, coin, b.authorization.sighash, k);
  }

  lemma CoinAfterSigning<P, S, O>(sc: Scheme<P>, b: PartialBundle<P, S, O>, ask: Fr, coin: nat)
    ensures Sign(sc, b, ask, coin).1 == coin + Signable(sc, b.spends, ask, |b.spends|)
  {
    SignCoinsAt(sc, b.spends, ask, coin, b.authorization.sighash, |b.spends|);
    OutputsKeepCoin(b.outputs, coin + Signable(sc, b.spends, ask, |b.spends|), |b.outputs|);
  }

  /** Signing with a key signs each spend it controls with the next coin. */
  lemma SignCoins<P, S, O>(sc: Scheme<P>, b: PartialBundle<P, S, O>, ask: Fr, coin: nat)
    ensures
      var (r, after) := Sign(sc, b, ask, coin);
      && after == coin + Signable(sc, b.spends, ask, |b.spends|)
      && forall k: nat | k < |b.spends| && Signs(sc, b.spends[k].spendAuthSig, ask) ::
           r.spends[k].spendAuthSig
           == Signed(SignRandomized(sc, ask, b.spends[k].spendAuthSig.parts.alpha, b.authorization.sighash,
                                    coin + Signable(sc, b.spends, ask, k)))
  {
    CoinAfterSigning(sc, b, ask, coin);
    forall k: nat | k < |b.spends| && Signs(sc, b.spends[k].spendAuthSig, ask) {
      SignedWithCoin(sc, b, ask, coin, k);
    }
  }

  // --- external signatures ---

  ghost predicate ValidFor<P, S, O>(sc: Scheme<P>, b: PartialBundle<P, S, O>, sig: Signature, k: nat)
    requires k < |b.spends|
  {
    var m := b.spends[k].spendAuthSig;
    m.Unsigned? && sc.verify(sc.RandomizePublic(m.parts.ak, m.parts.alpha), b.authorization.sighash, sig)
  }

  // The number of unsigned spends among the first n for which the signature is valid.
  ghost function CountValid<P, S, O>(sc: Scheme<P>, b: PartialBundle<P, S, O>, sig: Signature, n: nat): nat
    requires n <= |b.spends|
  {
    if n == 0 then 0 else CountValid(sc, b, sig, n - 1) + if ValidFor(sc, b, sig, n - 1) then 1 else 0
  }

  lemma {:induction false} AppendCounts<P, S, O>(sc: Scheme<P>, b: PartialBundle<P, S, O>, sig: Signature, n: nat)
    requires n <= |b.spends|
    ensures MapSpends(b.spends, 0, Same, AppendMap(sc, sig, b.authorization.sighash), n).1
            == CountValid(sc, b, sig, n)
  {
    if n > 0 { AppendCounts(sc, b, sig, n - 1); }
  }

  lemma {:induction false} OutputsKeepCount<P, O>(outputs: seq<OutputDescription<P, O>>, count: nat, n: nat)
    requires n <= |outputs|
    ensures MapOutputs(outputs, count, Same, n).1 == count
  {
    if n > 0 { OutputsKeepCount(outputs, count, n - 1); }
  }

  /** A signature is accepted exactly when it is valid for one unsigned spend, and then signs that
  spend and no other. */
  lemma AppendIff<P(!new), S, O>(sc: Scheme<P>, b: PartialBundle<P, S, O>, sig: Signature)
    ensures
      var r, count := AppendSignature(sc, b, sig), CountValid(sc, b, sig, |b.spends|);
      && (r.Ok? <==> count == 1)
      && (count == 0 ==> r == Err(InvalidExternalSignature))
      && (count > 1 ==> r == Err(DuplicateSignature))
    ensures AppendSignature(sc, b, sig).Ok? ==>
              var r := AppendSignature(sc, b, sig).value;
              && Extends(b, r) && (Sound(sc, b) ==> Sound(sc, r))
              && forall k: nat | k < |b.spends| ::
                   r.spends[k].spendAuthSig == if ValidFor(sc, b, sig, k) then Signed(sig) else b.spends[k].spendAuthSig
  {
    var sighash := b.authorization.sighash;
    var (r, count) := MapAuthorization(b, 0, Same, Same,
                                       AppendMap(sc, sig, sighash), Same);
    AppendCounts(sc, b, sig, |b.spends|);
    OutputsKeepCount(b.outputs, CountValid(sc, b, sig, |b.spends|), |b.outputs|);
    MapKeepsEffects(b, 0, Same, Same,
                    AppendMap(sc, sig, sighash), Same);
    SameOutputs(b.outputs, CountValid(sc, b, sig, |b.spends|));
    forall k: nat | k < |b.spends|
      ensures r.spends[k].zkproof == b.spends[k].zkproof && r.spends[k].rk == b.spends[k].rk
      ensures r.spends[k].spendAuthSig == if ValidFor(sc, b, sig, k) then Signed(sig) else b.spends[k].spendAuthSig
    {
      MapSpendsAt(b.spends, 0, Same, AppendMap(sc, sig, sighash), |b.spends|, k);
    }
  }

  lemma {:induction false} NoneValid<P, S, O>(sc: Scheme<P>, b: PartialBundle<P, S, O>, sig: Signature, n: nat)
    requires n <= |b.spends| && forall k: nat | k < n :: !ValidFor(sc, b, sig, k)
    ensures CountValid(sc, b, sig, n) == 0
  {
    if n > 0 { NoneValid(sc, b, sig, n - 1); }
  }

  // The number of unsigned spends among the first n.
  ghost function CountUnsigned<P, S, O>(b: PartialBundle<P, S, O>, n: nat): nat
    requires n <= |b.spends|
  {
    if n == 0 then 0 else CountUnsigned(b, n - 1) + if b.spends[n - 1].spendAuthSig.Unsigned? then 1 else 0
  }

  lemma {:induction false} CountAfterAppend<P, S, O>(sc: Scheme<P>, b: PartialBundle<P, S, O>, r: PartialBundle<P, S, O>, sig: Signature, n: nat)
    requires n <= |b.spends| == |r.spends|
    requires forall k: nat | k < |b.spends| ::
               r.spends[k].spendAuthSig == if ValidFor(sc, b, sig, k) then Signed(sig) else b.spends[k].spendAuthSig
    ensures CountUnsigned(b, n) == CountUnsigned(r, n) + CountValid(sc, b, sig, n)
  {
    if n > 0 { CountAfterAppend(sc, b, r, sig, n - 1); }
  }

  lemma {:induction false} SomeValid<P, S, O>(sc: Scheme<P>, b: PartialBundle<P, S, O>, sig: Signature, n: nat)
    requires n <= |b.spends| && CountValid(sc, b, sig, n) > 0
    ensures exists k: nat :: k < n && ValidFor(sc, b, sig, k)
  {
    if ValidFor(sc, b, sig, n - 1) {
    } else {
      SomeValid(sc, b, sig, n - 1);
    }
  }

  ghost predicate NewlySigned<P, S, O>(b: PartialBundle<P, S, O>, r: PartialBundle<P, S, O>, sig: Signature, k: nat) {
    k < |b.spends| == |r.spends| && b.spends[k].spendAuthSig.Unsigned? && r.spends[k].spendAuthSig == Signed(sig)
  }

  lemma AppendStores<P(!new), S, O>(sc: Scheme<P>, b: PartialBundle<P, S, O>, sig: Signature)
    requires AppendSignature(sc, b, sig).Ok?
    ensures
      var r := AppendSignature(sc, b, sig).value;
      && Extends(b, r) && CountUnsigned(b, |b.spends|) == CountUnsigned(r, |r.spends|) + 1
      && Stored(b, r, sig)
  {
    var r := AppendSignature(sc, b, sig).value;
    AppendIff(sc, b, sig);
    CountAfterAppend(sc, b, r, sig, |b.spends|);
    SomeValid(sc, b, sig, |b.spends|);
    var k: nat :| k < |b.spends| && ValidFor(sc, b, sig, k);
    assert NewlySigned(b, r, sig, k);
  }

  lemma StaysSigned<P, S, O>(b: PartialBundle<P, S, O>, next: PartialBundle<P, S, O>, r: PartialBundle<P, S, O>, sig: Signature, k: nat)
    requires Extends(b, next) && Extends(next, r) && (NewlySigned(b, next, sig, k) || NewlySigned(next, r, sig, k))
    ensures NewlySigned(b, r, sig, k)
  {
  }

  ghost predicate Stored<P, S, O>(b: PartialBundle<P, S, O>, r: PartialBundle<P, S, O>, sig: Signature) {
    exists k: nat :: NewlySigned(b, r, sig, k)
  }

  // Every signature of the list is stored.
  ghost predicate AllStored<P, S, O>(b: PartialBundle<P, S, O>, r: PartialBundle<P, S, O>, sigs: seq<Signature>) {
    forall i: nat | i < |sigs| :: Stored(b, r, sigs[i])
  }

  lemma StoredFirst<P, S, O>(b: PartialBundle<P, S, O>, next: PartialBundle<P, S, O>, r: PartialBundle<P, S, O>, sigs: seq<Signature>)
    requires sigs != [] && Extends(b, next) && Extends(next, r) && AllStored(next, r, sigs[1..])
    requires Stored(b, next, sigs[0])
    ensures AllStored(b, r, sigs)
  {
    forall i: nat | i < |sigs|
      ensures Stored(b, r, sigs[i])
    {
      if i == 0 {
        var k: nat :| NewlySigned(b, next, sigs[0], k);
        StaysSigned(b, next, r, sigs[0], k);
      } else {
        assert Stored(next, r, sigs[1..][i - 1]);
        var k: nat :| NewlySigned(next, r, sigs[i], k);
        StaysSigned(b, next, r, sigs[i], k);
      }
    }
  }

  /** Appending a list stores every signature of it, on as many spends as there are signatures. */
  lemma {:induction false} AppendsStoreAll<P(!new), S, O>(sc: Scheme<P>, b: PartialBundle<P, S, O>, sigs: seq<Signature>)
    requires AppendSignatures(sc, b, sigs).Ok?
    ensures
      var r := AppendSignatures(sc, b, sigs).value;
      CountUnsigned(b, |b.spends|) == CountUnsigned(r, |r.spends|) + |sigs| && AllStored(b, r, sigs)
    decreases |sigs|
  {
    if sigs != [] {
      var next := AppendSignature(sc, b, sigs[0]).value;
      AppendStores(sc, b, sigs[0]);
      AppendsStoreAll(sc, next, sigs[1..]);
      AppendsExtend(sc, next, sigs[1..]);
      StoredFirst(b, next, AppendSignatures(sc, b, sigs).value, sigs);
    }
  }

  // The same signature cannot be appended twice.
  lemma AppendTwiceFails<P(!new), S, O>(sc: Scheme<P>, b: PartialBundle<P, S, O>, sig: Signature)
    requires AppendSignature(sc, b, sig).Ok?
    ensures AppendSignature(sc, AppendSignature(sc, b, sig).value, sig) == Err(InvalidExternalSignature)
  {
    var r := AppendSignature(sc, b, sig).value;
    AppendIff(sc, b, sig);
    forall k: nat | k < |r.spends|
      ensures !ValidFor(sc, r, sig, k)
    {
      assert r.spends[k].spendAuthSig == if ValidFor(sc, b, sig, k) then Signed(sig) else b.spends[k].spendAuthSig;
    }
    NoneValid(sc, r, sig, |r.spends|);
    AppendIff(sc, r, sig);
  }

  // --- runs ---

  datatype Step = SignWith(ask: Fr, coin: nat) | Append(signatures: seq<Signature>)

  function RunStep<P(==), S, O>(sc: Scheme<P>, b: PartialBundle<P, S, O>, step: Step): Result<PartialBundle<P, S, O>, Error> {
    match step
    case SignWith(ask, coin) => Ok(Sign(sc, b, ask, coin).0)
    case Append(signatures) => AppendSignatures(sc, b, signatures)
  }

  function Run<P(==), S, O>(sc: Scheme<P>, b: PartialBundle<P, S, O>, steps: seq<Step>): Result<PartialBundle<P, S, O>, Error>
    decreases |steps|
  {
    if steps == [] then Ok(b)
    else match RunStep(sc, b, steps[0])
         case Err(e) => Err(e)
         case Ok(next) => Run(sc, next, steps[1..])
  }

  lemma {:induction false} AppendsExtend<P(!new), S, O>(sc: Scheme<P>, b: PartialBundle<P, S, O>, sigs: seq<Signature>)
    requires AppendSignatures(sc, b, sigs).Ok?
    ensures Extends(b, AppendSignatures(sc, b, sigs).value)
    ensures Sound(sc, b) ==> Sound(sc, AppendSignatures(sc, b, sigs).value)
    decreases |sigs|
  {
    if sigs != [] {
      AppendIff(sc, b, sigs[0]);
      var next := AppendSignature(sc, b, sigs[0]).value;
      AppendsExtend(sc, next, sigs[1..]);
      ExtendsTransitive(b, next, AppendSignatures(sc, next, sigs[1..]).value);
    }
  }

  // A run goes through all its steps: its last step acts on what the others reached.
  lemma {:induction false} RunLast<P(!new), S, O>(sc: Scheme<P>, b: PartialBundle<P, S, O>, steps: seq<Step>)
    requires steps != []
    ensures Run(sc, b, steps) == match Run(sc, b, steps[..|steps| - 1])
                                 case Err(e) => Err(e)
                                 case Ok(reached) => RunStep(sc, reached, steps[|steps| - 1])
    decreases |steps|
  {
    if |steps| > 1 && RunStep(sc, b, steps[0]).Ok? {
      assert steps[1..][..|steps| - 2] == steps[..|steps| - 1][1..];
      RunLast(sc, RunStep(sc, b, steps[0]).value, steps[1..]);
    }
  }

  /** Over every run of signing steps, stored signatures verify under their own keys, are never
  replaced, and the effects of the bundle do not change. */
  lemma {:induction false} RunSound<P(!new), S, O>(sc: Scheme<P>, b: PartialBundle<P, S, O>, steps: seq<Step>)
    requires IsScheme(sc) && Run(sc, b, steps).Ok?
    ensures Extends(b, Run(sc, b, steps).value)
    ensures Sound(sc, b) ==> Sound(sc, Run(sc, b, steps).value)
    decreases |steps|
  {
    if steps != [] {
      match steps[0] {
        case SignWith(ask, coin) => SignExtends(sc, b, ask, coin);
        case Append(signatures) => AppendsExtend(sc, b, signatures);
      }
      var next := RunStep(sc, b, steps[0]).value;
      RunSound(sc, next, steps[1..]);
      ExtendsTransitive(b, next, Run(sc, next, steps[1..]).value);
    }
  }

  // --- finalizing ---

  // Finalizing succeeds exactly when every spend is signed, and keeps every signature.
  lemma FinalizeIff<P, S, O>(b: PartialBundle<P, S, O>)
    ensures Finalize(b).Ok? <==> forall k: nat | k < |b.spends| :: b.spends[k].spendAuthSig.Signed?
    ensures Finalize(b).Err? ==> Finalize(b).error == MissingSignatures
    ensures Finalize(b).Ok? ==>
              && Finalize(b).value.Effects() == b.Effects() && SameProofs(b, Finalize(b).value)
              && Finalize(b).value.authorization == Authorized(b.authorization.bindingSignature)
              && |Finalize(b).value.spends| == |b.spends|
              && forall k: nat | k < |b.spends| ::
                   && Finalize(b).value.spends[k].rk == b.spends[k].rk
                   && b.spends[k].spendAuthSig == Signed(Finalize(b).value.spends[k].spendAuthSig)
  {
    TryMapSpendsIff(b.spends, Keep<S>, FinalizeSpend<P>, |b.spends|);
    TryMapOutputsIff(b.outputs, Keep<O>, |b.outputs|);
    if Finalize(b).Ok? {
      TryMapKeepsEffects(b, Keep<S>, Keep<O>, FinalizeSpend<P>, FinalizeAuth);
      forall k: nat | k < |b.spends|
        ensures Finalize(b).value.spends[k].rk == b.spends[k].rk
        ensures b.spends[k].spendAuthSig == Signed(Finalize(b).value.spends[k].spendAuthSig)
        ensures b.spends[k].zkproof == Finalize(b).value.spends[k].zkproof
      {
        assert Finalize(b).value.spends[k].Effects() == b.spends[k].Effects();
        assert Ok(Finalize(b).value.spends[k].spendAuthSig) == FinalizeSpend(b.spends[k].spendAuthSig);
      }
      forall k: nat | k < |b.outputs| ensures Finalize(b).value.outputs[k] == b.outputs[k] {
        assert Finalize(b).value.outputs[k].Effects() == b.outputs[k].Effects();
      }
    } else {
      FirstMissing(b.spends, |b.spends|);
    }
  }

  lemma {:induction false} FirstMissing<P, S>(spends: seq<SpendDescription<P, S, MaybeSigned<P>>>, n: nat)
    requires n <= |spends| && TryMapSpends(spends, Keep<S>, FinalizeSpend<P>, n).Err?
    ensures TryMapSpends(spends, Keep<S>, FinalizeSpend<P>, n).error == MissingSignatures
  {
    if TryMapSpends(spends, Keep<S>, FinalizeSpend<P>, n - 1).Err? { FirstMissing(spends, n - 1); }
  }

  // --- applying all signatures at once ---

  ghost predicate Controlled<P>(sc: Scheme<P>, ak: P, keys: seq<Fr>, n: nat)
    requires n <= |keys|
  {
    exists j: nat :: j < n && sc.PublicKey(keys[j]) == ak
  }

  // After n keys, exactly the dummies and the spends of those keys are signed.
  lemma {:induction false} SignAllAt<P(!new), S, O>(sc: Scheme<P>, b: PartialBundle<P, S, O>, keys: seq<Fr>, coin: nat, n: nat, k: nat)
    requires IsScheme(sc) && n <= |keys| && k < |b.spends|
    ensures Extends(b, SignAll(sc, b, keys, coin, n).0)
    ensures SignAll(sc, b, keys, coin, n).0.spends[k].spendAuthSig.Signed?
            <==> b.spends[k].spendAuthSig.Signed? || Controlled(sc, b.spends[k].spendAuthSig.parts.ak, keys, n)
  {
    if n > 0 {
      var (partial, reached) := SignAll(sc, b, keys, coin, n - 1);
      SignAllAt(sc, b, keys, coin, n - 1, k);
      SignAt(sc, partial, keys[n - 1], reached, k);
      SignExtends(sc, partial, keys[n - 1], reached);
      ExtendsTransitive(b, partial, SignAll(sc, b, keys, coin, n).0);
      if b.spends[k].spendAuthSig.Unsigned? { ControlledStep(sc, b.spends[k].spendAuthSig.parts.ak, keys, n); }
    }
  }

  lemma ControlledStep<P>(sc: Scheme<P>, ak: P, keys: seq<Fr>, n: nat)
    requires 0 < n <= |keys|
    ensures Controlled(sc, ak, keys, n) <==> Controlled(sc, ak, keys, n - 1) || sc.PublicKey(keys[n - 1]) == ak
  {
    if Controlled(sc, ak, keys, n) {
      var j: nat :| j < n && sc.PublicKey(keys[j]) == ak;
      assert j < n - 1 || j == n - 1;
    }
  }

  lemma {:induction false} SignAllSound<P(!new), S, O>(sc: Scheme<P>, b: PartialBundle<P, S, O>, keys: seq<Fr>, coin: nat, n: nat)
    requires IsScheme(sc) && n <= |keys|
    ensures Extends(b, SignAll(sc, b, keys, coin, n).0)
    ensures Sound(sc, b) ==> Sound(sc, SignAll(sc, b, keys, coin, n).0)
  {
    if n > 0 {
      var (partial, reached) := SignAll(sc, b, keys, coin, n - 1);
      SignAllSound(sc, b, keys, coin, n - 1);
      SignExtends(sc, partial, keys[n - 1], reached);
      ExtendsTransitive(b, partial, SignAll(sc, b, keys, coin, n).0);
    }
  }

  lemma {:induction false} SignedCount<P, S, O>(sc: Scheme<P>, b: PartialBundle<P, S, O>, r: PartialBundle<P, S, O>, ask: Fr, n: nat)
    requires n <= |b.spends| == |r.spends|
    requires forall k: nat | k < |b.spends| ::
               r.spends[k].spendAuthSig.Unsigned? <==> b.spends[k].spendAuthSig.Unsigned? && !Signs(sc, b.spends[k].spendAuthSig, ask)
    ensures CountUnsigned(b, n) == CountUnsigned(r, n) + Signable(sc, b.spends, ask, n)
  {
    if n > 0 { SignedCount(sc, b, r, ask, n - 1); }
  }

  /** Over all keys one coin is used up for every signature made. */
  lemma {:induction false} SignAllCoins<P(!new), S, O>(sc: Scheme<P>, b: PartialBundle<P, S, O>, keys: seq<Fr>, coin: nat, n: nat)
    requires IsScheme(sc) && n <= |keys|
    ensures
      var (r, after) := SignAll(sc, b, keys, coin, n);
      |r.spends| == |b.spends| && after + CountUnsigned(r, |r.spends|) == coin + CountUnsigned(b, |b.spends|)
  {
    if n > 0 {
      var (partial, reached) := SignAll(sc, b, keys, coin, n - 1);
      var r := Sign(sc, partial, keys[n - 1], reached).0;
      SignAllCoins(sc, b, keys, coin, n - 1);
      SignCoins(sc, partial, keys[n - 1], reached);
      forall k: nat | k < |partial.spends|
        ensures r.spends[k].spendAuthSig.Unsigned?
                <==> partial.spends[k].spendAuthSig.Unsigned? && !Signs(sc, partial.spends[k].spendAuthSig, keys[n - 1])
      {
        SignAt(sc, partial, keys[n - 1], reached, k);
      }
      SignedCount(sc, partial, r, keys[n - 1], |partial.spends|);
    }
  }

  // Every spend is a dummy or belongs to one of the keys.
  ghost predicate AllControlled<P, S, O>(sc: Scheme<P>, b: UnsignedBundle<P, S, O>, keys: seq<Fr>) {
    forall k: nat | k < |b.spends| ::
      b.spends[k].spendAuthSig.dummyAsk.Some? || Controlled(sc, b.spends[k].spendAuthSig.parts.ak, keys, |keys|)
  }

  /** Applying signatures succeeds exactly when the given keys control every spend that is no dummy;
  otherwise signatures are missing. */
  lemma ApplySignaturesIff<P(!new), S, O>(s: Schemes<P>, b: UnsignedBundle<P, S, O>, coin: nat, sighash: seq<byte>, keys: seq<Fr>)
    requires AreSchemes(s)
    ensures ApplySignatures(s, b, coin, sighash, keys).Ok? <==> AllControlled(s.spendAuth, b, keys)
    ensures ApplySignatures(s, b, coin, sighash, keys).Err? ==> ApplySignatures(s, b, coin, sighash, keys).error == MissingSignatures
    ensures ApplySignatures(s, b, coin, sighash, keys).Ok? && Consistent(s.spendAuth, b) ==>
              var final := ApplySignatures(s, b, coin, sighash, keys).value;
              && final.Effects() == b.Effects() && SameProofs(b, final)
              && AllVerify(s, final, s.binding.PublicKey(b.authorization.bsk), sighash)
  {
    if ApplySignatures(s, b, coin, sighash, keys).Ok? && Consistent(s.spendAuth, b) { AppliedVerifies(s, b, coin, sighash, keys); }
    var (prepared, reached) := Prepare(s, b, coin, sighash);
    var signed := SignAll(s.spendAuth, prepared, keys, reached, |keys|).0;
    SignAllSound(s.spendAuth, prepared, keys, reached, |keys|);
    FinalizeIff(signed);
    forall k: nat | k < |b.spends|
      ensures signed.spends[k].spendAuthSig.Signed?
              <==> b.spends[k].spendAuthSig.dummyAsk.Some? || Controlled(s.spendAuth, b.spends[k].spendAuthSig.parts.ak, keys, |keys|)
    {
      PrepareAt(s, b, coin, sighash, k);
      SignAllAt(s.spendAuth, prepared, keys, reached, |keys|, k);
    }
  }

  /** The bundle it gives has the effects and proofs of the original, and every signature verifies for
  the sighash, the binding signature under the key of bsk. */
  lemma AppliedVerifies<P(!new), S, O>(s: Schemes<P>, b: UnsignedBundle<P, S, O>, coin: nat, sighash: seq<byte>, keys: seq<Fr>)
    requires AreSchemes(s) && Consistent(s.spendAuth, b) && ApplySignatures(s, b, coin, sighash, keys).Ok?
    ensures
      var final := ApplySignatures(s, b, coin, sighash, keys).value;
      && final.Effects() == b.Effects() && SameProofs(b, final)
      && AllVerify(s, final, s.binding.PublicKey(b.authorization.bsk), sighash)
  {
    var (prepared, reached) := Prepare(s, b, coin, sighash);
    var signed := SignAll(s.spendAuth, prepared, keys, reached, |keys|).0;
    PrepareSound(s, b, coin, sighash);
    SignAllSound(s.spendAuth, prepared, keys, reached, |keys|);
    FinalizeIff(signed);
    FinalizedVerifies(s, signed, s.binding.PublicKey(b.authorization.bsk));
  }

  // The order of the keys, and repetitions among them, do not matter.
  lemma KeyOrderIrrelevant<P(!new), S, O>(s: Schemes<P>, b: UnsignedBundle<P, S, O>, c1: nat, c2: nat, sighash: seq<byte>,
                                          keys1: seq<Fr>, keys2: seq<Fr>)
    requires AreSchemes(s) && forall key: Fr :: key in keys1 <==> key in keys2
    ensures ApplySignatures(s, b, c1, sighash, keys1).Ok? <==> ApplySignatures(s, b, c2, sighash, keys2).Ok?
  {
    ApplySignaturesIff(s, b, c1, sighash, keys1);
    ApplySignaturesIff(s, b, c2, sighash, keys2);
    forall k: nat | k < |b.spends|
      ensures Controlled(s.spendAuth, b.spends[k].spendAuthSig.parts.ak, keys1, |keys1|)
              <==> Controlled(s.spendAuth, b.spends[k].spendAuthSig.parts.ak, keys2, |keys2|)
    {
      ControlledBySet(s.spendAuth, b.spends[k].spendAuthSig.parts.ak, keys1, keys2);
      ControlledBySet(s.spendAuth, b.spends[k].spendAuthSig.parts.ak, keys2, keys1);
    }
  }

  lemma ControlledBySet<P>(sc: Scheme<P>, ak: P, keys1: seq<Fr>, keys2: seq<Fr>)
    requires forall key: Fr :: key in keys1 ==> key in keys2
    ensures Controlled(sc, ak, keys1, |keys1|) ==> Controlled(sc, ak, keys2, |keys2|)
  {
    if Controlled(sc, ak, keys1, |keys1|) {
      var j: nat :| j < |keys1| && sc.PublicKey(keys1[j]) == ak;
      assert keys1[j] in keys2;
      var i: nat :| i < |keys2| && keys2[i] == keys1[j];
      assert sc.PublicKey(keys2[i]) == ak;
    }
  }

  // All signatures of an authorized bundle verify: one per spend, and the binding signature.
  ghost predicate AllVerify<P, S, O>(s: Schemes<P>, b: AuthorizedBundle<P, S, O>, bvk: P, sighash: seq<byte>) {
    && (forall k: nat | k < |b.spends| :: s.spendAuth.verify(b.spends[k].rk, sighash, b.spends[k].spendAuthSig))
    && s.binding.verify(bvk, sighash, b.authorization.bindingSig)
  }

  // A sound bundle that finalizes is fully and correctly signed.
  lemma FinalizedVerifies<P(!new), S, O>(s: Schemes<P>, b: PartialBundle<P, S, O>, bvk: P)
    requires Sound(s.spendAuth, b) && Finalize(b).Ok?
    requires s.binding.verify(bvk, b.authorization.sighash, b.authorization.bindingSignature)
    ensures AllVerify(s, Finalize(b).value, bvk, b.authorization.sighash)
  {
    FinalizeIff(b);
    forall k: nat | k < |b.spends|
      ensures s.spendAuth.verify(Finalize(b).value.spends[k].rk, b.authorization.sighash, Finalize(b).value.spends[k].spendAuthSig)
    {
      assert SpendSound(s.spendAuth, b.authorization.sighash, b.spends[k]);
    }
  }

  /** From a consistent bundle, any successful run of steps followed by finalization gives a bundle
  with the original effects whose every signature verifies for the one sighash. */
  lemma SigningProtocol<P(!new), S, O>(s: Schemes<P>, b: UnsignedBundle<P, S, O>, coin: nat, sighash: seq<byte>, steps: seq<Step>)
    requires AreSchemes(s) && Consistent(s.spendAuth, b)
    requires Run(s.spendAuth, Prepare(s, b, coin, sighash).0, steps).Ok?
    requires Finalize(Run(s.spendAuth, Prepare(s, b, coin, sighash).0, steps).value).Ok?
    ensures
      var final := Finalize(Run(s.spendAuth, Prepare(s, b, coin, sighash).0, steps).value).value;
      && final.Effects() == b.Effects() && SameProofs(b, final)
      && AllVerify(s, final, s.binding.PublicKey(b.authorization.bsk), sighash)
  {
    var prepared := Prepare(s, b, coin, sighash).0;
    PrepareSound(s, b, coin, sighash);
    RunSound(s.spendAuth, prepared, steps);
    var signed := Run(s.spendAuth, prepared, steps).value;
    FinalizeIff(signed);
    FinalizedVerifies(s, signed, s.binding.PublicKey(b.authorization.bsk));
  }
}
