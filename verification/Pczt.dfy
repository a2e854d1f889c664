/** The partially created form of a bundle, and the roles that complete it: IO finalizer, signer,
prover and extractor. */
module Pczt {
  import opened Wrappers
  import opened Bytes
  import opened Groups
  import opened Scalars
  import opened ValueBalance
  import opened NoteTree
  import opened RedJubjub
  import opened Bundles
  import Signing
  import opened Verifier
  import opened UnauthorizedBundles

  datatype Recipient = Recipient(gd: seq<bool>, pkd: seq<bool>)

  datatype Spend<P> =
    Spend(cv: P, nullifier: seq<byte>, rk: P, zkproof: Option<ProofBytes>, spendAuthSig: Option<Signature>,
          recipient: Option<Recipient>, value: Option<U64>, rseed: Option<Fr>, rcv: Option<Fr>,
          proofGenerationKey: Option<ProofGenerationKey<P>>, merklePath: Option<MerklePath>, alpha: Option<Fr>, dummyAsk: Option<Fr>)

  datatype Output<P> =
    Output(cv: P, cmu: int, ephemeralKey: seq<byte>, encCiphertext: seq<byte>, outCiphertext: seq<byte>,
           zkproof: Option<ProofBytes>, recipient: Option<Recipient>, value: Option<U64>, rseed: Option<Fr>, rcv: Option<Fr>)

  datatype State<P> = State(spends: seq<Spend<P>>, outputs: seq<Output<P>>, valueSum: ValueSum, anchor: int, bsk: Option<Fr>)

  datatype SignerError = InvalidExternalSignature | MissingSpendAuthRandomizer | WrongSpendAuthorizingKey

  datatype IoFinalizerError = DummySignature(error: SignerError) | InvalidValueSum | MissingValueCommitTrapdoor | ValueCommitMismatch

  datatype ProverError = InvalidDiversifier | MissingProofGenerationKey | MissingRandomSeed | MissingRecipient
                       | MissingSpendAuthRandomizer | MissingValue | MissingValueCommitTrapdoor | MissingWitness

  datatype TxExtractorError = MissingBindingSignatureSigningKey | MissingProof | MissingSpendAuthSig | ValueSumOutOfRange

  // --- signer ---

  function Sign<P(==)>(sc: Scheme<P>, d: Spend<P>, sighash: seq<byte>, ask: Fr, coin: nat): (Spend<P>, Result<(), SignerError>) {
    match d.alpha
    case None => (d, Err(SignerError.MissingSpendAuthRandomizer))
    case Some(alpha) =>
      var rsk := sc.RandomizeSecret(ask, alpha);
      if d.rk == sc.PublicKey(rsk) then (d.(spendAuthSig := Some(sc.sign(rsk, sighash, coin))), Ok(()))
      else (d, Err(WrongSpendAuthorizingKey))
  }

  function ApplySignature<P>(sc: Scheme<P>, d: Spend<P>, sighash: seq<byte>, sig: Signature): (Spend<P>, Result<(), SignerError>) {
    if sc.verify(d.rk, sighash, sig) then (d.(spendAuthSig := Some(sig)), Ok(())) else (d, Err(InvalidExternalSignature))
  }

  // The key controls the spend: its randomization is rk.
  ghost predicate Controls<P>(sc: Scheme<P>, d: Spend<P>, ask: Fr) {
    d.alpha.Some? && d.rk == sc.RandomizePublic(sc.PublicKey(ask), d.alpha.value)
  }

  // A stored signature is valid for the message under the spend's own key.
  ghost predicate SignedFor<P>(sc: Scheme<P>, d: Spend<P>, sighash: seq<byte>) {
    d.spendAuthSig.Some? && sc.verify(d.rk, sighash, d.spendAuthSig.value)
  }

  /** Signing succeeds exactly with the controlling key, and either way of storing a signature stores
  a valid one; failures change nothing. */
  lemma SignIff<P(!new)>(sc: Scheme<P>, d: Spend<P>, sighash: seq<byte>, ask: Fr, coin: nat)
    requires IsScheme(sc)
    ensures Sign(sc, d, sighash, ask, coin).1.Ok? <==> Controls(sc, d, ask)
    ensures Sign(sc, d, sighash, ask, coin).1.Ok? ==> SignedFor(sc, Sign(sc, d, sighash, ask, coin).0, sighash)
    ensures Sign(sc, d, sighash, ask, coin).1.Err? ==>
              && Sign(sc, d, sighash, ask, coin).0 == d
              && Sign(sc, d, sighash, ask, coin).1.error
                 == if d.alpha.None? then SignerError.MissingSpendAuthRandomizer else WrongSpendAuthorizingKey
    ensures Sign(sc, d, sighash, ask, coin).0 == d.(spendAuthSig := Sign(sc, d, sighash, ask, coin).0.spendAuthSig)
  {
    if d.alpha.Some? {
      RandomizeCommutes(sc, ask, d.alpha.value);
      assert sc.SignatureVerifiesAt(sc.RandomizeSecret(ask, d.alpha.value), sighash, coin);
    }
  }

  // --- IO finalizer ---

  predicate AllTrapdoorsSet<P>(st: State<P>) {
    && (forall k: nat | k < |st.spends| :: st.spends[k].rcv.Some?)
    && (forall k: nat | k < |st.outputs| :: st.outputs[k].rcv.Some?)
  }

  function SpendRcvSum<P>(spends: seq<Spend<P>>, n: nat): Fr
    requires n <= |spends| && forall k: nat | k < |spends| :: spends[k].rcv.Some?
  {
    if n == 0 then 0 else FrAdd(SpendRcvSum(spends, n - 1), spends[n - 1].rcv.value)
  }

  function OutputRcvSum<P>(outputs: seq<Output<P>>, n: nat): Fr
    requires n <= |outputs| && forall k: nat | k < |outputs| :: outputs[k].rcv.Some?
  {
    if n == 0 then 0 else FrAdd(OutputRcvSum(outputs, n - 1), outputs[n - 1].rcv.value)
  }

  function BskOf<P>(st: State<P>): Fr
    requires AllTrapdoorsSet(st)
  {
    FrSub(SpendRcvSum(st.spends, |st.spends|), OutputRcvSum(st.outputs, |st.outputs|))
  }

  function PcztSpendCvs<P>(spends: seq<Spend<P>>): (r: seq<P>)
    ensures |r| == |spends|
  {
    seq(|spends|, i requires 0 <= i < |spends| => spends[i].cv)
  }

  function PcztOutputCvs<P>(outputs: seq<Output<P>>): (r: seq<P>)
    ensures |r| == |outputs|
  {
    seq(|outputs|, i requires 0 <= i < |outputs| => outputs[i].cv)
  }

  function BvkOf<P>(b: Bases<P>, st: State<P>, valueBalance: I64): P {
    IntoBvk(b, Sub(b.group, CommitmentSum(b.group, PcztSpendCvs(st.spends)), CommitmentSum(b.group, PcztOutputCvs(st.outputs))),
            valueBalance)
  }

  // The dummy key is taken out before it is used.
  function SignDummy<P(==)>(sc: Scheme<P>, d: Spend<P>, sighash: seq<byte>, coin: nat): (Spend<P>, Result<(), SignerError>) {
    match d.dummyAsk
    case None => (d, Ok(()))
    case Some(ask) => Sign(sc, d.(dummyAsk := None), sighash, ask, coin)
  }

  // After the first n spends, or after the first that failed.
  function SignDummies<P(==)>(sc: Scheme<P>, spends: seq<Spend<P>>, sighash: seq<byte>, coin: nat, n: nat)
    : (r: (seq<Spend<P>>, Result<(), SignerError>))
    requires n <= |spends|
    ensures |r.0| == |spends|
  {
    if n == 0 then (spends, Ok(()))
    else
      var before := SignDummies(sc, spends, sighash, coin, n - 1);
      if before.1.Err? then before
      else
        var (d, result) := SignDummy(sc, before.0[n - 1], sighash, coin + n - 1);
        (before.0[n - 1 := d], result)
  }

  function FinalizeIo<P(==)>(c: Context<P>, st: State<P>, sighash: seq<byte>, coin: nat): (State<P>, Result<(), IoFinalizerError>) {
    if !AllTrapdoorsSet(st) then (st, Err(IoFinalizerError.MissingValueCommitTrapdoor))
    else match st.valueSum.TryIntoI64()
         case None => (st, Err(InvalidValueSum))
         case Some(valueBalance) =>
           var bsk := BskOf(st);
           if BindingKey(c.bases, bsk) != BvkOf(c.bases, st, valueBalance) then (st, Err(ValueCommitMismatch))
           else
             var (spends, result) := SignDummies(c.schemes.spendAuth, st.spends, sighash, coin, |st.spends|);
             (st.(spends := spends, bsk := Some(bsk)),
              match result case Ok(_) => Ok(()) case Err(e) => Err(DummySignature(e)))
  }

  ghost predicate DummyControlled<P>(sc: Scheme<P>, d: Spend<P>) {
    d.dummyAsk.Some? ==> Controls(sc, d, d.dummyAsk.value)
  }

  // What finalizing does to one spend.
  ghost predicate DummySigned<P>(sc: Scheme<P>, before: Spend<P>, after: Spend<P>, sighash: seq<byte>) {
    && after == before.(dummyAsk := None, spendAuthSig := after.spendAuthSig)
    && (before.dummyAsk.Some? ==> SignedFor(sc, after, sighash))
    && (before.dummyAsk.None? ==> after.spendAuthSig == before.spendAuthSig)
  }

  lemma SignDummyIff<P(!new)>(sc: Scheme<P>, d: Spend<P>, sighash: seq<byte>, coin: nat)
    requires IsScheme(sc)
    ensures SignDummy(sc, d, sighash, coin).1.Ok? <==> DummyControlled(sc, d)
    ensures SignDummy(sc, d, sighash, coin).1.Ok? ==> DummySigned(sc, d, SignDummy(sc, d, sighash, coin).0, sighash)
    ensures SignDummy(sc, d, sighash, coin).1.Err? ==> SignDummy(sc, d, sighash, coin).0 == d.(dummyAsk := None)
  {
    if d.dummyAsk.Some? { SignIff(sc, d.(dummyAsk := None), sighash, d.dummyAsk.value, coin); }
  }

  lemma {:induction false} SignDummiesIff<P(!new)>(sc: Scheme<P>, spends: seq<Spend<P>>, sighash: seq<byte>, coin: nat, n: nat)
    requires IsScheme(sc) && n <= |spends|
    ensures SignDummies(sc, spends, sighash, coin, n).1.Ok? <==> forall k: nat | k < n :: DummyControlled(sc, spends[k])
    ensures SignDummies(sc, spends, sighash, coin, n).1.Ok? ==>
              && (forall k: nat | k < n :: DummySigned(sc, spends[k], SignDummies(sc, spends, sighash, coin, n).0[k], sighash))
              && (forall k: nat | n <= k < |spends| :: SignDummies(sc, spends, sighash, coin, n).0[k] == spends[k])
  {
    if n > 0 {
      SignDummiesIff(sc, spends, sighash, coin, n - 1);
      var before := SignDummies(sc, spends, sighash, coin, n - 1);
      if before.1.Ok? { SignDummyIff(sc, before.0[n - 1], sighash, coin + n - 1); }
    }
  }

  /** The dummy at position k is signed with coin k of the finalizer: no two share their randomness. */
  lemma {:induction false} SignDummiesCoins<P(!new)>(sc: Scheme<P>, spends: seq<Spend<P>>, sighash: seq<byte>, coin: nat, n: nat, k: nat)
    requires k < n <= |spends| && spends[k].dummyAsk.Some? && SignDummies(sc, spends, sighash, coin, n).1.Ok?
    ensures spends[k].alpha.Some?
    ensures SignDummies(sc, spends, sighash, coin, n).0[k].spendAuthSig
            == Some(sc.sign(sc.RandomizeSecret(spends[k].dummyAsk.value, spends[k].alpha.value), sighash, coin + k))
  {
    if k < n - 1 {
      SignDummiesCoins(sc, spends, sighash, coin, n - 1, k);
    } else {
      DummiesKeepRest(sc, spends, sighash, coin, n - 1, n - 1);
    }
  }

  lemma {:induction false} DummiesKeepRest<P>(sc: Scheme<P>, spends: seq<Spend<P>>, sighash: seq<byte>, coin: nat, n: nat, k: nat)
    requires n <= k < |spends|
    ensures SignDummies(sc, spends, sighash, coin, n).0[k] == spends[k]
  {
    if n > 0 { DummiesKeepRest(sc, spends, sighash, coin, n - 1, k); }
  }

  ghost predicate Balanced<P>(c: Context<P>, st: State<P>) {
    && st.valueSum.TryIntoI64().Some?
    && st.bsk.Some?
    && BindingKey(c.bases, st.bsk.value) == BvkOf(c.bases, st, st.valueSum.TryIntoI64().value)
  }

  /** Finalizing succeeds exactly when the trapdoors open the commitments to the declared sum and the
  dummies are signable; then no dummy key remains, every dummy is signed, and bsk matches bvk. */
  lemma FinalizeIoIff<P(!new)>(c: Context<P>, st: State<P>, sighash: seq<byte>, coin: nat)
    requires IsContext(c)
    ensures FinalizeIo(c, st, sighash, coin).1.Ok? <==>
              && AllTrapdoorsSet(st) && Balanced(c, st.(bsk := Some(BskOf(st))))
              && forall k: nat | k < |st.spends| :: DummyControlled(c.schemes.spendAuth, st.spends[k])
    ensures
      var r := FinalizeIo(c, st, sighash, coin).1;
      && (r == Err(IoFinalizerError.MissingValueCommitTrapdoor) <==> !AllTrapdoorsSet(st))
      && (r == Err(InvalidValueSum) <==> AllTrapdoorsSet(st) && st.valueSum.TryIntoI64().None?)
      && (r == Err(ValueCommitMismatch) <==>
            AllTrapdoorsSet(st) && st.valueSum.TryIntoI64().Some? && !Balanced(c, st.(bsk := Some(BskOf(st)))))
    ensures FinalizeIo(c, st, sighash, coin).1.Ok? ==>
              var after := FinalizeIo(c, st, sighash, coin).0;
              && after == st.(spends := after.spends, bsk := Some(BskOf(st)))
              && |after.spends| == |st.spends|
              && (forall k: nat | k < |st.spends| :: DummySigned(c.schemes.spendAuth, st.spends[k], after.spends[k], sighash))
              && Balanced(c, after)
  {
    SignDummiesIff(c.schemes.spendAuth, st.spends, sighash, coin, |st.spends|);
    var after := FinalizeIo(c, st, sighash, coin).0;
    if FinalizeIo(c, st, sighash, coin).1.Ok? {
      assert forall k: nat | k < |st.spends| :: after.spends[k].cv == st.spends[k].cv;
      assert PcztSpendCvs(after.spends) == PcztSpendCvs(st.spends);
    }
  }

  // The first spend whose dummy key does not control it.
  ghost predicate FirstUncontrolled<P>(sc: Scheme<P>, spends: seq<Spend<P>>, j: nat) {
    j < |spends| && !DummyControlled(sc, spends[j]) && forall k: nat | k < j :: DummyControlled(sc, spends[k])
  }

  // Everything before the failing spend is signed, that spend has lost its key, the rest is untouched.
  ghost predicate StoppedAt<P>(sc: Scheme<P>, before: seq<Spend<P>>, after: seq<Spend<P>>, sighash: seq<byte>, j: nat)
    requires j < |before|
  {
    && |after| == |before|
    && (forall k: nat | k < j :: DummySigned(sc, before[k], after[k], sighash))
    && after[j] == before[j].(dummyAsk := None)
    && (forall k: nat | j < k < |before| :: after[k] == before[k])
  }

  ghost predicate HasDummyKey<P>(spends: seq<Spend<P>>, start: nat) {
    exists k: nat :: start <= k < |spends| && spends[k].dummyAsk.Some?
  }

  lemma {:induction false} SignDummiesStops<P(!new)>(sc: Scheme<P>, spends: seq<Spend<P>>, sighash: seq<byte>, coin: nat, n: nat, j: nat)
    requires IsScheme(sc) && j < n <= |spends| && FirstUncontrolled(sc, spends, j)
    ensures SignDummies(sc, spends, sighash, coin, n).1.Err?
    ensures StoppedAt(sc, spends, SignDummies(sc, spends, sighash, coin, n).0, sighash, j)
  {
    if n > j + 1 {
      SignDummiesStops(sc, spends, sighash, coin, n - 1, j);
    } else {
      SignDummiesIff(sc, spends, sighash, coin, j);
      SignDummyIff(sc, spends[j], sighash, coin + j);
    }
  }

  /** Signing a dummy fails exactly when the commitments balance and some dummy key does not control
  its spend.  The state has then changed up to the first such spend: bsk is set, and contrary to what
  the finalizer is documented to leave, a spend authorizing key remains whenever a later dummy has one. */
  lemma DummyFailureIsPartial<P(!new)>(c: Context<P>, st: State<P>, sighash: seq<byte>, coin: nat, j: nat)
    requires IsContext(c) && FirstUncontrolled(c.schemes.spendAuth, st.spends, j)
    ensures FinalizeIo(c, st, sighash, coin).1.Err?
    ensures FinalizeIo(c, st, sighash, coin).1.error.DummySignature? <==> AllTrapdoorsSet(st) && Balanced(c, st.(bsk := Some(BskOf(st))))
    ensures FinalizeIo(c, st, sighash, coin).1.error.DummySignature? ==>
              var after := FinalizeIo(c, st, sighash, coin).0;
              && after == st.(bsk := Some(BskOf(st)), spends := after.spends)
              && StoppedAt(c.schemes.spendAuth, st.spends, after.spends, sighash, j)
              && (HasDummyKey(after.spends, 0) <==> HasDummyKey(st.spends, j + 1))
    ensures !FinalizeIo(c, st, sighash, coin).1.error.DummySignature? ==> FinalizeIo(c, st, sighash, coin).0 == st
  {
    SignDummiesStops(c.schemes.spendAuth, st.spends, sighash, coin, |st.spends|, j);
    var spends := SignDummies(c.schemes.spendAuth, st.spends, sighash, coin, |st.spends|).0;
    assert forall k: nat | k <= j :: spends[k].dummyAsk.None?;
    assert forall k: nat | j < k < |spends| :: spends[k] == st.spends[k];
  }

  // --- a state that fails this way ---

  // A dummy with zero trapdoor and value, under any keys.
  function ZeroDummy<P>(c: Context<P>, ask: Fr, alpha: Option<Fr>): Spend<P> {
    Spend(Derive(c.bases, Opening(0, 0)), [], c.schemes.spendAuth.RandomizePublic(c.schemes.spendAuth.PublicKey(ask), 0), None, None,
          None, Some(0), None, Some(0), None, None, alpha, Some(ask))
  }

  // Two dummies; the first has no randomizer.
  function TwoDummies<P>(c: Context<P>, ask: Fr, anchor: int): State<P> {
    State([ZeroDummy(c, ask, None), ZeroDummy(c, ask, Some(0))], [], ValueSum(0), anchor, None)
  }

  lemma TwoDummiesBalance<P(!new)>(c: Context<P>, ask: Fr, anchor: int)
    requires IsContext(c)
    ensures AllTrapdoorsSet(TwoDummies(c, ask, anchor))
    ensures Balanced(c, TwoDummies(c, ask, anchor).(bsk := Some(BskOf(TwoDummies(c, ask, anchor)))))
  {
    var st, o := TwoDummies(c, ask, anchor), Opening(0, 0);
    assert PcztSpendCvs(st.spends) == DeriveAll(c.bases, [o, o]);
    assert PcztOutputCvs(st.outputs) == DeriveAll(c.bases, []);
    assert TotalTo(Values([o, o]), 1) == TotalTo(Values([o, o]), 0) + 0 && TotalTo(Values([o, o]), 0) == 0;
    assert SpendRcvSum(st.spends, 1) == FrAdd(0, 0) && SpendRcvSum(st.spends, 2) == FrAdd(SpendRcvSum(st.spends, 1), 0);
    assert TrapdoorSumTo([o, o], 1) == FrAdd(0, 0) && TrapdoorSumTo([o, o], 2) == FrAdd(TrapdoorSumTo([o, o], 1), 0);
    BalanceIff(c.bases, [o, o], [], 0);
  }

  /** In every context two such dummies balance; the first cannot be signed, and the spend authorizing
  key of the second is still there when the finalizer has returned. */
  lemma DummyKeyRemains<P(!new)>(c: Context<P>, ask: Fr, anchor: int, sighash: seq<byte>, coin: nat)
    requires IsContext(c)
    ensures
      var (after, r) := FinalizeIo(c, TwoDummies(c, ask, anchor), sighash, coin);
      && r.Err? && r.error.DummySignature? && after.bsk.Some?
      && after.spends[0].dummyAsk.None? && after.spends[1].dummyAsk == Some(ask)
  {
    var st := TwoDummies(c, ask, anchor);
    TwoDummiesBalance(c, ask, anchor);
    assert FirstUncontrolled(c.schemes.spendAuth, st.spends, 0);
    DummyFailureIsPartial(c, st, sighash, coin, 0);
  }

  // Finalizing again changes nothing.
  lemma FinalizeIoIdempotent<P(!new)>(c: Context<P>, st: State<P>, s1: seq<byte>, c1: nat, s2: seq<byte>, c2: nat)
    requires IsContext(c) && FinalizeIo(c, st, s1, c1).1.Ok?
    ensures FinalizeIo(c, FinalizeIo(c, st, s1, c1).0, s2, c2) == (FinalizeIo(c, st, s1, c1).0, Ok(()))
  {
    var after := FinalizeIo(c, st, s1, c1).0;
    FinalizeIoIff(c, st, s1, c1);
    forall k: nat | k < |after.spends|
      ensures after.spends[k].dummyAsk.None? && after.spends[k].rcv == st.spends[k].rcv
    {
      assert DummySigned(c.schemes.spendAuth, st.spends[k], after.spends[k], s1);
    }
    NoDummies(c.schemes.spendAuth, after.spends, s2, c2, |after.spends|);
    SameRcvSum(st.spends, after.spends, |st.spends|);
  }

  lemma {:induction false} NoDummies<P>(sc: Scheme<P>, spends: seq<Spend<P>>, sighash: seq<byte>, coin: nat, n: nat)
    requires n <= |spends| && forall k: nat | k < |spends| :: spends[k].dummyAsk.None?
    ensures SignDummies(sc, spends, sighash, coin, n) == (spends, Ok(()))
  {
    if n > 0 {
      NoDummies(sc, spends, sighash, coin, n - 1);
      assert spends[n - 1 := spends[n - 1]] == spends;
    }
  }

  lemma {:induction false} SameRcvSum<P>(s: seq<Spend<P>>, t: seq<Spend<P>>, n: nat)
    requires n <= |s| == |t| && forall k: nat | k < |s| :: s[k].rcv.Some? && t[k].rcv == s[k].rcv
    ensures SpendRcvSum(s, n) == SpendRcvSum(t, n)
  {
    if n > 0 { SameRcvSum(s, t, n - 1); }
  }

  // --- prover ---

  function SpendProofWitness<P>(c: Context<P>, d: Spend<P>, anchor: int): Result<SpendWitness<P>, ProverError> {
    if d.proofGenerationKey.None? then Err(MissingProofGenerationKey)
    else if d.recipient.None? then Err(MissingRecipient)
    else if d.value.None? then Err(MissingValue)
    else if d.rseed.None? then Err(MissingRandomSeed)
    else if d.alpha.None? then Err(ProverError.MissingSpendAuthRandomizer)
    else if d.rcv.None? then Err(ProverError.MissingValueCommitTrapdoor)
    else if d.merklePath.None? then Err(MissingWitness)
    else
      var note := Note(d.recipient.value.gd, d.recipient.value.pkd, d.value.value, d.rseed.value);
      if !c.prepares(d.proofGenerationKey.value, note) then Err(InvalidDiversifier)
      else Ok(SpendWitness(d.proofGenerationKey.value, note, d.alpha.value, d.rcv.value, anchor, d.merklePath.value))
  }

  function OutputProofWitness<P>(o: Output<P>): Result<OutputWitness, ProverError> {
    if o.recipient.None? then Err(MissingRecipient)
    else if o.value.None? then Err(MissingValue)
    else if o.rseed.None? then Err(MissingRandomSeed)
    else if o.rcv.None? then Err(ProverError.MissingValueCommitTrapdoor)
    else Ok(OutputWitness(Note(o.recipient.value.gd, o.recipient.value.pkd, o.value.value, o.rseed.value), o.rcv.value))
  }

  // Every field a spend proof needs is set, and the prover accepts the key and the note.
  predicate SpendReady<P>(c: Context<P>, d: Spend<P>) {
    && d.proofGenerationKey.Some? && d.recipient.Some? && d.value.Some? && d.rseed.Some?
    && d.alpha.Some? && d.rcv.Some? && d.merklePath.Some?
    && c.prepares(d.proofGenerationKey.value, Note(d.recipient.value.gd, d.recipient.value.pkd, d.value.value, d.rseed.value))
  }

  predicate OutputReady<P>(o: Output<P>) {
    o.recipient.Some? && o.value.Some? && o.rseed.Some? && o.rcv.Some?
  }

  // The witness made of the fields themselves.
  function SpendWitnessOf<P>(c: Context<P>, d: Spend<P>, anchor: int): SpendWitness<P>
    requires SpendReady(c, d)
  {
    SpendWitness(d.proofGenerationKey.value, Note(d.recipient.value.gd, d.recipient.value.pkd, d.value.value, d.rseed.value),
                 d.alpha.value, d.rcv.value, anchor, d.merklePath.value)
  }

  function OutputWitnessOf<P>(o: Output<P>): OutputWitness
    requires OutputReady(o)
  {
    OutputWitness(Note(o.recipient.value.gd, o.recipient.value.pkd, o.value.value, o.rseed.value), o.rcv.value)
  }

  // The first n spends proven in turn, up to the first that cannot be.
  function ProveSpends<P>(c: Context<P>, spends: seq<Spend<P>>, anchor: int, prove: (SpendWitness<P>, nat) -> ProofBytes, coin: nat, n: nat)
    : (r: (seq<Spend<P>>, Result<(), ProverError>))
    requires n <= |spends|
    ensures |r.0| == |spends|
  {
    if n == 0 then (spends, Ok(()))
    else
      var before := ProveSpends(c, spends, anchor, prove, coin, n - 1);
      if before.1.Err? then before
      else match SpendProofWitness(c, spends[n - 1], anchor)
           case Err(e) => (before.0, Err(e))
           case Ok(w) => (before.0[n - 1 := before.0[n - 1].(zkproof := Some(prove(w, coin + n - 1)))], Ok(()))
  }

  function ProveOutputs<P>(outputs: seq<Output<P>>, prove: (OutputWitness, nat) -> ProofBytes, coin: nat, n: nat)
    : (r: (seq<Output<P>>, Result<(), ProverError>))
    requires n <= |outputs|
    ensures |r.0| == |outputs|
  {
    if n == 0 then (outputs, Ok(()))
    else
      var before := ProveOutputs(outputs, prove, coin, n - 1);
      if before.1.Err? then before
      else match OutputProofWitness(outputs[n - 1])
           case Err(e) => (before.0, Err(e))
           case Ok(w) => (before.0[n - 1 := before.0[n - 1].(zkproof := Some(prove(w, coin + n - 1)))], Ok(()))
  }

  function CreateProofs<P>(c: Context<P>, st: State<P>, proveSpend: (SpendWitness<P>, nat) -> ProofBytes,
                           proveOutput: (OutputWitness, nat) -> ProofBytes, coin: nat): (State<P>, Result<(), ProverError>) {
    var spends := ProveSpends(c, st.spends, st.anchor, proveSpend, coin, |st.spends|);
    if spends.1.Err? then (st.(spends := spends.0), spends.1)
    else
      var outputs := ProveOutputs(st.outputs, proveOutput, coin + |st.spends|, |st.outputs|);
      (st.(spends := spends.0, outputs := outputs.0), outputs.1)
  }

  // Proving touches nothing but proofs.
  lemma {:induction false} ProveSpendsKeeps<P>(c: Context<P>, spends: seq<Spend<P>>, anchor: int,
                                               prove: (SpendWitness<P>, nat) -> ProofBytes, coin: nat, n: nat, k: nat)
    requires n <= |spends| && k < |spends|
    ensures ProveSpends(c, spends, anchor, prove, coin, n).0[k]
            == spends[k].(zkproof := ProveSpends(c, spends, anchor, prove, coin, n).0[k].zkproof)
    ensures n <= k ==> ProveSpends(c, spends, anchor, prove, coin, n).0[k] == spends[k]
  {
    if n > 0 { ProveSpendsKeeps(c, spends, anchor, prove, coin, n - 1, k); }
  }

  lemma {:induction false} ProveSpendsIff<P>(c: Context<P>, spends: seq<Spend<P>>, anchor: int,
                                             prove: (SpendWitness<P>, nat) -> ProofBytes, coin: nat, n: nat)
    requires n <= |spends|
    ensures ProveSpends(c, spends, anchor, prove, coin, n).1.Ok? <==> forall k: nat | k < n :: SpendReady(c, spends[k])
    ensures ProveSpends(c, spends, anchor, prove, coin, n).1.Ok? ==>
              forall k: nat | k < n :: ProveSpends(c, spends, anchor, prove, coin, n).0[k].zkproof
                                       == Some(prove(SpendWitnessOf(c, spends[k], anchor), coin + k))
  {
    if n > 0 { ProveSpendsIff(c, spends, anchor, prove, coin, n - 1); }
  }

  lemma {:induction false} ProveOutputsKeeps<P>(outputs: seq<Output<P>>, prove: (OutputWitness, nat) -> ProofBytes, coin: nat, n: nat, k: nat)
    requires n <= |outputs| && k < |outputs|
    ensures ProveOutputs(outputs, prove, coin, n).0[k] == outputs[k].(zkproof := ProveOutputs(outputs, prove, coin, n).0[k].zkproof)
    ensures n <= k ==> ProveOutputs(outputs, prove, coin, n).0[k] == outputs[k]
  {
    if n > 0 { ProveOutputsKeeps(outputs, prove, coin, n - 1, k); }
  }

  lemma {:induction false} ProveOutputsIff<P>(outputs: seq<Output<P>>, prove: (OutputWitness, nat) -> ProofBytes, coin: nat, n: nat)
    requires n <= |outputs|
    ensures ProveOutputs(outputs, prove, coin, n).1.Ok? <==> forall k: nat | k < n :: OutputReady(outputs[k])
    ensures ProveOutputs(outputs, prove, coin, n).1.Ok? ==>
              forall k: nat | k < n :: ProveOutputs(outputs, prove, coin, n).0[k].zkproof
                                       == Some(prove(OutputWitnessOf(outputs[k]), coin + k))
  {
    if n > 0 { ProveOutputsIff(outputs, prove, coin, n - 1); }
  }

  lemma ProvenSpends<P>(c: Context<P>, spends: seq<Spend<P>>, anchor: int, prove: (SpendWitness<P>, nat) -> ProofBytes, coin: nat)
    ensures ProveSpends(c, spends, anchor, prove, coin, |spends|).1.Ok? <==> forall k: nat | k < |spends| :: SpendReady(c, spends[k])
    ensures ProveSpends(c, spends, anchor, prove, coin, |spends|).1.Ok? ==>
              forall k: nat | k < |spends| :: ProveSpends(c, spends, anchor, prove, coin, |spends|).0[k]
                                              == spends[k].(zkproof := Some(prove(SpendWitnessOf(c, spends[k], anchor), coin + k)))
  {
    ProveSpendsIff(c, spends, anchor, prove, coin, |spends|);
    forall k: nat | k < |spends| {
      ProveSpendsKeeps(c, spends, anchor, prove, coin, |spends|, k);
    }
  }

  lemma ProvenOutputs<P>(outputs: seq<Output<P>>, prove: (OutputWitness, nat) -> ProofBytes, coin: nat)
    ensures ProveOutputs(outputs, prove, coin, |outputs|).1.Ok? <==> forall k: nat | k < |outputs| :: OutputReady(outputs[k])
    ensures ProveOutputs(outputs, prove, coin, |outputs|).1.Ok? ==>
              forall k: nat | k < |outputs| :: ProveOutputs(outputs, prove, coin, |outputs|).0[k]
                                               == outputs[k].(zkproof := Some(prove(OutputWitnessOf(outputs[k]), coin + k)))
  {
    ProveOutputsIff(outputs, prove, coin, |outputs|);
    forall k: nat | k < |outputs| {
      ProveOutputsKeeps(outputs, prove, coin, |outputs|, k);
    }
  }

  // The fields a proof needs, in the order in which they are asked for, with the error for each.
  function SpendFields<P>(d: Spend<P>): seq<(bool, ProverError)> {
    [(d.proofGenerationKey.Some?, MissingProofGenerationKey), (d.recipient.Some?, MissingRecipient), (d.value.Some?, MissingValue),
     (d.rseed.Some?, MissingRandomSeed), (d.alpha.Some?, ProverError.MissingSpendAuthRandomizer),
     (d.rcv.Some?, ProverError.MissingValueCommitTrapdoor), (d.merklePath.Some?, MissingWitness)]
  }

  function OutputFields<P>(o: Output<P>): seq<(bool, ProverError)> {
    [(o.recipient.Some?, MissingRecipient), (o.value.Some?, MissingValue), (o.rseed.Some?, MissingRandomSeed),
     (o.rcv.Some?, ProverError.MissingValueCommitTrapdoor)]
  }

  predicate FirstUnset(fields: seq<(bool, ProverError)>, j: nat, e: ProverError) {
    j < |fields| && !fields[j].0 && fields[j].1 == e && forall i: nat | i < j :: fields[i].0
  }

  // The error for the first field that is not set, or for a diversifier that the prover refuses.
  ghost predicate SpendRefused<P>(d: Spend<P>, e: ProverError) {
    (exists j: nat :: FirstUnset(SpendFields(d), j, e)) || ((forall i: nat | i < 7 :: SpendFields(d)[i].0) && e == InvalidDiversifier)
  }

  ghost predicate OutputRefused<P>(o: Output<P>, e: ProverError) {
    exists j: nat :: FirstUnset(OutputFields(o), j, e)
  }

  lemma SpendWitnessError<P>(c: Context<P>, d: Spend<P>, anchor: int)
    requires !SpendReady(c, d)
    ensures SpendProofWitness(c, d, anchor).Err? && SpendRefused(d, SpendProofWitness(c, d, anchor).error)
  {
    var e, f := SpendProofWitness(c, d, anchor).error, SpendFields(d);
    if i: nat :| i < 7 && FirstUnset(f, i, e) {
    } else {
      assert !FirstUnset(f, 0, e) && !FirstUnset(f, 1, e) && !FirstUnset(f, 2, e) && !FirstUnset(f, 3, e);
      assert !FirstUnset(f, 4, e) && !FirstUnset(f, 5, e) && !FirstUnset(f, 6, e);
    }
  }

  lemma OutputWitnessError<P>(o: Output<P>)
    requires !OutputReady(o)
    ensures OutputProofWitness(o).Err? && OutputRefused(o, OutputProofWitness(o).error)
  {
    var e, f := OutputProofWitness(o).error, OutputFields(o);
    assert FirstUnset(f, 0, e) || FirstUnset(f, 1, e) || FirstUnset(f, 2, e) || FirstUnset(f, 3, e);
  }

  // The loop over the spends stops at the first that cannot be proven, and keeps the proofs before it.
  lemma {:induction false} ProveSpendsStops<P>(c: Context<P>, spends: seq<Spend<P>>, anchor: int,
                                               prove: (SpendWitness<P>, nat) -> ProofBytes, coin: nat, n: nat, j: nat)
    requires j < n <= |spends| && !SpendReady(c, spends[j]) && forall k: nat | k < j :: SpendReady(c, spends[k])
    ensures
      var r := ProveSpends(c, spends, anchor, prove, coin, n);
      && r.1.Err? && SpendRefused(spends[j], r.1.error)
      && (forall k: nat | k < j :: r.0[k] == spends[k].(zkproof := Some(prove(SpendWitnessOf(c, spends[k], anchor), coin + k))))
      && (forall k: nat | j <= k < |spends| :: r.0[k] == spends[k])
  {
    if n > j + 1 {
      ProveSpendsStops(c, spends, anchor, prove, coin, n - 1, j);
    } else {
      SpendWitnessError(c, spends[j], anchor);
      ProveSpendsIff(c, spends, anchor, prove, coin, j);
      forall k: nat | k < |spends| {
        ProveSpendsKeeps(c, spends, anchor, prove, coin, j, k);
      }
    }
  }

  lemma {:induction false} ProveOutputsStops<P>(outputs: seq<Output<P>>, prove: (OutputWitness, nat) -> ProofBytes, coin: nat, n: nat, j: nat)
    requires j < n <= |outputs| && !OutputReady(outputs[j]) && forall k: nat | k < j :: OutputReady(outputs[k])
    ensures
      var r := ProveOutputs(outputs, prove, coin, n);
      && r.1.Err? && OutputRefused(outputs[j], r.1.error)
      && (forall k: nat | k < j :: r.0[k] == outputs[k].(zkproof := Some(prove(OutputWitnessOf(outputs[k]), coin + k))))
      && (forall k: nat | j <= k < |outputs| :: r.0[k] == outputs[k])
  {
    if n > j + 1 {
      ProveOutputsStops(outputs, prove, coin, n - 1, j);
    } else {
      OutputWitnessError(outputs[j]);
      ProveOutputsIff(outputs, prove, coin, j);
      forall k: nat | k < |outputs| {
        ProveOutputsKeeps(outputs, prove, coin, j, k);
      }
    }
  }

  /** Proving succeeds exactly when every spend and output has its private fields and a valid
  diversifier; every proof is then one of its own witness, against the one anchor of the bundle. */
  lemma CreateProofsIff<P>(c: Context<P>, st: State<P>, proveSpend: (SpendWitness<P>, nat) -> ProofBytes,
                           proveOutput: (OutputWitness, nat) -> ProofBytes, coin: nat)
    ensures CreateProofs(c, st, proveSpend, proveOutput, coin).1.Ok? <==>
              && (forall k: nat | k < |st.spends| :: SpendReady(c, st.spends[k]))
              && (forall k: nat | k < |st.outputs| :: OutputReady(st.outputs[k]))
    ensures CreateProofs(c, st, proveSpend, proveOutput, coin).1.Ok? ==>
              var after := CreateProofs(c, st, proveSpend, proveOutput, coin).0;
              && after == st.(spends := after.spends, outputs := after.outputs)
              && |after.spends| == |st.spends| && |after.outputs| == |st.outputs|
              && (forall k: nat | k < |st.spends| ::
                    after.spends[k] == st.spends[k].(zkproof := Some(proveSpend(SpendWitnessOf(c, st.spends[k], st.anchor), coin + k))))
              && (forall k: nat | k < |st.outputs| ::
                    after.outputs[k] == st.outputs[k].(zkproof := Some(proveOutput(OutputWitnessOf(st.outputs[k]), coin + |st.spends| + k))))
  {
    ProvenSpends(c, st.spends, st.anchor, proveSpend, coin);
    ProvenOutputs(st.outputs, proveOutput, coin + |st.spends|);
  }

  // --- extractor ---

  datatype Unbound = Unbound(bsk: Fr)

  function ExtractSpend<P, S, A>(st: State<P>, d: Spend<P>, proof: Spend<P> -> Result<S, TxExtractorError>,
                                 auth: Spend<P> -> Result<A, TxExtractorError>): Result<SpendDescription<P, S, A>, TxExtractorError> {
    match proof(d)
    case Err(e) => Err(e)
    case Ok(zkproof) =>
      match auth(d)
      case Err(e) => Err(e)
      case Ok(sig) => Ok(SpendDescription(d.cv, st.anchor, d.nullifier, d.rk, zkproof, sig))
  }

  function ExtractSpends<P, S, A>(st: State<P>, proof: Spend<P> -> Result<S, TxExtractorError>,
                                  auth: Spend<P> -> Result<A, TxExtractorError>, n: nat)
    : (r: Result<seq<SpendDescription<P, S, A>>, TxExtractorError>)
    requires n <= |st.spends|
    ensures r.Ok? ==> |r.value| == n
  {
    if n == 0 then Ok([])
    else match ExtractSpends(st, proof, auth, n - 1)
         case Err(e) => Err(e)
         case Ok(before) =>
           match ExtractSpend(st, st.spends[n - 1], proof, auth)
           case Err(e) => Err(e)
           case Ok(d) => Ok(before + [d])
  }

  function ExtractOutputs<P, O>(outputs: seq<Output<P>>, proof: Output<P> -> Result<O, TxExtractorError>, n: nat)
    : (r: Result<seq<OutputDescription<P, O>>, TxExtractorError>)
    requires n <= |outputs|
    ensures r.Ok? ==> |r.value| == n
  {
    if n == 0 then Ok([])
    else match ExtractOutputs(outputs, proof, n - 1)
         case Err(e) => Err(e)
         case Ok(before) =>
           var o := outputs[n - 1];
           match proof(o)
           case Err(e) => Err(e)
           case Ok(zkproof) => Ok(before + [OutputDescription(o.cv, o.cmu, o.ephemeralKey, o.encCiphertext, o.outCiphertext, zkproof)])
  }

  // Spends, outputs, balance, authorization, in this order; the first failure is the result.
  function ToTxData<P, S, O, A, Au>(st: State<P>, spendProof: Spend<P> -> Result<S, TxExtractorError>,
                                    spendAuth: Spend<P> -> Result<A, TxExtractorError>,
                                    outputProof: Output<P> -> Result<O, TxExtractorError>,
                                    bundleAuth: State<P> -> Result<Au, TxExtractorError>, accepts: I64 -> bool)
    : Result<Option<Bundle<P, S, O, A, Au>>, TxExtractorError> {
    match ExtractSpends(st, spendProof, spendAuth, |st.spends|)
    case Err(e) => Err(e)
    case Ok(spends) =>
      match ExtractOutputs(st.outputs, outputProof, |st.outputs|)
      case Err(e) => Err(e)
      case Ok(outputs) =>
        match st.valueSum.TryIntoI64()
        case None => Err(ValueSumOutOfRange)
        case Some(valueBalance) =>
          if !accepts(valueBalance) then Err(ValueSumOutOfRange)
          else match bundleAuth(st)
               case Err(e) => Err(e)
               case Ok(authorization) => Ok(FromParts(spends, outputs, valueBalance, authorization))
  }

  function SpendProofSet<P>(d: Spend<P>): Result<ProofBytes, TxExtractorError> {
    match d.zkproof case None => Err(MissingProof) case Some(p) => Ok(p)
  }

  function SpendAuthSet<P>(d: Spend<P>): Result<Signature, TxExtractorError> {
    match d.spendAuthSig case None => Err(MissingSpendAuthSig) case Some(sig) => Ok(sig)
  }

  function OutputProofSet<P>(o: Output<P>): Result<ProofBytes, TxExtractorError> {
    match o.zkproof case None => Err(MissingProof) case Some(p) => Ok(p)
  }

  function BskSet<P>(st: State<P>): Result<Unbound, TxExtractorError> {
    match st.bsk case None => Err(MissingBindingSignatureSigningKey) case Some(bsk) => Ok(Unbound(bsk))
  }

  type UnboundBundle<P> = Bundle<P, ProofBytes, ProofBytes, Signature, Unbound>

  function Extract<P>(st: State<P>, accepts: I64 -> bool): Result<Option<UnboundBundle<P>>, TxExtractorError> {
    ToTxData(st, SpendProofSet, SpendAuthSet, OutputProofSet, BskSet, accepts)
  }

  function Unit<T>(x: T): Result<(), TxExtractorError> {
    Ok(())
  }

  function ExtractEffects<P>(st: State<P>, accepts: I64 -> bool): Result<Option<Bundle<P, (), (), (), ()>>, TxExtractorError> {
    ToTxData(st, Unit, Unit, Unit, Unit, accepts)
  }

  lemma {:induction false} ExtractSpendsIff<P, S, A>(st: State<P>, proof: Spend<P> -> Result<S, TxExtractorError>,
                                                     auth: Spend<P> -> Result<A, TxExtractorError>, n: nat)
    requires n <= |st.spends|
    ensures ExtractSpends(st, proof, auth, n).Ok? <==> forall k: nat | k < n :: proof(st.spends[k]).Ok? && auth(st.spends[k]).Ok?
    ensures ExtractSpends(st, proof, auth, n).Ok? ==>
              forall k: nat | k < n :: Ok(ExtractSpends(st, proof, auth, n).value[k]) == ExtractSpend(st, st.spends[k], proof, auth)
  {
    if n > 0 { ExtractSpendsIff(st, proof, auth, n - 1); }
  }

  lemma {:induction false} ExtractOutputsIff<P, O>(outputs: seq<Output<P>>, proof: Output<P> -> Result<O, TxExtractorError>, n: nat)
    requires n <= |outputs|
    ensures ExtractOutputs(outputs, proof, n).Ok? <==> forall k: nat | k < n :: proof(outputs[k]).Ok?
    ensures ExtractOutputs(outputs, proof, n).Ok? ==>
              forall k: nat | k < n ::
                && Ok(ExtractOutputs(outputs, proof, n).value[k].zkproof) == proof(outputs[k])
                && ExtractOutputs(outputs, proof, n).value[k].Effects()
                   == OutputDescription(outputs[k].cv, outputs[k].cmu, outputs[k].ephemeralKey, outputs[k].encCiphertext,
                                        outputs[k].outCiphertext, ())
  {
    if n > 0 { ExtractOutputsIff(outputs, proof, n - 1); }
  }

  ghost predicate Complete<P>(st: State<P>, accepts: I64 -> bool) {
    && (forall k: nat | k < |st.spends| :: st.spends[k].zkproof.Some? && st.spends[k].spendAuthSig.Some?)
    && (forall k: nat | k < |st.outputs| :: st.outputs[k].zkproof.Some?)
    && st.valueSum.TryIntoI64().Some? && accepts(st.valueSum.TryIntoI64().value)
    && st.bsk.Some?
  }

  // Field by field, the bundle is the state.
  ghost predicate IsExtracted<P>(st: State<P>, b: UnboundBundle<P>) {
    && |b.spends| == |st.spends| && |b.outputs| == |st.outputs|
    && Some(b.valueBalance) == st.valueSum.TryIntoI64() && Some(b.authorization.bsk) == st.bsk
    && (forall k: nat | k < |st.spends| ::
          var d, p := b.spends[k], st.spends[k];
          && d.cv == p.cv && d.anchor == st.anchor && d.nullifier == p.nullifier && d.rk == p.rk
          && Some(d.zkproof) == p.zkproof && Some(d.spendAuthSig) == p.spendAuthSig)
    && (forall k: nat | k < |st.outputs| ::
          var o, p := b.outputs[k], st.outputs[k];
          && o.cv == p.cv && o.cmu == p.cmu && o.ephemeralKey == p.ephemeralKey
          && o.encCiphertext == p.encCiphertext && o.outCiphertext == p.outCiphertext && Some(o.zkproof) == p.zkproof)
  }

  lemma ExtractedFields<P>(st: State<P>, accepts: I64 -> bool)
    requires Extract(st, accepts).Ok? && Extract(st, accepts).value.Some?
    ensures IsExtracted(st, Extract(st, accepts).value.value)
  {
    var b := Extract(st, accepts).value.value;
    ExtractSpendsIff(st, SpendProofSet<P>, SpendAuthSet<P>, |st.spends|);
    ExtractOutputsIff(st.outputs, OutputProofSet<P>, |st.outputs|);
    forall k: nat | k < |st.spends|
      ensures b.spends[k] == SpendDescription(st.spends[k].cv, st.anchor, st.spends[k].nullifier, st.spends[k].rk,
                                              b.spends[k].zkproof, b.spends[k].spendAuthSig)
      ensures Some(b.spends[k].zkproof) == st.spends[k].zkproof && Some(b.spends[k].spendAuthSig) == st.spends[k].spendAuthSig
    {
      assert Ok(b.spends[k]) == ExtractSpend(st, st.spends[k], SpendProofSet<P>, SpendAuthSet<P>);
    }
    forall k: nat | k < |st.outputs|
      ensures b.outputs[k].Effects() == OutputDescription(st.outputs[k].cv, st.outputs[k].cmu, st.outputs[k].ephemeralKey,
                                                          st.outputs[k].encCiphertext, st.outputs[k].outCiphertext, ())
      ensures Some(b.outputs[k].zkproof) == st.outputs[k].zkproof
    {
      assert Ok(b.outputs[k].zkproof) == OutputProofSet(st.outputs[k]);
    }
  }

  ghost predicate SpendComplete<P>(d: Spend<P>) {
    d.zkproof.Some? && d.spendAuthSig.Some?
  }

  lemma {:induction false} ExtractSpendsError<P>(st: State<P>, n: nat, j: nat)
    requires j < n <= |st.spends| && !SpendComplete(st.spends[j]) && forall k: nat | k < j :: SpendComplete(st.spends[k])
    ensures ExtractSpends(st, SpendProofSet<P>, SpendAuthSet<P>, n)
            == Err(if st.spends[j].zkproof.None? then MissingProof else MissingSpendAuthSig)
  {
    if n > j + 1 {
      ExtractSpendsError(st, n - 1, j);
    } else {
      ExtractSpendsIff(st, SpendProofSet<P>, SpendAuthSet<P>, j);
    }
  }

  lemma {:induction false} ExtractOutputsError<P>(outputs: seq<Output<P>>, n: nat)
    requires n <= |outputs| && ExtractOutputs(outputs, OutputProofSet<P>, n).Err?
    ensures ExtractOutputs(outputs, OutputProofSet<P>, n) == Err(MissingProof)
  {
    if ExtractOutputs(outputs, OutputProofSet<P>, n - 1).Err? { ExtractOutputsError(outputs, n - 1); }
  }

  /** The first incomplete spend decides the error; after the spends come the outputs, the value sum and
  the binding key. */
  lemma ExtractErrors<P>(st: State<P>, accepts: I64 -> bool)
    ensures forall j: nat | j < |st.spends| && !SpendComplete(st.spends[j]) && (forall k: nat | k < j :: SpendComplete(st.spends[k])) ::
              Extract(st, accepts) == Err(if st.spends[j].zkproof.None? then MissingProof else MissingSpendAuthSig)
    ensures (forall k: nat | k < |st.spends| :: SpendComplete(st.spends[k])) ==>
              && (!(forall k: nat | k < |st.outputs| :: st.outputs[k].zkproof.Some?) ==> Extract(st, accepts) == Err(MissingProof))
              && ((forall k: nat | k < |st.outputs| :: st.outputs[k].zkproof.Some?) ==>
                    if !(st.valueSum.TryIntoI64().Some? && accepts(st.valueSum.TryIntoI64().value)) then Extract(st, accepts) == Err(ValueSumOutOfRange)
                    else st.bsk.None? ==> Extract(st, accepts) == Err(MissingBindingSignatureSigningKey))
  {
    forall j: nat | j < |st.spends| && !SpendComplete(st.spends[j]) && (forall k: nat | k < j :: SpendComplete(st.spends[k]))
      ensures Extract(st, accepts) == Err(if st.spends[j].zkproof.None? then MissingProof else MissingSpendAuthSig)
    {
      ExtractSpendsError(st, |st.spends|, j);
    }
    ExtractSpendsIff(st, SpendProofSet<P>, SpendAuthSet<P>, |st.spends|);
    ExtractOutputsIff(st.outputs, OutputProofSet<P>, |st.outputs|);
    if ExtractOutputs(st.outputs, OutputProofSet<P>, |st.outputs|).Err? { ExtractOutputsError(st.outputs, |st.outputs|); }
  }

  /** Extraction succeeds exactly for a complete state, gives no bundle exactly for an empty one, and
  the bundle has the effects that the signers were shown. */
  lemma ExtractIff<P>(st: State<P>, accepts: I64 -> bool)
    ensures Extract(st, accepts).Ok? <==> Complete(st, accepts)
    ensures Extract(st, accepts).Ok? ==> (Extract(st, accepts).value.None? <==> st.spends == [] && st.outputs == [])
    ensures Extract(st, accepts).Ok? && Extract(st, accepts).value.Some? ==>
              var b := Extract(st, accepts).value.value;
              && ExtractEffects(st, accepts) == Ok(Some(b.Effects()))
              && IsExtracted(st, b)
  {
    ExtractSpendsIff(st, SpendProofSet<P>, SpendAuthSet<P>, |st.spends|);
    ExtractOutputsIff(st.outputs, OutputProofSet<P>, |st.outputs|);
    if Extract(st, accepts).Ok? && Extract(st, accepts).value.Some? {
      ExtractedEffects(st, accepts);
      ExtractedFields(st, accepts);
    }
  }

  lemma ExtractedEffects<P>(st: State<P>, accepts: I64 -> bool)
    requires Extract(st, accepts).Ok? && Extract(st, accepts).value.Some?
    ensures ExtractEffects(st, accepts) == Ok(Some(Extract(st, accepts).value.value.Effects()))
  {
    ExtractSpendsIff(st, SpendProofSet<P>, SpendAuthSet<P>, |st.spends|);
    ExtractOutputsIff(st.outputs, OutputProofSet<P>, |st.outputs|);
    ExtractSpendsIff(st, Unit<Spend<P>>, Unit<Spend<P>>, |st.spends|);
    ExtractOutputsIff(st.outputs, Unit<Output<P>>, |st.outputs|);
    var b, e := Extract(st, accepts).value.value, ExtractEffects(st, accepts).value.value;
    forall k: nat | k < |st.spends| ensures e.spends[k] == b.spends[k].Effects() {
      assert Ok(b.spends[k]) == ExtractSpend(st, st.spends[k], SpendProofSet<P>, SpendAuthSet<P>);
      assert Ok(e.spends[k]) == ExtractSpend(st, st.spends[k], Unit<Spend<P>>, Unit<Spend<P>>);
    }
    forall k: nat | k < |st.outputs| ensures e.outputs[k] == b.outputs[k].Effects() {
      assert e.outputs[k].Effects() == b.outputs[k].Effects();
    }
    assert e == b.Effects();
  }

  // --- binding ---

  function KeepProof<T>(context: nat, x: T): (T, nat) {
    (x, context)
  }

  function BindOne<P>(sc: Scheme<P>, sighash: seq<byte>, coin: nat, a: Unbound): (Signing.Authorized, nat) {
    (Signing.Authorized(sc.sign(a.bsk, sighash, coin)), coin + 1)
  }

  function Bind<P>(sc: Scheme<P>, sighash: seq<byte>): (nat, Unbound) -> (Signing.Authorized, nat) {
    (coin: nat, a: Unbound) => BindOne(sc, sighash, coin, a)
  }

  function ApplyBindingSignature<P>(schemes: Signing.Schemes<P>, b: UnboundBundle<P>, sighash: seq<byte>, coin: nat): Option<Checked<P>> {
    if forall k: nat | k < |b.spends| :: schemes.spendAuth.verify(b.spends[k].rk, sighash, b.spends[k].spendAuthSig) then
      Some(MapAuthorization(b, coin, KeepProof, KeepProof, KeepProof, Bind(schemes.binding, sighash)).0)
    else None
  }

  lemma {:induction false} KeptCoin<P, S, A>(spends: seq<SpendDescription<P, S, A>>, coin: nat, n: nat)
    requires n <= |spends|
    ensures MapSpends(spends, coin, KeepProof<S>, KeepProof<A>, n) == (spends[..n], coin)
  {
    if n > 0 {
      KeptCoin(spends, coin, n - 1);
      assert spends[..n] == spends[..n - 1] + [spends[n - 1]];
    }
  }

  lemma {:induction false} KeptOutputs<P, O>(outputs: seq<OutputDescription<P, O>>, coin: nat, n: nat)
    requires n <= |outputs|
    ensures MapOutputs(outputs, coin, KeepProof<O>, n) == (outputs[..n], coin)
  {
    if n > 0 {
      KeptOutputs(outputs, coin, n - 1);
      assert outputs[..n] == outputs[..n - 1] + [outputs[n - 1]];
    }
  }

  /** The binding signature is applied exactly when every spend signature verifies for the sighash,
  and then the bundle is the extracted one with a binding signature that verifies under bsk. */
  lemma ApplyBindingIff<P(!new)>(schemes: Signing.Schemes<P>, b: UnboundBundle<P>, sighash: seq<byte>, coin: nat)
    requires Signing.AreSchemes(schemes)
    ensures ApplyBindingSignature(schemes, b, sighash, coin).Some?
            <==> forall k: nat | k < |b.spends| :: schemes.spendAuth.verify(b.spends[k].rk, sighash, b.spends[k].spendAuthSig)
    ensures ApplyBindingSignature(schemes, b, sighash, coin).Some? ==>
              var r := ApplyBindingSignature(schemes, b, sighash, coin).value;
              && r.spends == b.spends && r.outputs == b.outputs && r.valueBalance == b.valueBalance
              && Signing.AllVerify(schemes, r, schemes.binding.PublicKey(b.authorization.bsk), sighash)
  {
    KeptCoin(b.spends, coin, |b.spends|);
    KeptOutputs(b.outputs, coin, |b.outputs|);
    assert schemes.binding.SignatureVerifiesAt(b.authorization.bsk, sighash, coin);
  }

  // --- the roles after the IO finalizer, in any order ---

  datatype Role<!P> = SignSpend(index: nat, ask: Fr, sighash: seq<byte>, coin: nat)
                    | ApplyTo(index: nat, sig: Signature, sighash: seq<byte>)
                    | Prove(proveSpend: (SpendWitness<P>, nat) -> ProofBytes, proveOutput: (OutputWitness, nat) -> ProofBytes, coin: nat)

  // The state after a role acted, whether it succeeded or not.
  function Act<P(==)>(c: Context<P>, st: State<P>, role: Role<P>): State<P> {
    match role
    case SignSpend(k, ask, sighash, coin) =>
      if k < |st.spends| then st.(spends := st.spends[k := Sign(c.schemes.spendAuth, st.spends[k], sighash, ask, coin).0]) else st
    case ApplyTo(k, sig, sighash) =>
      if k < |st.spends| then st.(spends := st.spends[k := ApplySignature(c.schemes.spendAuth, st.spends[k], sighash, sig).0]) else st
    case Prove(proveSpend, proveOutput, coin) => CreateProofs(c, st, proveSpend, proveOutput, coin).0
  }

  function ActAll<P(==)>(c: Context<P>, st: State<P>, roles: seq<Role<P>>): State<P>
    decreases |roles|
  {
    if roles == [] then st else ActAll(c, Act(c, st, roles[0]), roles[1..])
  }

  // Acting in two stages is acting in one.
  lemma {:induction false} ActAllConcat<P>(c: Context<P>, st: State<P>, first: seq<Role<P>>, second: seq<Role<P>>)
    ensures ActAll(c, st, first + second) == ActAll(c, ActAll(c, st, first), second)
    ensures first != [] && second == [] ==> ActAll(c, st, first) == Act(c, ActAll(c, st, first[..|first| - 1]), first[|first| - 1])
    decreases |first| + |second|
  {
    if first == [] {
      assert first + second == second;
    } else {
      assert (first + second)[1..] == first[1..] + second;
      ActAllConcat(c, Act(c, st, first[0]), first[1..], second);
      if |first| > 1 && second == [] {
        assert first[1..][..|first| - 2] == first[..|first| - 1][1..];
      }
    }
  }

  // Everything but proofs and signatures.
  function Core<P>(st: State<P>): State<P> {
    st.(spends := seq(|st.spends|, i requires 0 <= i < |st.spends| => st.spends[i].(zkproof := None, spendAuthSig := None)),
        outputs := seq(|st.outputs|, i requires 0 <= i < |st.outputs| => st.outputs[i].(zkproof := None)))
  }

  lemma ActKeepsCore<P(!new)>(c: Context<P>, st: State<P>, role: Role<P>)
    requires IsContext(c)
    ensures Core(Act(c, st, role)) == Core(st)
  {
    match role {
      case SignSpend(k, ask, sighash, coin) =>
        if k < |st.spends| {
          SignIff(c.schemes.spendAuth, st.spends[k], sighash, ask, coin);
          CoreOfUpdate(st, k, Sign(c.schemes.spendAuth, st.spends[k], sighash, ask, coin).0);
        }
      case ApplyTo(k, sig, sighash) =>
        if k < |st.spends| { CoreOfUpdate(st, k, ApplySignature(c.schemes.spendAuth, st.spends[k], sighash, sig).0); }
      case Prove(proveSpend, proveOutput, coin) => ProveKeepsCore(c, st, proveSpend, proveOutput, coin);
    }
  }

  lemma CoreOfUpdate<P>(st: State<P>, k: nat, d: Spend<P>)
    requires k < |st.spends| && d == st.spends[k].(spendAuthSig := d.spendAuthSig)
    ensures Core(st.(spends := st.spends[k := d])) == Core(st)
  {
    assert d.(zkproof := None, spendAuthSig := None) == st.spends[k].(zkproof := None, spendAuthSig := None);
  }

  lemma ProveKeepsCore<P>(c: Context<P>, st: State<P>, proveSpend: (SpendWitness<P>, nat) -> ProofBytes,
                          proveOutput: (OutputWitness, nat) -> ProofBytes, coin: nat)
    ensures Core(CreateProofs(c, st, proveSpend, proveOutput, coin).0) == Core(st)
  {
    forall k: nat | k < |st.spends| {
      ProveSpendsKeeps(c, st.spends, st.anchor, proveSpend, coin, |st.spends|, k);
    }
    forall k: nat | k < |st.outputs| {
      ProveOutputsKeeps(st.outputs, proveOutput, coin + |st.spends|, |st.outputs|, k);
    }
  }

  lemma {:induction false} ActAllKeepsCore<P(!new)>(c: Context<P>, st: State<P>, roles: seq<Role<P>>)
    requires IsContext(c)
    ensures Core(ActAll(c, st, roles)) == Core(st)
    decreases |roles|
  {
    if roles != [] {
      ActKeepsCore(c, st, roles[0]);
      ActAllKeepsCore(c, Act(c, st, roles[0]), roles[1..]);
    }
  }

  // The core decides the balance and the effects.
  lemma CoreDecides<P(!new)>(c: Context<P>, s1: State<P>, s2: State<P>, accepts: I64 -> bool)
    requires Core(s1) == Core(s2)
    ensures Balanced(c, s1) <==> Balanced(c, s2)
    ensures ExtractEffects(s1, accepts) == ExtractEffects(s2, accepts)
  {
    assert |s1.spends| == |Core(s1).spends| == |s2.spends| && |s1.outputs| == |Core(s1).outputs| == |s2.outputs|;
    forall k: nat | k < |s1.spends|
      ensures s1.spends[k].(zkproof := None, spendAuthSig := None) == s2.spends[k].(zkproof := None, spendAuthSig := None)
    {
      assert Core(s1).spends[k] == Core(s2).spends[k];
    }
    forall k: nat | k < |s1.outputs|
      ensures s1.outputs[k].(zkproof := None) == s2.outputs[k].(zkproof := None)
    {
      assert Core(s1).outputs[k] == Core(s2).outputs[k];
    }
    assert PcztSpendCvs(s1.spends) == PcztSpendCvs(s2.spends);
    assert PcztOutputCvs(s1.outputs) == PcztOutputCvs(s2.outputs);
    SameUnitSpends(s1, s2, |s1.spends|);
    SameUnitOutputs(s1.outputs, s2.outputs, |s1.outputs|);
  }

  lemma {:induction false} SameUnitSpends<P>(s1: State<P>, s2: State<P>, n: nat)
    requires n <= |s1.spends| && n <= |s2.spends| && s1.anchor == s2.anchor
    requires forall k: nat | k < n :: s1.spends[k].(zkproof := None, spendAuthSig := None) == s2.spends[k].(zkproof := None, spendAuthSig := None)
    ensures ExtractSpends(s1, Unit<Spend<P>>, Unit<Spend<P>>, n) == ExtractSpends(s2, Unit<Spend<P>>, Unit<Spend<P>>, n)
  {
    if n > 0 {
      SameUnitSpends(s1, s2, n - 1);
      var d1, d2 := s1.spends[n - 1], s2.spends[n - 1];
      assert d1.(zkproof := None, spendAuthSig := None).cv == d1.cv && d2.(zkproof := None, spendAuthSig := None).cv == d2.cv;
    }
  }

  lemma {:induction false} SameUnitOutputs<P>(o1: seq<Output<P>>, o2: seq<Output<P>>, n: nat)
    requires n <= |o1| && n <= |o2| && forall k: nat | k < n :: o1[k].(zkproof := None) == o2[k].(zkproof := None)
    ensures ExtractOutputs(o1, Unit<Output<P>>, n) == ExtractOutputs(o2, Unit<Output<P>>, n)
  {
    if n > 0 { SameUnitOutputs(o1, o2, n - 1); }
  }
}
