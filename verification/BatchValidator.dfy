/** Whole-bundle verification: directly, and by queueing proofs and signatures for a batch. */
module BatchValidation {
  import opened Bytes
  import opened Groups
  import opened ValueBalance
  import opened RedJubjub
  import opened Bundles
  import opened Verifier

  // --- what a valid bundle is ---

  ghost predicate SpendAccepted<P>(lib: Libraries<P>, d: SpendDescription<P, ProofBytes, Signature>, sighash: seq<byte>) {
    && lib.proofReads(d.zkproof)
    && !lib.isSmallOrder(d.rk)
    && lib.schemes.spendAuth.verify(d.rk, sighash, d.spendAuthSig)
    && lib.spendProof(d.zkproof, lib.SpendInput(d.rk, d.cv, d.anchor, d.nullifier))
  }

  ghost predicate OutputAccepted<P>(lib: Libraries<P>, o: OutputDescription<P, ProofBytes>) {
    match lib.epkFromBytes(o.ephemeralKey)
    case None => false
    case Some(epk) =>
      && lib.proofReads(o.zkproof)
      && !lib.isSmallOrder(epk)
      && lib.outputProof(o.zkproof, lib.OutputInput(o.cv, epk, o.cmu))
  }

  // The first n spends, or outputs, are acceptable.
  ghost predicate SpendsAccepted<P>(lib: Libraries<P>, b: Checked<P>, sighash: seq<byte>, n: nat)
    requires n <= |b.spends|
  {
    n > 0 ==> SpendsAccepted(lib, b, sighash, n - 1) && SpendAccepted(lib, b.spends[n - 1], sighash)
  }

  ghost predicate OutputsAccepted<P>(lib: Libraries<P>, b: Checked<P>, n: nat)
    requires n <= |b.outputs|
  {
    n > 0 ==> OutputsAccepted(lib, b, n - 1) && OutputAccepted(lib, b.outputs[n - 1])
  }

  lemma {:induction false} SpendAcceptedAt<P>(lib: Libraries<P>, b: Checked<P>, sighash: seq<byte>, n: nat)
    requires n <= |b.spends|
    ensures SpendsAccepted(lib, b, sighash, n) <==> forall k: nat | k < n :: SpendAccepted(lib, b.spends[k], sighash)
  {
    if n > 0 { SpendAcceptedAt(lib, b, sighash, n - 1); }
  }

  lemma {:induction false} OutputAcceptedAt<P>(lib: Libraries<P>, b: Checked<P>, n: nat)
    requires n <= |b.outputs|
    ensures OutputsAccepted(lib, b, n) <==> forall k: nat | k < n :: OutputAccepted(lib, b.outputs[k])
  {
    if n > 0 { OutputAcceptedAt(lib, b, n - 1); }
  }

  ghost function SpendItems<P>(b: Checked<P>, n: nat): (r: seq<Item<P>>)
    requires n <= |b.spends|
    ensures |r| == n
  {
    if n == 0 then [] else SpendItems(b, n - 1) + [Spent(b.spends[n - 1].cv)]
  }

  // All spends, then the first n outputs.
  ghost function BundleItems<P>(b: Checked<P>, n: nat): (r: seq<Item<P>>)
    requires n <= |b.outputs|
    ensures |r| == |b.spends| + n
  {
    if n == 0 then SpendItems(b, |b.spends|) else BundleItems(b, n - 1) + [Created(b.outputs[n - 1].cv)]
  }

  ghost function Bvk<P>(lib: Libraries<P>, b: Checked<P>): P {
    IntoBvk(lib.bases, CvAfter(lib.bases.group, BundleItems(b, |b.outputs|), |b.spends| + |b.outputs|), b.valueBalance)
  }

  lemma {:induction false} SpendItemCvs<P>(b: Checked<P>, n: nat)
    requires n <= |b.spends|
    ensures SpentCvs(SpendItems(b, n), n) == SpendCvs(b.spends)[..n] && CreatedCvs(SpendItems(b, n), n) == []
  {
    if n > 0 {
      SpendItemCvs(b, n - 1);
      CvsPrefix(SpendItems(b, n - 1), SpendItems(b, n), n - 1);
    }
  }

  lemma {:induction false} BundleItemCvs<P>(b: Checked<P>, n: nat)
    requires n <= |b.outputs|
    ensures SpentCvs(BundleItems(b, n), |b.spends| + n) == SpendCvs(b.spends)
    ensures CreatedCvs(BundleItems(b, n), |b.spends| + n) == OutputCvs(b.outputs)[..n]
  {
    if n > 0 {
      BundleItemCvs(b, n - 1);
      CvsPrefix(BundleItems(b, n - 1), BundleItems(b, n), |b.spends| + n - 1);
    } else {
      SpendItemCvs(b, |b.spends|);
    }
  }

  lemma {:induction false} CvsPrefix<P>(s: seq<Item<P>>, t: seq<Item<P>>, n: nat)
    requires n <= |s| && n <= |t| && forall k: nat | k < n :: s[k] == t[k]
    ensures SpentCvs(s, n) == SpentCvs(t, n) && CreatedCvs(s, n) == CreatedCvs(t, n)
  {
    if n > 0 { CvsPrefix(s, t, n - 1); }
  }

  lemma AllItemCvs<P>(b: Checked<P>)
    ensures SpentCvs(BundleItems(b, |b.outputs|), |b.spends| + |b.outputs|) == SpendCvs(b.spends)
    ensures CreatedCvs(BundleItems(b, |b.outputs|), |b.spends| + |b.outputs|) == OutputCvs(b.outputs)
  {
    BundleItemCvs(b, |b.outputs|);
    assert OutputCvs(b.outputs)[..|b.outputs|] == OutputCvs(b.outputs);
  }

  // The key of a bundle, from its commitments and balance.
  lemma BvkOfCvs<P(!new)>(lib: Libraries<P>, b: Checked<P>)
    requires IsGroup(lib.bases.group)
    ensures Bvk(lib, b) == IntoBvk(lib.bases, Sub(lib.bases.group, CommitmentSum(lib.bases.group, SpendCvs(b.spends)),
                                                  CommitmentSum(lib.bases.group, OutputCvs(b.outputs))), b.valueBalance)
  {
    AllItemCvs(b);
    CvAfterIsDifference(lib.bases.group, BundleItems(b, |b.outputs|), |b.spends| + |b.outputs|);
  }

  ghost predicate Accepted<P>(lib: Libraries<P>, b: Checked<P>, sighash: seq<byte>) {
    && SpendsAccepted(lib, b, sighash, |b.spends|)
    && OutputsAccepted(lib, b, |b.outputs|)
    && lib.schemes.binding.verify(Bvk(lib, b), sighash, b.authorization.bindingSig)
  }

  // --- one bundle at a time ---

  function VerifySpendSig<P>(lib: Libraries<P>, sighash: seq<byte>, sig: Signature): ((), P) -> (bool, ()) {
    (c: (), rk: P) => (lib.schemes.spendAuth.verify(rk, sighash, sig), c)
  }

  function VerifyProof(verify: (ProofBytes, seq<int>) -> bool): ((), ProofBytes, seq<int>) -> (bool, ()) {
    (c: (), proof: ProofBytes, input: seq<int>) => (verify(proof, input), c)
  }

  function VerifyBinding<P>(lib: Libraries<P>, sighash: seq<byte>, sig: Signature): ((), P) -> (bool, ()) {
    (c: (), bvk: P) => (lib.schemes.binding.verify(bvk, sighash, sig), c)
  }

  method VerifySpend<P(!new, ==)>(ctx: VerificationContext<P>, d: SpendDescription<P, ProofBytes, Signature>, sighash: seq<byte>)
    returns (ok: bool)
    requires ctx.Valid()
    modifies ctx
    ensures ctx.Valid() && (ok <==> SpendAccepted(ctx.lib, d, sighash))
    ensures ok ==> ctx.history == old(ctx.history) + [Spent(d.cv)]
  {
    if !ctx.lib.proofReads(d.zkproof) { return false; }
    var passed, _ := ctx.CheckSpend(d.cv, d.anchor, d.nullifier, d.rk, d.zkproof, (),
                                    VerifySpendSig(ctx.lib, sighash, d.spendAuthSig), VerifyProof(ctx.lib.spendProof));
    return passed;
  }

  method VerifyOutput<P(!new, ==)>(ctx: VerificationContext<P>, o: OutputDescription<P, ProofBytes>) returns (ok: bool)
    requires ctx.Valid()
    modifies ctx
    ensures ctx.Valid() && (ok <==> OutputAccepted(ctx.lib, o))
    ensures ok ==> ctx.history == old(ctx.history) + [Created(o.cv)]
  {
    var epk := ctx.lib.epkFromBytes(o.ephemeralKey);
    if epk.None? || !ctx.lib.proofReads(o.zkproof) { return false; }
    var passed, _ := ctx.CheckOutput(o.cv, o.cmu, epk.value, o.zkproof, (), VerifyProof(ctx.lib.outputProof));
    return passed;
  }

  method VerifySpends<P(!new, ==)>(ctx: VerificationContext<P>, b: Checked<P>, sighash: seq<byte>) returns (ok: bool)
    requires ctx.Valid() && ctx.history == []
    modifies ctx
    ensures ctx.Valid() && (ok <==> SpendsAccepted(ctx.lib, b, sighash, |b.spends|))
    ensures ok ==> ctx.history == SpendItems(b, |b.spends|)
  {
    for k := 0 to |b.spends|
      invariant ctx.Valid() && ctx.history == SpendItems(b, k) && SpendsAccepted(ctx.lib, b, sighash, k)
    {
      var passed := VerifySpend(ctx, b.spends[k], sighash);
      if !passed {
        SpendAcceptedAt(ctx.lib, b, sighash, |b.spends|);
        return false;
      }
    }
    return true;
  }

  method VerifyOutputs<P(!new, ==)>(ctx: VerificationContext<P>, b: Checked<P>) returns (ok: bool)
    requires ctx.Valid() && ctx.history == SpendItems(b, |b.spends|)
    modifies ctx
    ensures ctx.Valid() && (ok <==> OutputsAccepted(ctx.lib, b, |b.outputs|))
    ensures ok ==> ctx.history == BundleItems(b, |b.outputs|)
  {
    for k := 0 to |b.outputs|
      invariant ctx.Valid() && ctx.history == BundleItems(b, k) && OutputsAccepted(ctx.lib, b, k)
    {
      var passed := VerifyOutput(ctx, b.outputs[k]);
      if !passed {
        OutputAcceptedAt(ctx.lib, b, |b.outputs|);
        return false;
      }
    }
    return true;
  }

  method VerifyBalance<P(!new, ==)>(ctx: VerificationContext<P>, b: Checked<P>, sighash: seq<byte>) returns (ok: bool)
    requires ctx.Valid() && ctx.history == BundleItems(b, |b.outputs|)
    ensures ok <==> ctx.lib.schemes.binding.verify(Bvk(ctx.lib, b), sighash, b.authorization.bindingSig)
  {
    var bound, _ := ctx.FinalCheck(b.valueBalance, (), VerifyBinding(ctx.lib, sighash, b.authorization.bindingSig));
    return bound;
  }

  method VerifySingle<P(!new, ==)>(lib: Libraries<P>, b: Checked<P>, sighash: seq<byte>) returns (ok: bool)
    ensures ok <==> Accepted(lib, b, sighash)
  {
    var ctx := new VerificationContext(lib);
    ok := VerifySpends(ctx, b, sighash);
    if !ok { return; }
    ok := VerifyOutputs(ctx, b);
    if !ok { return; }
    ok := VerifyBalance(ctx, b, sighash);
  }

  // --- batches ---

  datatype SignatureItem<P> = SpendAuthItem(vk: P, sig: Signature, sighash: seq<byte>)
                            | BindingItem(vk: P, sig: Signature, sighash: seq<byte>)

  datatype Queues<P> = Queues(spendProofs: seq<(ProofBytes, seq<int>)>, outputProofs: seq<(ProofBytes, seq<int>)>,
                              signatures: seq<SignatureItem<P>>)

  predicate SignatureItemValid<P>(lib: Libraries<P>, item: SignatureItem<P>) {
    match item
    case SpendAuthItem(vk, sig, sighash) => lib.schemes.spendAuth.verify(vk, sighash, sig)
    case BindingItem(vk, sig, sighash) => lib.schemes.binding.verify(vk, sighash, sig)
  }

  predicate SignaturesValid<P>(lib: Libraries<P>, items: seq<SignatureItem<P>>, n: nat)
    requires n <= |items|
  {
    n > 0 ==> SignaturesValid(lib, items, n - 1) && SignatureItemValid(lib, items[n - 1])
  }

  predicate ProofsValid(verify: (ProofBytes, seq<int>) -> bool, items: seq<(ProofBytes, seq<int>)>, n: nat)
    requires n <= |items|
  {
    n > 0 ==> ProofsValid(verify, items, n - 1) && verify(items[n - 1].0, items[n - 1].1)
  }

  predicate QueuesValid<P>(lib: Libraries<P>, q: Queues<P>) {
    && SignaturesValid(lib, q.signatures, |q.signatures|)
    && ProofsValid(lib.spendProof, q.spendProofs, |q.spendProofs|)
    && ProofsValid(lib.outputProof, q.outputProofs, |q.outputProofs|)
  }

  function QueueSpendSig<P>(sighash: seq<byte>, sig: Signature): (Queues<P>, P) -> (bool, Queues<P>) {
    (q: Queues<P>, rk: P) => (true, q.(signatures := q.signatures + [SpendAuthItem(rk, sig, sighash)]))
  }

  function QueueSpendProof<P>(): (Queues<P>, ProofBytes, seq<int>) -> (bool, Queues<P>) {
    (q: Queues<P>, proof: ProofBytes, input: seq<int>) => (true, q.(spendProofs := q.spendProofs + [(proof, input)]))
  }

  function QueueOutputProof<P>(): (Queues<P>, ProofBytes, seq<int>) -> (bool, Queues<P>) {
    (q: Queues<P>, proof: ProofBytes, input: seq<int>) => (true, q.(outputProofs := q.outputProofs + [(proof, input)]))
  }

  function QueueBinding<P>(sighash: seq<byte>, sig: Signature): (Queues<P>, P) -> (bool, Queues<P>) {
    (q: Queues<P>, bvk: P) => (true, q.(signatures := q.signatures + [BindingItem(bvk, sig, sighash)]))
  }

  lemma {:induction false} SignaturesPrefix<P>(lib: Libraries<P>, s: seq<SignatureItem<P>>, t: seq<SignatureItem<P>>, n: nat)
    requires n <= |s| && n <= |t| && forall k: nat | k < n :: s[k] == t[k]
    ensures SignaturesValid(lib, s, n) <==> SignaturesValid(lib, t, n)
  {
    if n > 0 { SignaturesPrefix(lib, s, t, n - 1); }
  }

  lemma {:induction false} ProofsPrefix(verify: (ProofBytes, seq<int>) -> bool, s: seq<(ProofBytes, seq<int>)>, t: seq<(ProofBytes, seq<int>)>, n: nat)
    requires n <= |s| && n <= |t| && forall k: nat | k < n :: s[k] == t[k]
    ensures ProofsValid(verify, s, n) <==> ProofsValid(verify, t, n)
  {
    if n > 0 { ProofsPrefix(verify, s, t, n - 1); }
  }

  lemma SignatureQueued<P>(lib: Libraries<P>, items: seq<SignatureItem<P>>, item: SignatureItem<P>)
    ensures SignaturesValid(lib, items + [item], |items| + 1)
            <==> SignaturesValid(lib, items, |items|) && SignatureItemValid(lib, item)
  {
    SignaturesPrefix(lib, items, items + [item], |items|);
  }

  lemma ProofQueued(verify: (ProofBytes, seq<int>) -> bool, items: seq<(ProofBytes, seq<int>)>, item: (ProofBytes, seq<int>))
    ensures ProofsValid(verify, items + [item], |items| + 1) <==> ProofsValid(verify, items, |items|) && verify(item.0, item.1)
  {
    ProofsPrefix(verify, items, items + [item], |items|);
  }

  /** One bundle given to the batch, with the result of its structural checks. */
  datatype Added<P> = Added(bundle: Checked<P>, sighash: seq<byte>, passed: bool)

  ghost predicate AllPassed<P>(added: seq<Added<P>>) {
    forall k: nat | k < |added| :: added[k].passed
  }

  ghost predicate AllAccepted<P>(lib: Libraries<P>, added: seq<Added<P>>) {
    forall k: nat | k < |added| :: Accepted(lib, added[k].bundle, added[k].sighash)
  }

  // A bundle that failed its checks is not acceptable.
  ghost predicate FailuresReal<P>(lib: Libraries<P>, added: seq<Added<P>>) {
    forall k: nat | k < |added| :: !added[k].passed ==> !Accepted(lib, added[k].bundle, added[k].sighash)
  }

  lemma AddedStep<P>(lib: Libraries<P>, added: seq<Added<P>>, x: Added<P>)
    ensures AllPassed(added + [x]) <==> AllPassed(added) && x.passed
    ensures AllAccepted(lib, added + [x]) <==> AllAccepted(lib, added) && Accepted(lib, x.bundle, x.sighash)
    ensures FailuresReal(lib, added) && (!x.passed ==> !Accepted(lib, x.bundle, x.sighash)) ==> FailuresReal(lib, added + [x])
  {
    var all := added + [x];
    assert all[|added|] == x;
    assert forall k: nat | k < |added| :: all[k] == added[k];
  }

  class BatchValidator<P(!new, ==)> {
    const lib: Libraries<P>
    var bundlesAdded: bool
    var queues: Queues<P>
    ghost var added: seq<Added<P>>

    // While no check failed, the queues are valid exactly when every added bundle is acceptable.
    ghost predicate Valid() reads this {
      && (bundlesAdded <==> added != [])
      && (!bundlesAdded ==> queues == Queues([], [], []))
      && FailuresReal(lib, added)
      && (AllPassed(added) ==> (QueuesValid(lib, queues) <==> AllAccepted(lib, added)))
    }

    constructor (lib: Libraries<P>)
      ensures Valid() && added == [] && this.lib == lib
    {
      this.lib := lib;
      bundlesAdded := false;
      queues := Queues([], [], []);
      added := [];
    }

    method CheckBundle(b: Checked<P>, sighash: seq<byte>) returns (ok: bool)
      requires Valid()
      modifies this
      ensures Valid() && added == old(added) + [Added(b, sighash, ok)]
    {
      bundlesAdded := true;
      var q: Queues<P>;
      ok, q := QueueBundle(lib, queues, b, sighash);
      queues := q;
      added := added + [Added(b, sighash, ok)];
      AddedStep(lib, old(added), Added(b, sighash, ok));
    }

    /** If every added bundle passed its checks, the batch is valid exactly when each bundle alone is;
    and a bundle that did not pass is not valid alone. */
    method Validate() returns (ok: bool)
      requires Valid()
      ensures AllPassed(added) && ok <==> AllAccepted(lib, added)
    {
      if !bundlesAdded { return true; }
      if !SignaturesValid(lib, queues.signatures, |queues.signatures|) { return false; }
      if !ProofsValid(lib.spendProof, queues.spendProofs, |queues.spendProofs|) { return false; }
      if !ProofsValid(lib.outputProof, queues.outputProofs, |queues.outputProofs|) { return false; }
      return true;
    }
  }

  // One spend or output: its structural checks, with its proof and signature queued.
  method QueueSpend<P(!new, ==)>(ctx: VerificationContext<P>, queues: Queues<P>, d: SpendDescription<P, ProofBytes, Signature>,
                                 sighash: seq<byte>) returns (ok: bool, q: Queues<P>)
    requires ctx.Valid()
    modifies ctx
    ensures ctx.Valid() && (ok ==> ctx.history == old(ctx.history) + [Spent(d.cv)])
    ensures !ok ==> !SpendAccepted(ctx.lib, d, sighash)
    ensures ok ==> (QueuesValid(ctx.lib, q) <==> QueuesValid(ctx.lib, queues) && SpendAccepted(ctx.lib, d, sighash))
  {
    if !ctx.lib.proofReads(d.zkproof) { return false, queues; }
    SignatureQueued(ctx.lib, queues.signatures, SpendAuthItem(d.rk, d.spendAuthSig, sighash));
    ProofQueued(ctx.lib.spendProof, queues.spendProofs, (d.zkproof, ctx.lib.SpendInput(d.rk, d.cv, d.anchor, d.nullifier)));
    ok, q := ctx.CheckSpend(d.cv, d.anchor, d.nullifier, d.rk, d.zkproof, queues,
                            QueueSpendSig(sighash, d.spendAuthSig), QueueSpendProof());
  }

  method QueueOutput<P(!new, ==)>(ctx: VerificationContext<P>, queues: Queues<P>, o: OutputDescription<P, ProofBytes>)
    returns (ok: bool, q: Queues<P>)
    requires ctx.Valid()
    modifies ctx
    ensures ctx.Valid() && (ok ==> ctx.history == old(ctx.history) + [Created(o.cv)])
    ensures !ok ==> !OutputAccepted(ctx.lib, o)
    ensures ok ==> (QueuesValid(ctx.lib, q) <==> QueuesValid(ctx.lib, queues) && OutputAccepted(ctx.lib, o))
  {
    var epk := ctx.lib.epkFromBytes(o.ephemeralKey);
    if epk.None? || !ctx.lib.proofReads(o.zkproof) { return false, queues; }
    ProofQueued(ctx.lib.outputProof, queues.outputProofs, (o.zkproof, ctx.lib.OutputInput(o.cv, epk.value, o.cmu)));
    ok, q := ctx.CheckOutput(o.cv, o.cmu, epk.value, o.zkproof, queues, QueueOutputProof());
  }

  method QueueSpends<P(!new, ==)>(ctx: VerificationContext<P>, queues: Queues<P>, b: Checked<P>, sighash: seq<byte>)
    returns (ok: bool, q: Queues<P>)
    requires ctx.Valid() && ctx.history == []
    modifies ctx
    ensures ctx.Valid() && (ok ==> ctx.history == SpendItems(b, |b.spends|))
    ensures !ok ==> !SpendsAccepted(ctx.lib, b, sighash, |b.spends|)
    ensures ok ==> (QueuesValid(ctx.lib, q) <==> QueuesValid(ctx.lib, queues) && SpendsAccepted(ctx.lib, b, sighash, |b.spends|))
  {
    q := queues;
    for k := 0 to |b.spends|
      invariant ctx.Valid() && ctx.history == SpendItems(b, k)
      invariant QueuesValid(ctx.lib, q) <==> (QueuesValid(ctx.lib, queues) && SpendsAccepted(ctx.lib, b, sighash, k))
    {
      ok, q := QueueSpend(ctx, q, b.spends[k], sighash);
      if !ok {
        SpendAcceptedAt(ctx.lib, b, sighash, |b.spends|);
        return;
      }
    }
    ok := true;
  }

  method QueueOutputs<P(!new, ==)>(ctx: VerificationContext<P>, queues: Queues<P>, b: Checked<P>) returns (ok: bool, q: Queues<P>)
    requires ctx.Valid() && ctx.history == SpendItems(b, |b.spends|)
    modifies ctx
    ensures ctx.Valid() && (ok ==> ctx.history == BundleItems(b, |b.outputs|))
    ensures !ok ==> !OutputsAccepted(ctx.lib, b, |b.outputs|)
    ensures ok ==> (QueuesValid(ctx.lib, q) <==> QueuesValid(ctx.lib, queues) && OutputsAccepted(ctx.lib, b, |b.outputs|))
  {
    q := queues;
    for k := 0 to |b.outputs|
      invariant ctx.Valid() && ctx.history == BundleItems(b, k)
      invariant QueuesValid(ctx.lib, q) <==> (QueuesValid(ctx.lib, queues) && OutputsAccepted(ctx.lib, b, k))
    {
      ok, q := QueueOutput(ctx, q, b.outputs[k]);
      if !ok {
        OutputAcceptedAt(ctx.lib, b, |b.outputs|);
        return;
      }
    }
    ok := true;
  }

  method QueueBalance<P(!new, ==)>(ctx: VerificationContext<P>, queues: Queues<P>, b: Checked<P>, sighash: seq<byte>)
    returns (ok: bool, q: Queues<P>)
    requires ctx.Valid() && ctx.history == BundleItems(b, |b.outputs|)
    ensures ok && (QueuesValid(ctx.lib, q) <==>
                     QueuesValid(ctx.lib, queues) && ctx.lib.schemes.binding.verify(Bvk(ctx.lib, b), sighash, b.authorization.bindingSig))
  {
    SignatureQueued(ctx.lib, queues.signatures, BindingItem(Bvk(ctx.lib, b), b.authorization.bindingSig, sighash));
    ok, q := ctx.FinalCheck(b.valueBalance, queues, QueueBinding(sighash, b.authorization.bindingSig));
  }

  // All checks of one bundle against a context whose verifiers only queue.
  method QueueBundle<P(!new, ==)>(lib: Libraries<P>, queues: Queues<P>, b: Checked<P>, sighash: seq<byte>)
    returns (ok: bool, q: Queues<P>)
    ensures !ok ==> !Accepted(lib, b, sighash)
    ensures ok ==> (QueuesValid(lib, q) <==> QueuesValid(lib, queues) && Accepted(lib, b, sighash))
  {
    var ctx := new VerificationContext(lib);
    ok, q := QueueSpends(ctx, queues, b, sighash);
    if !ok { return; }
    ok, q := QueueOutputs(ctx, q, b);
    if !ok { return; }
    ok, q := QueueBalance(ctx, q, b, sighash);
  }
}
