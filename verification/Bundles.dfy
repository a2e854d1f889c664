/** Bundles of spends and outputs, and the maps that move them between authorization states. */
module Bundles {
  import opened Wrappers
  import opened Bytes
  import opened ValueBalance

  datatype SpendDescription<P, S, A> =
    SpendDescription(cv: P, anchor: int, nullifier: seq<byte>, rk: P, zkproof: S, spendAuthSig: A) {
    function Effects(): SpendDescription<P, (), ()> {
      SpendDescription(cv, anchor, nullifier, rk, (), ())
    }
  }

  datatype OutputDescription<P, O> =
    OutputDescription(cv: P, cmu: int, ephemeralKey: seq<byte>, encCiphertext: seq<byte>, outCiphertext: seq<byte>, zkproof: O) {
    function Effects(): OutputDescription<P, ()> {
      OutputDescription(cv, cmu, ephemeralKey, encCiphertext, outCiphertext, ())
    }
  }

  datatype Bundle<P, S, O, A, Au> =
    Bundle(spends: seq<SpendDescription<P, S, A>>, outputs: seq<OutputDescription<P, O>>, valueBalance: I64, authorization: Au) {
    // What the bundle does to the chain state, without any authorizing data.
    function Effects(): Bundle<P, (), (), (), ()> {
      Bundle(seq(|spends|, i requires 0 <= i < |spends| => spends[i].Effects()),
             seq(|outputs|, i requires 0 <= i < |outputs| => outputs[i].Effects()), valueBalance, ())
    }
  }

  function SpendCvs<P, S, A>(spends: seq<SpendDescription<P, S, A>>): (r: seq<P>)
    ensures |r| == |spends|
  {
    seq(|spends|, i requires 0 <= i < |spends| => spends[i].cv)
  }

  function OutputCvs<P, O>(outputs: seq<OutputDescription<P, O>>): (r: seq<P>)
    ensures |r| == |outputs|
  {
    seq(|outputs|, i requires 0 <= i < |outputs| => outputs[i].cv)
  }

  // Equal effects are equal fields, the authorizing data apart.
  lemma EffectsIff<P, S1, O1, A1, Au1, S2, O2, A2, Au2>(b1: Bundle<P, S1, O1, A1, Au1>, b2: Bundle<P, S2, O2, A2, Au2>)
    ensures b1.Effects() == b2.Effects() <==>
              && |b1.spends| == |b2.spends| && |b1.outputs| == |b2.outputs| && b1.valueBalance == b2.valueBalance
              && (forall k: nat | k < |b1.spends| ::
                    var d1, d2 := b1.spends[k], b2.spends[k];
                    d1.cv == d2.cv && d1.anchor == d2.anchor && d1.nullifier == d2.nullifier && d1.rk == d2.rk)
              && (forall k: nat | k < |b1.outputs| ::
                    var o1, o2 := b1.outputs[k], b2.outputs[k];
                    && o1.cv == o2.cv && o1.cmu == o2.cmu && o1.ephemeralKey == o2.ephemeralKey
                    && o1.encCiphertext == o2.encCiphertext && o1.outCiphertext == o2.outCiphertext)
  {
    var e1, e2 := b1.Effects(), b2.Effects();
    assert |e1.spends| == |b1.spends| && |e2.spends| == |b2.spends| && |e1.outputs| == |b1.outputs| && |e2.outputs| == |b2.outputs|;
    if e1 == e2 {
      forall k: nat | k < |b1.spends| ensures b1.spends[k].Effects() == b2.spends[k].Effects() {
        assert e1.spends[k] == e2.spends[k];
      }
      forall k: nat | k < |b1.outputs| ensures b1.outputs[k].Effects() == b2.outputs[k].Effects() {
        assert e1.outputs[k] == e2.outputs[k];
      }
    }
  }

  // The effects fix the commitments and the balance.
  lemma EffectsFixCvs<P, S1, O1, A1, Au1, S2, O2, A2, Au2>(b1: Bundle<P, S1, O1, A1, Au1>, b2: Bundle<P, S2, O2, A2, Au2>)
    requires b1.Effects() == b2.Effects()
    ensures SpendCvs(b1.spends) == SpendCvs(b2.spends) && OutputCvs(b1.outputs) == OutputCvs(b2.outputs)
    ensures b1.valueBalance == b2.valueBalance
  {
    assert |b1.spends| == |b1.Effects().spends| == |b2.spends|;
    assert |b1.outputs| == |b1.Effects().outputs| == |b2.outputs|;
    forall k: nat | k < |b1.spends| ensures b1.spends[k].cv == b2.spends[k].cv {
      assert b1.Effects().spends[k].cv == b2.Effects().spends[k].cv;
    }
    forall k: nat | k < |b1.outputs| ensures b1.outputs[k].cv == b2.outputs[k].cv {
      assert b1.Effects().outputs[k].cv == b2.Effects().outputs[k].cv;
    }
  }

  // There is no bundle without spends and outputs.
  function FromParts<P, S, O, A, Au>(spends: seq<SpendDescription<P, S, A>>, outputs: seq<OutputDescription<P, O>>,
                                     valueBalance: I64, authorization: Au): Option<Bundle<P, S, O, A, Au>> {
    if spends == [] && outputs == [] then None else Some(Bundle(spends, outputs, valueBalance, authorization))
  }

  // --- mapping, with a context threaded through every call in order ---

  function MapSpend<P, S, A, C, S', A'>(d: SpendDescription<P, S, A>, context: C, proof: (C, S) -> (S', C), sig: (C, A) -> (A', C))
    : (SpendDescription<P, S', A'>, C) {
    var (zkproof, afterProof) := proof(context, d.zkproof);
    var (spendAuthSig, afterSig) := sig(afterProof, d.spendAuthSig);
    (SpendDescription(d.cv, d.anchor, d.nullifier, d.rk, zkproof, spendAuthSig), afterSig)
  }

  // The first n spends and the context after them.
  function MapSpends<P, S, A, C, S', A'>(spends: seq<SpendDescription<P, S, A>>, context: C, proof: (C, S) -> (S', C),
                                         sig: (C, A) -> (A', C), n: nat)
    : (r: (seq<SpendDescription<P, S', A'>>, C))
    requires n <= |spends|
    ensures |r.0| == n
  {
    if n == 0 then ([], context)
    else
      var (before, reached) := MapSpends(spends, context, proof, sig, n - 1);
      var (spend, after) := MapSpend(spends[n - 1], reached, proof, sig);
      (before + [spend], after)
  }

  function MapOutputs<P, O, C, O'>(outputs: seq<OutputDescription<P, O>>, context: C, proof: (C, O) -> (O', C), n: nat)
    : (r: (seq<OutputDescription<P, O'>>, C))
    requires n <= |outputs|
    ensures |r.0| == n
  {
    if n == 0 then ([], context)
    else
      var (before, reached) := MapOutputs(outputs, context, proof, n - 1);
      var o := outputs[n - 1];
      var (zkproof, after) := proof(reached, o.zkproof);
      (before + [OutputDescription(o.cv, o.cmu, o.ephemeralKey, o.encCiphertext, o.outCiphertext, zkproof)], after)
  }

  function MapAuthorization<P, S, O, A, Au, C, S', O', A', Au'>(
    b: Bundle<P, S, O, A, Au>, context: C, spendProof: (C, S) -> (S', C), outputProof: (C, O) -> (O', C),
    authSig: (C, A) -> (A', C), auth: (C, Au) -> (Au', C)): (Bundle<P, S', O', A', Au'>, C) {
    var (spends, afterSpends) := MapSpends(b.spends, context, spendProof, authSig, |b.spends|);
    var (outputs, afterOutputs) := MapOutputs(b.outputs, afterSpends, outputProof, |b.outputs|);
    var (authorization, after) := auth(afterOutputs, b.authorization);
    (Bundle(spends, outputs, b.valueBalance, authorization), after)
  }

  // Position k of a mapped list comes from position k alone, in the context its predecessors left.
  lemma {:induction false} MapSpendsAt<P, S, A, C, S', A'>(spends: seq<SpendDescription<P, S, A>>, context: C,
      proof: (C, S) -> (S', C), sig: (C, A) -> (A', C), n: nat, k: nat)
    requires k < n <= |spends|
    ensures
      var r, c := MapSpends(spends, context, proof, sig, n).0[k], MapSpends(spends, context, proof, sig, k).1;
      && r.Effects() == spends[k].Effects()
      && r.zkproof == proof(c, spends[k].zkproof).0
      && r.spendAuthSig == sig(proof(c, spends[k].zkproof).1, spends[k].spendAuthSig).0
  {
    if k < n - 1 { MapSpendsAt(spends, context, proof, sig, n - 1, k); }
  }

  lemma {:induction false} MapOutputsAt<P, O, C, O'>(outputs: seq<OutputDescription<P, O>>, context: C,
      proof: (C, O) -> (O', C), n: nat, k: nat)
    requires k < n <= |outputs|
    ensures MapOutputs(outputs, context, proof, n).0[k].Effects() == outputs[k].Effects()
    ensures MapOutputs(outputs, context, proof, n).0[k].zkproof
            == proof(MapOutputs(outputs, context, proof, k).1, outputs[k].zkproof).0
  {
    if k < n - 1 { MapOutputsAt(outputs, context, proof, n - 1, k); }
  }

  /** No map, whatever its functions do, changes the effects of a bundle. */
  lemma MapKeepsEffects<P, S, O, A, Au, C, S', O', A', Au'>(
    b: Bundle<P, S, O, A, Au>, context: C, spendProof: (C, S) -> (S', C), outputProof: (C, O) -> (O', C),
    authSig: (C, A) -> (A', C), auth: (C, Au) -> (Au', C))
    ensures MapAuthorization(b, context, spendProof, outputProof, authSig, auth).0.Effects() == b.Effects()
  {
    var r := MapAuthorization(b, context, spendProof, outputProof, authSig, auth).0;
    forall k: nat | k < |b.spends|
      ensures r.spends[k].Effects() == b.spends[k].Effects()
    {
      MapSpendsAt(b.spends, context, spendProof, authSig, |b.spends|, k);
    }
    var c := MapSpends(b.spends, context, spendProof, authSig, |b.spends|).1;
    forall k: nat | k < |b.outputs|
      ensures r.outputs[k].Effects() == b.outputs[k].Effects()
    {
      MapOutputsAt(b.outputs, c, outputProof, |b.outputs|, k);
    }
  }

  // --- the order of the calls ---

  datatype Call<S, O, A, Au> = OnSpendProof(s: S) | OnSpendSig(a: A) | OnOutputProof(o: O) | OnAuth(au: Au)

  // The calls for the first n spends: proof, then signature, of each in turn.
  function SpendCalls<P, S, O, A, Au>(spends: seq<SpendDescription<P, S, A>>, n: nat): seq<Call<S, O, A, Au>>
    requires n <= |spends|
  {
    if n == 0 then [] else SpendCalls(spends, n - 1) + [OnSpendProof(spends[n - 1].zkproof), OnSpendSig(spends[n - 1].spendAuthSig)]
  }

  function OutputCalls<P, S, O, A, Au>(outputs: seq<OutputDescription<P, O>>, n: nat): seq<Call<S, O, A, Au>>
    requires n <= |outputs|
  {
    if n == 0 then [] else OutputCalls(outputs, n - 1) + [OnOutputProof(outputs[n - 1].zkproof)]
  }

  function LogSpendProof<S, O, A, Au>(log: seq<Call<S, O, A, Au>>, x: S): (S, seq<Call<S, O, A, Au>>) {
    (x, log + [OnSpendProof(x)])
  }

  function LogSpendSig<S, O, A, Au>(log: seq<Call<S, O, A, Au>>, x: A): (A, seq<Call<S, O, A, Au>>) {
    (x, log + [OnSpendSig(x)])
  }

  function LogOutputProof<S, O, A, Au>(log: seq<Call<S, O, A, Au>>, x: O): (O, seq<Call<S, O, A, Au>>) {
    (x, log + [OnOutputProof(x)])
  }

  function LogAuth<S, O, A, Au>(log: seq<Call<S, O, A, Au>>, x: Au): (Au, seq<Call<S, O, A, Au>>) {
    (x, log + [OnAuth(x)])
  }

  lemma {:induction false} LoggedSpends<P, S, O, A, Au>(spends: seq<SpendDescription<P, S, A>>, log: seq<Call<S, O, A, Au>>, n: nat)
    requires n <= |spends|
    ensures MapSpends(spends, log, LogSpendProof<S, O, A, Au>, LogSpendSig<S, O, A, Au>, n).1 == log + SpendCalls(spends, n)
  {
    if n > 0 { LoggedSpends(spends, log, n - 1); }
  }

  lemma {:induction false} LoggedOutputs<P, S, O, A, Au>(outputs: seq<OutputDescription<P, O>>, log: seq<Call<S, O, A, Au>>, n: nat)
    requires n <= |outputs|
    ensures MapOutputs(outputs, log, LogOutputProof<S, O, A, Au>, n).1 == log + OutputCalls(outputs, n)
  {
    if n > 0 { LoggedOutputs(outputs, log, n - 1); }
  }

  /** Functions that log their calls in the context log every spend, proof before signature, then every
  output, then the authorization: one context goes through all calls in this order. */
  lemma MapOrder<P, S, O, A, Au>(b: Bundle<P, S, O, A, Au>)
    ensures MapAuthorization(b, [], LogSpendProof<S, O, A, Au>, LogOutputProof<S, O, A, Au>, LogSpendSig<S, O, A, Au>, LogAuth<S, O, A, Au>).1
            == SpendCalls(b.spends, |b.spends|) + OutputCalls(b.outputs, |b.outputs|) + [OnAuth(b.authorization)]
  {
    var calls: seq<Call<S, O, A, Au>> := SpendCalls(b.spends, |b.spends|);
    LoggedSpends<P, S, O, A, Au>(b.spends, [], |b.spends|);
    assert [] + calls == calls;
    LoggedOutputs<P, S, O, A, Au>(b.outputs, calls, |b.outputs|);
  }

  // --- mapping that can fail: the first failure is the result ---

  function TryMapSpends<P, S, A, S', A', E>(spends: seq<SpendDescription<P, S, A>>, proof: S -> Result<S', E>,
                                            sig: A -> Result<A', E>, n: nat)
    : (r: Result<seq<SpendDescription<P, S', A'>>, E>)
    requires n <= |spends|
    ensures r.Ok? ==> |r.value| == n
  {
    if n == 0 then Ok([])
    else match TryMapSpends(spends, proof, sig, n - 1)
         case Err(e) => Err(e)
         case Ok(before) =>
           var d := spends[n - 1];
           match proof(d.zkproof)
           case Err(e) => Err(e)
           case Ok(zkproof) =>
             match sig(d.spendAuthSig)
             case Err(e) => Err(e)
             case Ok(spendAuthSig) => Ok(before + [SpendDescription(d.cv, d.anchor, d.nullifier, d.rk, zkproof, spendAuthSig)])
  }

  function TryMapOutputs<P, O, O', E>(outputs: seq<OutputDescription<P, O>>, proof: O -> Result<O', E>, n: nat)
    : (r: Result<seq<OutputDescription<P, O'>>, E>)
    requires n <= |outputs|
    ensures r.Ok? ==> |r.value| == n
  {
    if n == 0 then Ok([])
    else match TryMapOutputs(outputs, proof, n - 1)
         case Err(e) => Err(e)
         case Ok(before) =>
           var o := outputs[n - 1];
           match proof(o.zkproof)
           case Err(e) => Err(e)
           case Ok(zkproof) =>
             Ok(before + [OutputDescription(o.cv, o.cmu, o.ephemeralKey, o.encCiphertext, o.outCiphertext, zkproof)])
  }

  function TryMapAuthorization<P, S, O, A, Au, S', O', A', Au', E>(
    b: Bundle<P, S, O, A, Au>, spendProof: S -> Result<S', E>, outputProof: O -> Result<O', E>,
    authSig: A -> Result<A', E>, auth: Au -> Result<Au', E>): Result<Bundle<P, S', O', A', Au'>, E> {
    match TryMapSpends(b.spends, spendProof, authSig, |b.spends|)
    case Err(e) => Err(e)
    case Ok(spends) =>
      match TryMapOutputs(b.outputs, outputProof, |b.outputs|)
      case Err(e) => Err(e)
      case Ok(outputs) =>
        match auth(b.authorization)
        case Err(e) => Err(e)
        case Ok(authorization) => Ok(Bundle(spends, outputs, b.valueBalance, authorization))
  }

  // It succeeds exactly when every item does, and then position by position.
  lemma {:induction false} TryMapSpendsIff<P, S, A, S', A', E>(spends: seq<SpendDescription<P, S, A>>,
      proof: S -> Result<S', E>, sig: A -> Result<A', E>, n: nat)
    requires n <= |spends|
    ensures TryMapSpends(spends, proof, sig, n).Ok?
            <==> forall k: nat | k < n :: proof(spends[k].zkproof).Ok? && sig(spends[k].spendAuthSig).Ok?
    ensures TryMapSpends(spends, proof, sig, n).Ok? ==>
              forall k: nat | k < n ::
                && TryMapSpends(spends, proof, sig, n).value[k].Effects() == spends[k].Effects()
                && Ok(TryMapSpends(spends, proof, sig, n).value[k].zkproof) == proof(spends[k].zkproof)
                && Ok(TryMapSpends(spends, proof, sig, n).value[k].spendAuthSig) == sig(spends[k].spendAuthSig)
  {
    if n > 0 { TryMapSpendsIff(spends, proof, sig, n - 1); }
  }

  lemma {:induction false} TryMapOutputsIff<P, O, O', E>(outputs: seq<OutputDescription<P, O>>, proof: O -> Result<O', E>, n: nat)
    requires n <= |outputs|
    ensures TryMapOutputs(outputs, proof, n).Ok? <==> forall k: nat | k < n :: proof(outputs[k].zkproof).Ok?
    ensures TryMapOutputs(outputs, proof, n).Ok? ==>
              forall k: nat | k < n ::
                && TryMapOutputs(outputs, proof, n).value[k].Effects() == outputs[k].Effects()
                && Ok(TryMapOutputs(outputs, proof, n).value[k].zkproof) == proof(outputs[k].zkproof)
  {
    if n > 0 { TryMapOutputsIff(outputs, proof, n - 1); }
  }

  /** The failing map also keeps the effects whenever it succeeds. */
  lemma TryMapKeepsEffects<P, S, O, A, Au, S', O', A', Au', E>(
    b: Bundle<P, S, O, A, Au>, spendProof: S -> Result<S', E>, outputProof: O -> Result<O', E>,
    authSig: A -> Result<A', E>, auth: Au -> Result<Au', E>)
    requires TryMapAuthorization(b, spendProof, outputProof, authSig, auth).Ok?
    ensures TryMapAuthorization(b, spendProof, outputProof, authSig, auth).value.Effects() == b.Effects()
  {
    var r := TryMapAuthorization(b, spendProof, outputProof, authSig, auth).value;
    TryMapSpendsIff(b.spends, spendProof, authSig, |b.spends|);
    TryMapOutputsIff(b.outputs, outputProof, |b.outputs|);
    assert forall k: nat | k < |b.spends| :: r.spends[k].Effects() == b.spends[k].Effects();
    assert forall k: nat | k < |b.outputs| :: r.outputs[k].Effects() == b.outputs[k].Effects();
  }

  // The error of one spend: its proof is tried before its signature.
  ghost predicate SpendFailsWith<P, S, A, S', A', E>(d: SpendDescription<P, S, A>, proof: S -> Result<S', E>, sig: A -> Result<A', E>, e: E) {
    proof(d.zkproof) == Err(e) || (proof(d.zkproof).Ok? && sig(d.spendAuthSig) == Err(e))
  }

  ghost predicate FirstSpendError<P, S, A, S', A', E>(spends: seq<SpendDescription<P, S, A>>, proof: S -> Result<S', E>,
                                                      sig: A -> Result<A', E>, j: nat, e: E) {
    && j < |spends| && SpendFailsWith(spends[j], proof, sig, e)
    && forall k: nat | k < j :: proof(spends[k].zkproof).Ok? && sig(spends[k].spendAuthSig).Ok?
  }

  lemma {:induction false} TryMapSpendsError<P, S, A, S', A', E>(spends: seq<SpendDescription<P, S, A>>,
      proof: S -> Result<S', E>, sig: A -> Result<A', E>, n: nat)
    requires n <= |spends| && TryMapSpends(spends, proof, sig, n).Err?
    ensures exists j: nat :: j < n && FirstSpendError(spends, proof, sig, j, TryMapSpends(spends, proof, sig, n).error)
  {
    if TryMapSpends(spends, proof, sig, n - 1).Err? {
      TryMapSpendsError(spends, proof, sig, n - 1);
    } else {
      TryMapSpendsIff(spends, proof, sig, n - 1);
      assert FirstSpendError(spends, proof, sig, n - 1, TryMapSpends(spends, proof, sig, n).error);
    }
  }

  ghost predicate FirstOutputError<P, O, O', E>(outputs: seq<OutputDescription<P, O>>, proof: O -> Result<O', E>, j: nat, e: E) {
    j < |outputs| && proof(outputs[j].zkproof) == Err(e) && forall k: nat | k < j :: proof(outputs[k].zkproof).Ok?
  }

  lemma {:induction false} TryMapOutputsError<P, O, O', E>(outputs: seq<OutputDescription<P, O>>, proof: O -> Result<O', E>, n: nat)
    requires n <= |outputs| && TryMapOutputs(outputs, proof, n).Err?
    ensures exists j: nat :: j < n && FirstOutputError(outputs, proof, j, TryMapOutputs(outputs, proof, n).error)
  {
    if TryMapOutputs(outputs, proof, n - 1).Err? {
      TryMapOutputsError(outputs, proof, n - 1);
    } else {
      TryMapOutputsIff(outputs, proof, n - 1);
      assert FirstOutputError(outputs, proof, n - 1, TryMapOutputs(outputs, proof, n).error);
    }
  }

  /** The error of a failing map is that of the first spend that fails, else of the first output, else
  of the authorization. */
  lemma TryMapError<P, S, O, A, Au, S', O', A', Au', E>(
    b: Bundle<P, S, O, A, Au>, spendProof: S -> Result<S', E>, outputProof: O -> Result<O', E>,
    authSig: A -> Result<A', E>, auth: Au -> Result<Au', E>)
    requires TryMapAuthorization(b, spendProof, outputProof, authSig, auth).Err?
    ensures
      var e := TryMapAuthorization(b, spendProof, outputProof, authSig, auth).error;
      if !(forall k: nat | k < |b.spends| :: spendProof(b.spends[k].zkproof).Ok? && authSig(b.spends[k].spendAuthSig).Ok?) then
        exists j: nat :: FirstSpendError(b.spends, spendProof, authSig, j, e)
      else if !(forall k: nat | k < |b.outputs| :: outputProof(b.outputs[k].zkproof).Ok?) then
        exists j: nat :: FirstOutputError(b.outputs, outputProof, j, e)
      else auth(b.authorization) == Err(e)
  {
    TryMapSpendsIff(b.spends, spendProof, authSig, |b.spends|);
    TryMapOutputsIff(b.outputs, outputProof, |b.outputs|);
    if TryMapSpends(b.spends, spendProof, authSig, |b.spends|).Err? {
      TryMapSpendsError(b.spends, spendProof, authSig, |b.spends|);
    } else if TryMapOutputs(b.outputs, outputProof, |b.outputs|).Err? {
      TryMapOutputsError(b.outputs, outputProof, |b.outputs|);
    }
  }
}
