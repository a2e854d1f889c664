/** The mutable PCZT bundle, its construction by the builder, and its way to a transaction. */
module PcztBundle {
  import opened Wrappers
  import opened Bytes
  import opened Groups
  import opened Scalars
  import opened Keys
  import opened ValueBalance
  import opened NoteTree
  import opened SpendCircuit
  import opened RedJubjub
  import opened Bundles
  import Signing
  import opened Verifier
  import opened BatchValidation
  import B = Builder
  import opened BundleBuilder
  import opened UnauthorizedBundles
  import opened Pczt

  /** The bundle; every method is proved against the function of the same role. */
  class PcztBundle<P(!new, ==)> {
    const c: Context<P>
    const anchor: int
    const valueSum: ValueSum
    var spends: seq<Spend<P>>
    var outputs: seq<Output<P>>
    var bsk: Option<Fr>

    ghost function Contents(): State<P> reads this {
      State(spends, outputs, valueSum, anchor, bsk)
    }

    constructor (c: Context<P>, st: State<P>)
      ensures this.c == c && Contents() == st
    {
      this.c, anchor, valueSum, spends, outputs, bsk := c, st.anchor, st.valueSum, st.spends, st.outputs, st.bsk;
    }

    // The trapdoors of both lists, or nothing when one is missing.
    method SumTrapdoors() returns (r: Option<Fr>)
      ensures r.Some? <==> AllTrapdoorsSet(Contents())
      ensures r.Some? ==> r.value == BskOf(Contents())
    {
      if exists k: nat :: k < |spends| && spends[k].rcv.None? { return None; }
      if exists k: nat :: k < |outputs| && outputs[k].rcv.None? { return None; }
      var spendSum: Fr, outputSum: Fr := 0, 0;
      for k := 0 to |spends| invariant spendSum == SpendRcvSum(spends, k) {
        spendSum := FrAdd(spendSum, spends[k].rcv.value);
      }
      for k := 0 to |outputs| invariant outputSum == OutputRcvSum(outputs, k) {
        outputSum := FrAdd(outputSum, outputs[k].rcv.value);
      }
      return Some(FrSub(spendSum, outputSum));
    }

    method FinalizeIo(sighash: seq<byte>, coin: nat) returns (r: Result<(), IoFinalizerError>)
      modifies this
      ensures (Contents(), r) == Pczt.FinalizeIo(c, old(Contents()), sighash, coin)
    {
      var trapdoors := SumTrapdoors();
      if trapdoors.None? { return Err(IoFinalizerError.MissingValueCommitTrapdoor); }
      var valueBalance := valueSum.TryIntoI64();
      if valueBalance.None? { return Err(InvalidValueSum); }
      var bvk := IntoBvk(c.bases, Sub(c.bases.group, CommitmentSum(c.bases.group, PcztSpendCvs(spends)),
                                      CommitmentSum(c.bases.group, PcztOutputCvs(outputs))), valueBalance.value);
      if BindingKey(c.bases, trapdoors.value) != bvk { return Err(ValueCommitMismatch); }
      bsk := Some(trapdoors.value);
      var signed := SignAllDummies(sighash, coin);
      match signed {
        case Ok(_) => return Ok(());
        case Err(e) => return Err(DummySignature(e));
      }
    }

    method SignAllDummies(sighash: seq<byte>, coin: nat) returns (r: Result<(), SignerError>)
      modifies `spends
      ensures (spends, r) == SignDummies(c.schemes.spendAuth, old(spends), sighash, coin, |old(spends)|)
    {
      for k := 0 to |spends|
        invariant (spends, Ok(())) == SignDummies(c.schemes.spendAuth, old(spends), sighash, coin, k)
      {
        var (d, result) := SignDummy(c.schemes.spendAuth, spends[k], sighash, coin + k);
        spends := spends[k := d];
        if result.Err? {
          DummiesStop(c.schemes.spendAuth, old(spends), sighash, coin, k + 1, |spends|);
          return result;
        }
      }
      return Ok(());
    }

    method SignSpend(k: nat, sighash: seq<byte>, ask: Fr, coin: nat) returns (r: Result<(), SignerError>)
      requires k < |spends|
      modifies `spends
      ensures Contents() == Act(c, old(Contents()), Role.SignSpend(k, ask, sighash, coin))
      ensures r == Sign(c.schemes.spendAuth, old(spends[k]), sighash, ask, coin).1
    {
      var (d, result) := Sign(c.schemes.spendAuth, spends[k], sighash, ask, coin);
      spends := spends[k := d];
      return result;
    }

    method ApplySignature(k: nat, sighash: seq<byte>, sig: Signature) returns (r: Result<(), SignerError>)
      requires k < |spends|
      modifies `spends
      ensures Contents() == Act(c, old(Contents()), ApplyTo(k, sig, sighash))
      ensures r.Ok? <==> c.schemes.spendAuth.verify(old(spends[k]).rk, sighash, sig)
      ensures r.Err? ==> r.error == InvalidExternalSignature
      ensures spends == if r.Ok? then old(spends)[k := old(spends)[k].(spendAuthSig := Some(sig))] else old(spends)
    {
      var (d, result) := Pczt.ApplySignature(c.schemes.spendAuth, spends[k], sighash, sig);
      spends := spends[k := d];
      return result;
    }

    method CreateProofs(proveSpend: (SpendWitness<P>, nat) -> ProofBytes, proveOutput: (OutputWitness, nat) -> ProofBytes, coin: nat)
      returns (r: Result<(), ProverError>)
      modifies this
      ensures (Contents(), r) == Pczt.CreateProofs(c, old(Contents()), proveSpend, proveOutput, coin)
    {
      r := CreateSpendProofs(proveSpend, coin);
      if r.Err? { return; }
      r := CreateOutputProofs(proveOutput, coin + |spends|);
    }

    method CreateSpendProofs(prove: (SpendWitness<P>, nat) -> ProofBytes, coin: nat) returns (r: Result<(), ProverError>)
      modifies `spends
      ensures (spends, r) == ProveSpends(c, old(spends), anchor, prove, coin, |old(spends)|)
    {
      for k := 0 to |spends|
        invariant (spends, Ok(())) == ProveSpends(c, old(spends), anchor, prove, coin, k)
      {
        ProveSpendsKeeps(c, old(spends), anchor, prove, coin, k, k);
        match SpendProofWitness(c, spends[k], anchor) {
          case Err(e) =>
            SpendProofsStop(c, old(spends), anchor, prove, coin, k + 1, |spends|);
            return Err(e);
          case Ok(w) =>
            spends := spends[k := spends[k].(zkproof := Some(prove(w, coin + k)))];
        }
      }
      return Ok(());
    }

    method CreateOutputProofs(prove: (OutputWitness, nat) -> ProofBytes, coin: nat) returns (r: Result<(), ProverError>)
      modifies `outputs
      ensures (outputs, r) == ProveOutputs(old(outputs), prove, coin, |old(outputs)|)
    {
      for k := 0 to |outputs|
        invariant (outputs, Ok(())) == ProveOutputs(old(outputs), prove, coin, k)
      {
        ProveOutputsKeeps(old(outputs), prove, coin, k, k);
        match OutputProofWitness(outputs[k]) {
          case Err(e) =>
            OutputProofsStop(old(outputs), prove, coin, k + 1, |outputs|);
            return Err(e);
          case Ok(w) =>
            outputs := outputs[k := outputs[k].(zkproof := Some(prove(w, coin + k)))];
        }
      }
      return Ok(());
    }
  }

  // After a failure the loops stop.
  lemma {:induction false} DummiesStop<P>(sc: Scheme<P>, spends: seq<Spend<P>>, sighash: seq<byte>, coin: nat, n: nat, m: nat)
    requires n <= m <= |spends| && SignDummies(sc, spends, sighash, coin, n).1.Err?
    ensures SignDummies(sc, spends, sighash, coin, m) == SignDummies(sc, spends, sighash, coin, n)
  {
    if n < m { DummiesStop(sc, spends, sighash, coin, n, m - 1); }
  }

  lemma {:induction false} SpendProofsStop<P>(c: Context<P>, spends: seq<Spend<P>>, anchor: int,
                                              prove: (SpendWitness<P>, nat) -> ProofBytes, coin: nat, n: nat, m: nat)
    requires n <= m <= |spends| && ProveSpends(c, spends, anchor, prove, coin, n).1.Err?
    ensures ProveSpends(c, spends, anchor, prove, coin, m) == ProveSpends(c, spends, anchor, prove, coin, n)
  {
    if n < m { SpendProofsStop(c, spends, anchor, prove, coin, n, m - 1); }
  }

  lemma {:induction false} OutputProofsStop<P>(outputs: seq<Output<P>>, prove: (OutputWitness, nat) -> ProofBytes, coin: nat, n: nat, m: nat)
    requires n <= m <= |outputs| && ProveOutputs(outputs, prove, coin, n).1.Err?
    ensures ProveOutputs(outputs, prove, coin, m) == ProveOutputs(outputs, prove, coin, n)
  {
    if n < m { OutputProofsStop(outputs, prove, coin, n, m - 1); }
  }

  // --- construction ---

  function IntoPcztSpend<P>(c: Context<P>, p: PreparedSpend<P>, alpha: Fr): Spend<P> {
    var info := p.info;
    Spend(Derive(c.bases, SpendOpening(p)), c.ops.nullifier(info.note, info.fvk.nk, info.merklePath.position),
          c.schemes.spendAuth.RandomizePublic(info.fvk.ak, alpha), None, None,
          Some(Recipient(info.note.gd, info.note.pkd)), Some(info.note.value), Some(info.note.rcm), Some(p.rcv),
          (match info.dummyExpsk case None => None case Some(expsk) => Some(c.ProofKey(expsk))),
          Some(info.merklePath), Some(alpha),
          match info.dummyExpsk case None => None case Some(expsk) => Some(expsk.ask))
  }

  function IntoPcztOutput<P>(c: Context<P>, p: PreparedOutput): Output<P> {
    var (epk, enc, out) := c.encrypt(p.info, p.note);
    Output(Derive(c.bases, OutputOpening(p)), c.ops.cmu(p.note), epk, enc, out, None,
           Some(Recipient(p.note.gd, p.note.pkd)), Some(p.note.value), Some(p.note.rcm), Some(p.rcv))
  }

  function IntoPczt<P>(c: Context<P>, b: Built<P>, anchor: int, alpha: nat -> Fr): State<P> {
    State(seq(|b.spends|, i requires 0 <= i < |b.spends| => IntoPcztSpend(c, b.spends[i], alpha(i))),
          seq(|b.outputs|, i requires 0 <= i < |b.outputs| => IntoPcztOutput(c, b.outputs[i])),
          b.valueBalance, anchor, None)
  }

  /** Only builders that enforce ZIP 212 build PCZTs. */
  method BuildForPczt<P(!new)>(c: Context<P>, zip212: B.Zip212Enforcement, t: B.BundleType, anchor: int,
                               spends: seq<B.SpendInfo<P>>, outputs: seq<B.OutputInfo>, random: Randomness<P>)
    returns (r: Result<(State<P>, Metadata), B.Error>, ghost built: Built<P>)
    requires IsRandomness(random) && |spends| <= TWO_63 && |outputs| <= TWO_63
    ensures !zip212.On? ==> r == Err(B.PcztRequiresZip212)
    ensures zip212.On? && t.Transactional? ==> if AllAnchorsMatch(c.ops, spends, anchor) then r.Ok? else r == Err(B.AnchorMismatch)
    ensures zip212.On? && t.Coinbase? ==> if spends == [] then r.Ok? else r == Err(B.BundleTypeNotSatisfiable)
    ensures r.Ok? ==> IsBuild(t, spends, outputs, random, built) && r.value == (IntoPczt(c, built, anchor, random.alpha), built.metadata)
  {
    built := Built([], [], ValueSum(0), Metadata([], []));
    match zip212 {
      case On =>
        var b := BuildBundle(c.ops, t, anchor, spends, outputs, random);
        match b {
          case Err(e) => return Err(e), built;
          case Ok(x) => return Ok((IntoPczt(c, x, anchor, random.alpha), x.metadata)), x;
        }
      case _ => return Err(B.PcztRequiresZip212), built;
    }
  }

  lemma BuiltTrapdoorsSet<P>(c: Context<P>, b: Built<P>, anchor: int, alpha: nat -> Fr)
    ensures AllTrapdoorsSet(IntoPczt(c, b, anchor, alpha))
    ensures forall k: nat | k < |b.spends| :: IntoPczt(c, b, anchor, alpha).spends[k] == IntoPcztSpend(c, b.spends[k], alpha(k))
    ensures forall k: nat | k < |b.outputs| :: IntoPczt(c, b, anchor, alpha).outputs[k] == IntoPcztOutput(c, b.outputs[k])
  {
    var st := IntoPczt(c, b, anchor, alpha);
    forall k: nat | k < |b.spends| ensures st.spends[k].rcv == Some(b.spends[k].rcv) {
      assert st.spends[k] == IntoPcztSpend(c, b.spends[k], alpha(k));
    }
    forall k: nat | k < |b.outputs| ensures st.outputs[k].rcv == Some(b.outputs[k].rcv) {
      assert st.outputs[k] == IntoPcztOutput(c, b.outputs[k]);
    }
  }

  lemma {:induction false} SpendSumOfOpenings<P>(spends: seq<Spend<P>>, openings: seq<Opening>, n: nat)
    requires n <= |spends| == |openings| && forall k: nat | k < |spends| :: spends[k].rcv == Some(openings[k].rcv)
    ensures SpendRcvSum(spends, n) == TrapdoorSumTo(openings, n)
  {
    if n > 0 { SpendSumOfOpenings(spends, openings, n - 1); }
  }

  lemma {:induction false} OutputSumOfOpenings<P>(outputs: seq<Output<P>>, openings: seq<Opening>, n: nat)
    requires n <= |outputs| == |openings| && forall k: nat | k < |outputs| :: outputs[k].rcv == Some(openings[k].rcv)
    ensures OutputRcvSum(outputs, n) == TrapdoorSumTo(openings, n)
  {
    if n > 0 { OutputSumOfOpenings(outputs, openings, n - 1); }
  }

  // The trapdoors of a built PCZT open its commitments to its declared sum.
  lemma BuiltPcztBalances<P(!new)>(c: Context<P>, b: Built<P>, anchor: int, alpha: nat -> Fr)
    requires IsContext(c) && Recorded(b) && |b.spends| <= TWO_63 && |b.outputs| <= TWO_63
    requires b.valueBalance.TryIntoI64().Some?
    ensures
      var st := IntoPczt(c, b, anchor, alpha);
      AllTrapdoorsSet(st) && Balanced(c, st.(bsk := Some(BskOf(st))))
  {
    var st := IntoPczt(c, b, anchor, alpha);
    BuiltTrapdoorsSet(c, b, anchor, alpha);
    SpendSumOfOpenings(st.spends, SpendOpenings(b.spends), |b.spends|);
    OutputSumOfOpenings(st.outputs, OutputOpenings(b.outputs), |b.outputs|);
    assert PcztSpendCvs(st.spends) == DeriveAll(c.bases, SpendOpenings(b.spends));
    assert PcztOutputCvs(st.outputs) == DeriveAll(c.bases, OutputOpenings(b.outputs));
    BalanceIff(c.bases, SpendOpenings(b.spends), OutputOpenings(b.outputs), b.valueBalance.TryIntoI64().value);
  }

  /** A PCZT from a builder whose additions all succeeded always passes the IO finalizer. */
  lemma BuiltPcztFinalizes<P(!new)>(c: Context<P>, t: B.BundleType, adds: seq<B.Addition<P>>, random: Randomness<P>, b: Built<P>,
                                    anchor: int, alpha: nat -> Fr, sighash: seq<byte>, coin: nat)
    requires IsContext(c) && |b.spends| <= TWO_63 && |b.outputs| <= TWO_63
    requires forall k: nat | k < |adds| :: B.Succeeds(t, adds, k)
    requires IsBuild(t, B.Run(t, adds, |adds|).spends, B.Run(t, adds, |adds|).outputs, random, b)
    requires (forall k: nat :: DummyKeyedAt(c, random, k))
    requires forall k: nat | k < |B.Run(t, adds, |adds|).spends| :: B.Run(t, adds, |adds|).spends[k].dummyExpsk.None?
    ensures FinalizeIo(c, IntoPczt(c, b, anchor, alpha), sighash, coin).1.Ok?
  {
    var accepted := B.Run(t, adds, |adds|);
    B.SuccessfulRun(t, adds, |adds|);
    BuildRecordsNet(t, accepted.spends, accepted.outputs, random, b);
    BuildIsKeyed(c, t, accepted.spends, accepted.outputs, random, b);
    KeyedPcztFinalizes(c, b, anchor, alpha, sighash, coin);
  }

  lemma KeyedPcztFinalizes<P(!new)>(c: Context<P>, b: Built<P>, anchor: int, alpha: nat -> Fr, sighash: seq<byte>, coin: nat)
    requires IsContext(c) && Recorded(b) && |b.spends| <= TWO_63 && |b.outputs| <= TWO_63
    requires b.valueBalance.TryIntoI64().Some? && forall k: nat | k < |b.spends| :: DummyKeyed(c, b.spends[k])
    ensures FinalizeIo(c, IntoPczt(c, b, anchor, alpha), sighash, coin).1.Ok?
  {
    var st := IntoPczt(c, b, anchor, alpha);
    BuiltPcztBalances(c, b, anchor, alpha);
    forall k: nat | k < |st.spends|
      ensures DummyControlled(c.schemes.spendAuth, st.spends[k])
    {
      assert DummyKeyed(c, b.spends[k]);
      assert st.spends[k] == IntoPcztSpend(c, b.spends[k], alpha(k));
    }
    FinalizeIoIff(c, st, sighash, coin);
  }

  /** Every spend of a built PCZT, dummies included, has no value or a path to the bundle anchor. */
  lemma BuiltSpendsMatchAnchor<P(!new)>(c: Context<P>, t: B.BundleType, spends: seq<B.SpendInfo<P>>, outputs: seq<B.OutputInfo>,
                                        random: Randomness<P>, b: Built<P>, anchor: int, k: nat)
    requires IsBuild(t, spends, outputs, random, b) && IsRandomness(random) && k < |b.spends|
    requires AllAnchorsMatch(c.ops, spends, anchor)
    ensures B.HasMatchingAnchor(c.ops, b.spends[k].info, anchor)
  {
    var infos, indices := Infos(b.spends), b.metadata.spendIndices;
    if k in indices {
      var n: nat :| n < |indices| && indices[n] == k;
      assert infos[k] == spends[n];
    } else {
      assert IsDummySpend(random)(infos[k]);
      var j: nat :| random.dummySpend(j) == infos[k];
      assert DummySpendAt(random, j);
    }
  }

  // --- the in-memory form and the PCZT form ---

  predicate LeadsTo<P>(ops: NoteOps<P>, info: B.SpendInfo<P>, anchor: int) {
    ops.root(info.merklePath, ops.cmu(info.note)) == anchor
  }

  // What the signers of the PCZT are shown, item by item.
  lemma PcztEffects<P>(c: Context<P>, b: Built<P>, anchor: int, alpha: nat -> Fr, accepts: I64 -> bool)
    requires b.valueBalance.TryIntoI64().Some? && accepts(b.valueBalance.TryIntoI64().value) && (b.spends != [] || b.outputs != [])
    ensures
      var st, r := IntoPczt(c, b, anchor, alpha), ExtractEffects(IntoPczt(c, b, anchor, alpha), accepts);
      && r.Ok? && r.value.Some? && r.value.value.valueBalance == b.valueBalance.inner
      && |r.value.value.spends| == |b.spends| && |r.value.value.outputs| == |b.outputs|
      && (forall k: nat | k < |b.spends| :: Ok(r.value.value.spends[k]) == ExtractSpend(st, IntoPcztSpend(c, b.spends[k], alpha(k)), Unit, Unit))
      && (forall k: nat | k < |b.outputs| :: r.value.value.outputs[k] == DescribeOutput(c, b.outputs[k]).Effects())
  {
    var st := IntoPczt(c, b, anchor, alpha);
    BuiltTrapdoorsSet(c, b, anchor, alpha);
    ExtractSpendsIff(st, Unit<Spend<P>>, Unit<Spend<P>>, |st.spends|);
    ExtractOutputsIff(st.outputs, Unit<Output<P>>, |st.outputs|);
    var e := ExtractEffects(st, accepts).value.value;
    forall k: nat | k < |b.outputs| ensures e.outputs[k] == DescribeOutput(c, b.outputs[k]).Effects() {
      assert e.outputs[k] == e.outputs[k].Effects();
    }
  }

  // One spend: only the anchors can differ, the bundle's and the root of the spend's own path.
  lemma SpendFormsDiffer<P>(c: Context<P>, extsks: seq<ExpandedSpendingKey>, p: PreparedSpend<P>, alpha: Fr, d: UnprovenSpend<P>, st: State<P>)
    requires SpendResult(c, extsks, p, alpha) == Ok(d)
    ensures ExtractSpend(st, IntoPcztSpend(c, p, alpha), Unit, Unit) == Ok(d.Effects().(anchor := st.anchor))
    ensures d.Effects().(anchor := st.anchor) == d.Effects() <==> LeadsTo(c.ops, p.info, st.anchor)
    ensures IntoPcztSpend(c, p, alpha).dummyAsk == d.spendAuthSig.dummyAsk
  {
  }

  /** Once a real spend is given its proof generation key, the PCZT prover has the witness of the
  in-memory form, but for the anchor; a dummy brings its key along. */
  lemma PcztSpendWitness<P>(c: Context<P>, extsks: seq<ExpandedSpendingKey>, p: PreparedSpend<P>, alpha: Fr, d: UnprovenSpend<P>, anchor: int)
    requires SpendResult(c, extsks, p, alpha) == Ok(d)
    ensures IntoPcztSpend(c, p, alpha).proofGenerationKey == if p.info.dummyExpsk.Some? then Some(d.zkproof.key) else None
    ensures IntoPcztSpend(c, p, alpha).zkproof.None? && IntoPcztSpend(c, p, alpha).spendAuthSig.None?
    ensures
      var keyed := IntoPcztSpend(c, p, alpha).(proofGenerationKey := Some(d.zkproof.key));
      SpendReady(c, keyed) && SpendWitnessOf(c, keyed, anchor) == d.zkproof.(anchor := anchor)
  {
  }

  // The PCZT prover has the in-memory witness of every output, and nothing is signed or proven yet.
  lemma PcztOutputWitness<P>(c: Context<P>, p: PreparedOutput)
    ensures OutputReady(IntoPcztOutput(c, p)) && OutputWitnessOf(IntoPcztOutput(c, p)) == DescribeOutput(c, p).zkproof
    ensures IntoPcztOutput(c, p).zkproof.None?
  {
  }

  /** Both forms of a build made with the same random choices are the same transaction exactly when
  every spend of no value, dummies included, has a path to the bundle's anchor: the in-memory form
  gives such a spend the root of its own path, the PCZT form the anchor of the bundle. */
  lemma BothFormsAgreeIff<P(!new)>(c: Context<P>, t: B.BundleType, spends: seq<B.SpendInfo<P>>, outputs: seq<B.OutputInfo>,
                                   random: Randomness<P>, b: Built<P>, anchor: int, extsks: seq<ExpandedSpendingKey>,
                                   bundle: Unauthorized<P>, accepts: I64 -> bool)
    requires IsBuild(t, spends, outputs, random, b) && IsRandomness(random) && AllAnchorsMatch(c.ops, spends, anchor)
    requires ItemsDescribed(c, b, extsks, random.alpha, bundle) && IsFinished(c, b, bundle)
    requires accepts(bundle.valueBalance) && (b.spends != [] || b.outputs != [])
    ensures ExtractEffects(IntoPczt(c, b, anchor, random.alpha), accepts) == Ok(Some(bundle.Effects()))
            <==> forall k: nat | k < |b.spends| && b.spends[k].info.note.value == 0 :: LeadsTo(c.ops, b.spends[k].info, anchor)
  {
    var st := IntoPczt(c, b, anchor, random.alpha);
    PcztEffects(c, b, anchor, random.alpha, accepts);
    var e, f := ExtractEffects(st, accepts).value.value, bundle.Effects();
    forall k: nat | k < |b.spends|
      ensures e.spends[k] == f.spends[k] <==> b.spends[k].info.note.value != 0 || LeadsTo(c.ops, b.spends[k].info, anchor)
    {
      SpendFormsDiffer(c, extsks, b.spends[k], random.alpha(k), bundle.spends[k], st);
      BuiltSpendsMatchAnchor(c, t, spends, outputs, random, b, anchor, k);
    }
    forall k: nat | k < |b.outputs| ensures e.outputs[k] == f.outputs[k] {
    }
    SameEffectsIff(e, f);
  }

  lemma SameEffectsIff<P>(e: Bundle<P, (), (), (), ()>, f: Bundle<P, (), (), (), ()>)
    requires |e.spends| == |f.spends| && |e.outputs| == |f.outputs| && e.valueBalance == f.valueBalance
    requires forall k: nat | k < |e.outputs| :: e.outputs[k] == f.outputs[k]
    ensures e == f <==> forall k: nat | k < |e.spends| :: e.spends[k] == f.spends[k]
  {
    assert e.outputs == f.outputs && e.authorization == f.authorization;
    if forall k: nat | k < |e.spends| :: e.spends[k] == f.spends[k] { assert e.spends == f.spends; }
  }

  // A dummy of no value is admitted for any anchor, and whenever its own path leads elsewhere the two
  // forms have different effects.
  lemma DummyFormsDiffer<P(!new)>(c: Context<P>, expsk: ExpandedSpendingKey, note: Note, path: MerklePath, rcv: Fr, alpha: Fr, st: State<P>)
    requires note.value == 0 && c.prepares(c.ProofKey(expsk), note)
    requires c.ops.root(path, c.ops.cmu(note)) != st.anchor
    ensures
      var p := PreparedSpend(B.SpendInfo(c.Fvk(expsk), note, path, Some(expsk)), rcv);
      && DummyKeyed(c, p) && B.HasMatchingAnchor(c.ops, p.info, st.anchor)
      && SpendResult(c, [], p, alpha).Ok?
      && ExtractSpend(st, IntoPcztSpend(c, p, alpha), Unit, Unit) != Ok(SpendResult(c, [], p, alpha).value.Effects())
  {
    var p := PreparedSpend(B.SpendInfo(c.Fvk(expsk), note, path, Some(expsk)), rcv);
    SpendFormsDiffer(c, [], p, alpha, SpendResult(c, [], p, alpha).value, st);
  }

  lemma NativeRoot<P(!new)>(s: Sapling<P>, ops: NoteOps<P>, note: Note, path: MerklePath)
    requires IsSapling(s) && AreNoteOps(s, ops) && note.Valid() && path.Valid(s.curve.params.field.q)
    ensures ops.root(path, ops.cmu(note)) == Root(s, path, Cmu(s, note))
  {
    assert CmuAt(s, ops, note) && RootAt(s, ops, path, Cmu(s, note));
  }

  function NextElement(q: int, x: int): int
    requires q > 0
  {
    if x + 1 == q then 0 else x + 1
  }

  // With the real commitment and tree, the field element after the root of the dummy's own path is such
  // an anchor.
  lemma NativeDummyFormsDiffer<P(!new)>(s: Sapling<P>, c: Context<P>, expsk: ExpandedSpendingKey, note: Note, path: MerklePath,
                                        rcv: Fr, alpha: Fr, st: State<P>)
    requires IsSapling(s) && AreNoteOps(s, c.ops) && note.Valid() && path.Valid(s.curve.params.field.q)
    requires note.value == 0 && c.prepares(c.ProofKey(expsk), note)
    requires st.anchor == NextElement(s.curve.params.field.q, Root(s, path, Cmu(s, note)))
    ensures 0 <= st.anchor < s.curve.params.field.q
    ensures
      var p := PreparedSpend(B.SpendInfo(c.Fvk(expsk), note, path, Some(expsk)), rcv);
      && B.HasMatchingAnchor(c.ops, p.info, st.anchor) && SpendResult(c, [], p, alpha).Ok?
      && ExtractSpend(st, IntoPcztSpend(c, p, alpha), Unit, Unit) != Ok(SpendResult(c, [], p, alpha).value.Effects())
  {
    var root := Root(s, path, Cmu(s, note));
    NativeRoot(s, c.ops, note, path);
    assert st.anchor != root;
    DummyFormsDiffer(c, expsk, note, path, rcv, alpha, st);
  }

  /** So the conditional anchor constraint of the circuit is satisfiable for it: any wire for the
  computed root satisfies the constraint with the anchor and value that the prover is given. */
  lemma BuiltSpendsSatisfyCircuit<P(!new)>(s: Sapling<P>, c: Context<P>, info: B.SpendInfo<P>, anchor: int, root: int)
    requires IsSapling(s) && AreNoteOps(s, c.ops) && B.HasMatchingAnchor(c.ops, info, anchor)
    requires info.note.Valid() && info.merklePath.Valid(s.curve.params.field.q) && 0 <= anchor < s.curve.params.field.q
    requires Canonical(s.curve.params.field.q, root) == Root(s, info.merklePath, Cmu(s, info.note))
    ensures AnchorConstraint(s.curve.params, root, anchor, info.note.value)
  {
    assert CmuAt(s, c.ops, info.note);
    assert RootAt(s, c.ops, info.merklePath, Cmu(s, info.note));
    CanonicalSmall(s.curve.params.field.q, anchor);
    AnchorConstraintIff(s.curve.params, root, anchor, info.note.value);
  }

  // --- to a transaction ---

  // The proofs and spend signatures that the state holds.
  ghost predicate CarriesProofs<P>(st: State<P>, final: Checked<P>) {
    && |final.spends| == |st.spends| && |final.outputs| == |st.outputs|
    && (forall k: nat | k < |st.spends| ::
          Some(final.spends[k].zkproof) == st.spends[k].zkproof && Some(final.spends[k].spendAuthSig) == st.spends[k].spendAuthSig)
    && (forall k: nat | k < |st.outputs| :: Some(final.outputs[k].zkproof) == st.outputs[k].zkproof)
  }

  /** From a balanced state (as the IO finalizer leaves it), through any acts of signers and provers,
  to an extracted and bound bundle: it has the effects that were fixed before and the proofs and
  signatures of the last state, all its signatures verify, and only its proofs and the small-order tests on rk and on ephemeral keys decide whether the
  verifier accepts it. */
  lemma PcztLifecycle<P(!new)>(c: Context<P>, lib: Libraries<P>, st: State<P>, roles: seq<Role<P>>, accepts: I64 -> bool,
                               sighash: seq<byte>, coin: nat)
    requires IsContext(c) && lib.bases == c.bases && lib.schemes == c.schemes && Balanced(c, st)
    requires Extract(ActAll(c, st, roles), accepts).Ok? && Extract(ActAll(c, st, roles), accepts).value.Some?
    requires ApplyBindingSignature(c.schemes, Extract(ActAll(c, st, roles), accepts).value.value, sighash, coin).Some?
    ensures
      var final := ApplyBindingSignature(c.schemes, Extract(ActAll(c, st, roles), accepts).value.value, sighash, coin).value;
      && ExtractEffects(st, accepts) == Ok(Some(final.Effects()))
      && CarriesProofs(ActAll(c, st, roles), final)
      && (Accepted(lib, final, sighash) <==> ProofsAccepted(lib, final))
  {
    var last := ActAll(c, st, roles);
    var b := Extract(last, accepts).value.value;
    var final := ApplyBindingSignature(c.schemes, b, sighash, coin).value;
    ActAllKeepsCore(c, st, roles);
    CoreDecides(c, last, st, accepts);
    ExtractIff(last, accepts);
    ApplyBindingIff(c.schemes, b, sighash, coin);
    assert final.Effects() == b.Effects();
    ExtractedKey(c, lib, last, accepts, final);
    SignedAccepted(lib, final, sighash);
  }

  // The verifier's key of an extracted bundle is the key of the stored bsk.
  lemma ExtractedKey<P(!new)>(c: Context<P>, lib: Libraries<P>, st: State<P>, accepts: I64 -> bool, final: Checked<P>)
    requires IsContext(c) && lib.bases == c.bases && Balanced(c, st)
    requires Extract(st, accepts).Ok? && Extract(st, accepts).value.Some?
    requires final.Effects() == Extract(st, accepts).value.value.Effects()
    ensures Bvk(lib, final) == BindingKey(c.bases, st.bsk.value)
  {
    var b := Extract(st, accepts).value.value;
    EffectsFixCvs(final, b);
    ExtractSpendsIff(st, SpendProofSet<P>, SpendAuthSet<P>, |st.spends|);
    ExtractOutputsIff(st.outputs, OutputProofSet<P>, |st.outputs|);
    forall k: nat | k < |st.spends| ensures b.spends[k].cv == st.spends[k].cv {
      assert Ok(b.spends[k]) == ExtractSpend(st, st.spends[k], SpendProofSet<P>, SpendAuthSet<P>);
    }
    forall k: nat | k < |st.outputs| ensures b.outputs[k].cv == st.outputs[k].cv {
      assert b.outputs[k].Effects().cv == st.outputs[k].cv;
    }
    assert SpendCvs(b.spends) == PcztSpendCvs(st.spends);
    assert OutputCvs(b.outputs) == PcztOutputCvs(st.outputs);
    BvkOfCvs(lib, final);
  }
}
