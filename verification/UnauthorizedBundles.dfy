/** From a build to an unauthorized bundle: proof generation keys, descriptions, the binding key and
its consistency assertion; and from there to a bundle that the verifier accepts. */
module UnauthorizedBundles {
  import opened Wrappers
  import opened Bytes
  import opened Groups
  import opened Scalars
  import opened ValueBalance
  import opened NoteTree
  import opened SpendCircuit
  import opened Bundles
  import S = Signing
  import opened Keys
  import opened Builder
  import opened BundleBuilder
  import opened Verifier
  import opened BatchValidation

  datatype ProofGenerationKey<P> = ProofGenerationKey(ak: P, nsk: Fr)

  /** Keys, the note computations, output encryption and the provers' preparation. */
  datatype Context<!P> = Context(schemes: S.Schemes<P>, proofGenerationBase: P, bases: Bases<P>, ops: NoteOps<P>,
                                 prepares: (ProofGenerationKey<P>, Note) -> bool,
                                 encrypt: (OutputInfo, Note) -> (seq<byte>, seq<byte>, seq<byte>)) {
    function ProofKey(expsk: ExpandedSpendingKey): ProofGenerationKey<P> {
      ProofGenerationKey(schemes.spendAuth.PublicKey(expsk.ask), expsk.nsk)
    }

    function Nk(nsk: Fr): P {
      Mul(schemes.spendAuth.group, nsk, proofGenerationBase)
    }

    function Fvk(expsk: ExpandedSpendingKey): FullViewingKey<P> {
      FullViewingKey(schemes.spendAuth.PublicKey(expsk.ask), Nk(expsk.nsk), expsk.ovk)
    }
  }

  // One group throughout; the binding signatures' base is the randomness base of the commitments.
  ghost predicate IsContext<P(!new)>(c: Context<P>) {
    && S.AreSchemes(c.schemes)
    && AreBases(c.bases)
    && c.schemes.binding.group == c.bases.group
    && c.schemes.binding.base == c.bases.randomness
  }

  datatype SpendWitness<P> = SpendWitness(key: ProofGenerationKey<P>, note: Note, alpha: Fr, rcv: Fr, anchor: int, path: MerklePath)

  datatype OutputWitness = OutputWitness(note: Note, rcv: Fr)

  type Unauthorized<P> = S.UnsignedBundle<P, SpendWitness<P>, OutputWitness>
  type UnprovenSpend<P> = SpendDescription<P, SpendWitness<P>, S.SigningMetadata<P>>

  // The proof generation key of the first spending key with this viewing key.
  function FindKey<P(==)>(c: Context<P>, extsks: seq<ExpandedSpendingKey>, fvk: FullViewingKey<P>): Option<ProofGenerationKey<P>> {
    if extsks == [] then None
    else if c.Fvk(extsks[0]) == fvk then Some(c.ProofKey(extsks[0]))
    else FindKey(c, extsks[1..], fvk)
  }

  lemma {:induction false} FindKeyIff<P>(c: Context<P>, extsks: seq<ExpandedSpendingKey>, fvk: FullViewingKey<P>)
    ensures FindKey(c, extsks, fvk).Some? <==> exists k: nat :: k < |extsks| && c.Fvk(extsks[k]) == fvk
    ensures FindKey(c, extsks, fvk).Some? ==>
              FindKey(c, extsks, fvk).value.ak == fvk.ak && c.Nk(FindKey(c, extsks, fvk).value.nsk) == fvk.nk
  {
    if extsks != [] && c.Fvk(extsks[0]) != fvk {
      FindKeyIff(c, extsks[1..], fvk);
      if FindKey(c, extsks, fvk).Some? {
        var k: nat :| k < |extsks[1..]| && c.Fvk(extsks[1..][k]) == fvk;
        assert c.Fvk(extsks[k + 1]) == fvk;
      }
      if exists k: nat :: k < |extsks| && c.Fvk(extsks[k]) == fvk {
        var k: nat :| k < |extsks| && c.Fvk(extsks[k]) == fvk;
        assert extsks[1..][k - 1] == extsks[k];
      }
    }
  }

  ghost predicate FirstKey<P>(c: Context<P>, extsks: seq<ExpandedSpendingKey>, fvk: FullViewingKey<P>, k: nat) {
    k < |extsks| && c.Fvk(extsks[k]) == fvk && forall i: nat | i < k :: c.Fvk(extsks[i]) != fvk
  }

  lemma {:induction false} FindsFirstKey<P>(c: Context<P>, extsks: seq<ExpandedSpendingKey>, fvk: FullViewingKey<P>, k: nat)
    requires FirstKey(c, extsks, fvk, k)
    ensures FindKey(c, extsks, fvk) == Some(c.ProofKey(extsks[k]))
  {
    if k > 0 {
      assert forall i: nat | i < k :: extsks[1..][i] == extsks[i + 1];
      FindsFirstKey(c, extsks[1..], fvk, k - 1);
    }
  }

  // Some spending key has the viewing key, so a first one does.
  lemma {:induction false} FirstKeyExists<P>(c: Context<P>, extsks: seq<ExpandedSpendingKey>, fvk: FullViewingKey<P>, n: nat)
    requires n < |extsks| && c.Fvk(extsks[n]) == fvk
    ensures exists k: nat :: FirstKey(c, extsks, fvk, k)
  {
    if i: nat :| i < n && c.Fvk(extsks[i]) == fvk {
      FirstKeyExists(c, extsks, fvk, i);
    } else {
      assert FirstKey(c, extsks, fvk, n);
    }
  }

  function SpendOpening<P>(p: PreparedSpend<P>): Opening {
    Opening(p.info.note.value, p.rcv)
  }

  function OutputOpening(p: PreparedOutput): Opening {
    Opening(p.note.value, p.rcv)
  }

  function Describe<P>(c: Context<P>, p: PreparedSpend<P>, key: ProofGenerationKey<P>, alpha: Fr): UnprovenSpend<P> {
    var info := p.info;
    var anchor := c.ops.root(info.merklePath, c.ops.cmu(info.note));
    SpendDescription(Derive(c.bases, SpendOpening(p)), anchor,
                     c.ops.nullifier(info.note, info.fvk.nk, info.merklePath.position),
                     c.schemes.spendAuth.RandomizePublic(info.fvk.ak, alpha),
                     SpendWitness(key, info.note, alpha, p.rcv, anchor, info.merklePath),
                     S.SigningMetadata(match info.dummyExpsk case None => None case Some(expsk) => Some(expsk.ask),
                                       S.SigningParts(info.fvk.ak, alpha)))
  }

  function BuildSpend<P(==)>(c: Context<P>, p: PreparedSpend<P>, supplied: Option<ProofGenerationKey<P>>, alpha: Fr)
    : Result<UnprovenSpend<P>, Error> {
    match (supplied, p.info.dummyExpsk)
    case (Some(_), Some(_)) => Err(WrongSpendingKey)
    case (None, None) => Err(MissingSpendingKey)
    case (Some(key), None) => FinishSpend(c, p, key, alpha)
    case (None, Some(expsk)) => FinishSpend(c, p, c.ProofKey(expsk), alpha)
  }

  function FinishSpend<P(==)>(c: Context<P>, p: PreparedSpend<P>, key: ProofGenerationKey<P>, alpha: Fr)
    : Result<UnprovenSpend<P>, Error> {
    if key.ak != p.info.fvk.ak || c.Nk(key.nsk) != p.info.fvk.nk then Err(WrongSpendingKey)
    else if !c.prepares(key, p.info.note) then Err(SpendProof)
    else Ok(Describe(c, p, key, alpha))
  }

  // Keys are looked up for real spends only.
  function SpendResult<P(==)>(c: Context<P>, extsks: seq<ExpandedSpendingKey>, p: PreparedSpend<P>, alpha: Fr)
    : Result<UnprovenSpend<P>, Error> {
    BuildSpend(c, p, if p.info.dummyExpsk.None? then FindKey(c, extsks, p.info.fvk) else None, alpha)
  }

  // A dummy's viewing key comes from its own spending key.
  ghost predicate DummyKeyed<P>(c: Context<P>, p: PreparedSpend<P>) {
    p.info.dummyExpsk.Some? ==> c.Fvk(p.info.dummyExpsk.value) == p.info.fvk
  }

  ghost predicate HasKey<P>(c: Context<P>, extsks: seq<ExpandedSpendingKey>, p: PreparedSpend<P>) {
    p.info.dummyExpsk.Some? || exists k: nat :: FirstKey(c, extsks, p.info.fvk, k)
  }

  // The prover accepts the note with a dummy's own key, or with the first spending key that has the
  // viewing key of the spend.
  ghost predicate Buildable<P>(c: Context<P>, extsks: seq<ExpandedSpendingKey>, p: PreparedSpend<P>) {
    match p.info.dummyExpsk
    case Some(expsk) => c.prepares(c.ProofKey(expsk), p.info.note)
    case None => exists k: nat :: FirstKey(c, extsks, p.info.fvk, k) && c.prepares(c.ProofKey(extsks[k]), p.info.note)
  }

  // A real spend without a key is told apart from one that the prover refuses.
  ghost function BuildError<P>(c: Context<P>, extsks: seq<ExpandedSpendingKey>, p: PreparedSpend<P>): Error {
    if HasKey(c, extsks, p) then SpendProof else MissingSpendingKey
  }

  /** Building a spend succeeds exactly when there is a key and the prover accepts it with the note; a
  wrong key is never chosen. */
  lemma SpendResultIff<P(!new)>(c: Context<P>, extsks: seq<ExpandedSpendingKey>, p: PreparedSpend<P>, alpha: Fr)
    requires DummyKeyed(c, p)
    ensures SpendResult(c, extsks, p, alpha).Ok? <==> Buildable(c, extsks, p)
    ensures SpendResult(c, extsks, p, alpha).Err? ==> SpendResult(c, extsks, p, alpha).error == BuildError(c, extsks, p)
    ensures SpendResult(c, extsks, p, alpha).Ok? ==>
              && SpendResult(c, extsks, p, alpha).value.cv == Derive(c.bases, SpendOpening(p))
              && SpendConsistent(c, SpendResult(c, extsks, p, alpha).value)
  {
    FindKeyIff(c, extsks, p.info.fvk);
    if n: nat :| n < |extsks| && c.Fvk(extsks[n]) == p.info.fvk {
      FirstKeyExists(c, extsks, p.info.fvk, n);
    }
    forall k: nat | FirstKey(c, extsks, p.info.fvk, k)
      ensures FindKey(c, extsks, p.info.fvk) == Some(c.ProofKey(extsks[k]))
    {
      FindsFirstKey(c, extsks, p.info.fvk, k);
    }
  }

  ghost predicate SpendConsistent<P>(c: Context<P>, d: UnprovenSpend<P>) {
    var m := d.spendAuthSig;
    && d.rk == c.schemes.spendAuth.RandomizePublic(m.parts.ak, m.parts.alpha)
    && (m.dummyAsk.Some? ==> c.schemes.spendAuth.PublicKey(m.dummyAsk.value) == m.parts.ak)
  }

  function SpendOpenings<P>(spends: seq<PreparedSpend<P>>): (r: seq<Opening>)
    ensures |r| == |spends|
  {
    seq(|spends|, i requires 0 <= i < |spends| => SpendOpening(spends[i]))
  }

  function OutputOpenings(outputs: seq<PreparedOutput>): (r: seq<Opening>)
    ensures |r| == |outputs|
  {
    seq(|outputs|, i requires 0 <= i < |outputs| => OutputOpening(outputs[i]))
  }

  // The error of the first spend that fails.
  ghost predicate FirstError<P>(c: Context<P>, extsks: seq<ExpandedSpendingKey>, spends: seq<PreparedSpend<P>>, e: Error) {
    exists k: nat :: k < |spends| && !Buildable(c, extsks, spends[k]) && e == BuildError(c, extsks, spends[k])
                     && forall j: nat | j < k :: Buildable(c, extsks, spends[j])
  }

  method BuildSpends<P(!new, ==)>(c: Context<P>, extsks: seq<ExpandedSpendingKey>, spends: seq<PreparedSpend<P>>, alpha: nat -> Fr)
    returns (r: Result<seq<UnprovenSpend<P>>, Error>)
    requires forall k: nat | k < |spends| :: DummyKeyed(c, spends[k])
    ensures r.Ok? <==> forall k: nat | k < |spends| :: Buildable(c, extsks, spends[k])
    ensures r.Err? ==> FirstError(c, extsks, spends, r.error)
    ensures r.Ok? ==> SpendCvs(r.value) == DeriveAll(c.bases, SpendOpenings(spends))
    ensures r.Ok? ==> forall k: nat | k < |spends| :: Ok(r.value[k]) == SpendResult(c, extsks, spends[k], alpha(k))
  {
    var built: seq<UnprovenSpend<P>> := [];
    for i := 0 to |spends|
      invariant |built| == i && forall k: nat | k < i :: Ok(built[k]) == SpendResult(c, extsks, spends[k], alpha(k))
      invariant forall k: nat | k < i :: Buildable(c, extsks, spends[k])
    {
      SpendResultIff(c, extsks, spends[i], alpha(i));
      var d := SpendResult(c, extsks, spends[i], alpha(i));
      if d.Err? { return Err(d.error); }
      built := built + [d.value];
    }
    forall k: nat | k < |spends| ensures built[k].cv == Derive(c.bases, SpendOpening(spends[k])) {
      SpendResultIff(c, extsks, spends[k], alpha(k));
    }
    r := Ok(built);
  }

  function DescribeOutput<P>(c: Context<P>, p: PreparedOutput): OutputDescription<P, OutputWitness> {
    var (epk, enc, out) := c.encrypt(p.info, p.note);
    OutputDescription(Derive(c.bases, OutputOpening(p)), c.ops.cmu(p.note), epk, enc, out, OutputWitness(p.note, p.rcv))
  }

  method BuildOutputs<P>(c: Context<P>, outputs: seq<PreparedOutput>) returns (r: seq<OutputDescription<P, OutputWitness>>)
    ensures |r| == |outputs| && forall k: nat | k < |r| :: r[k] == DescribeOutput(c, outputs[k])
    ensures OutputCvs(r) == DeriveAll(c.bases, OutputOpenings(outputs))
  {
    r := [];
    for i := 0 to |outputs|
      invariant |r| == i && forall k: nat | k < i :: r[k] == DescribeOutput(c, outputs[k])
    {
      r := r + [DescribeOutput(c, outputs[i])];
    }
  }

  // Every description is that of the item at its position.
  ghost predicate ItemsDescribed<P>(c: Context<P>, b: Built<P>, extsks: seq<ExpandedSpendingKey>, alpha: nat -> Fr, bundle: Unauthorized<P>) {
    && |bundle.spends| == |b.spends| && |bundle.outputs| == |b.outputs|
    && (forall k: nat | k < |b.spends| :: Ok(bundle.spends[k]) == SpendResult(c, extsks, b.spends[k], alpha(k)))
    && (forall k: nat | k < |b.outputs| :: bundle.outputs[k] == DescribeOutput(c, b.outputs[k]))
  }

  /** A described spend reveals the native nullifier of its note and position and its own root as
  anchor, is proven with the key of its viewing key, and satisfies the circuit's anchor constraint. */
  lemma DescribedSpend<P(!new)>(s: Sapling<P>, c: Context<P>, extsks: seq<ExpandedSpendingKey>, p: PreparedSpend<P>, alpha: Fr,
                                d: UnprovenSpend<P>, root: int)
    requires IsSapling(s) && AreNoteOps(s, c.ops) && SpendResult(c, extsks, p, alpha) == Ok(d)
    requires p.info.note.Valid() && p.info.merklePath.Valid(s.curve.params.field.q)
    requires Canonical(s.curve.params.field.q, root) == Root(s, p.info.merklePath, Cmu(s, p.info.note))
    ensures d.nullifier == s.prfNf(p.info.fvk.nk, MixingPedersenHash(s, CommitNote(s, p.info.note), p.info.merklePath.position))
    ensures d.anchor == d.zkproof.anchor == Root(s, p.info.merklePath, Cmu(s, p.info.note))
    ensures d.zkproof.key.ak == p.info.fvk.ak && c.Nk(d.zkproof.key.nsk) == p.info.fvk.nk
    ensures d.zkproof.note == p.info.note && d.zkproof.rcv == p.rcv && d.zkproof.path == p.info.merklePath
    ensures AnchorConstraint(s.curve.params, root, d.zkproof.anchor, p.info.note.value)
  {
    var note, path := p.info.note, p.info.merklePath;
    assert CmuAt(s, c.ops, note) && RootAt(s, c.ops, path, Cmu(s, note));
    assert NullifierAt(s, c.ops, note, p.info.fvk.nk, path.position);
    CanonicalSmall(s.curve.params.field.q, d.anchor);
    AnchorConstraintIff(s.curve.params, root, d.anchor, note.value);
  }

  // What is exposed of a spend is what its proof witness opens: the randomized key, the commitment and
  // the nullifier belong to the key, randomizer, trapdoor, note and position that the prover is given.
  ghost predicate SpendOpens<P>(c: Context<P>, d: UnprovenSpend<P>) {
    var w := d.zkproof;
    && d.rk == c.schemes.spendAuth.RandomizePublic(w.key.ak, w.alpha)
    && d.cv == Derive(c.bases, Opening(w.note.value, w.rcv))
    && d.nullifier == c.ops.nullifier(w.note, c.Nk(w.key.nsk), w.path.position)
    && d.anchor == w.anchor == c.ops.root(w.path, c.ops.cmu(w.note))
  }

  ghost predicate OutputOpens<P>(c: Context<P>, d: OutputDescription<P, OutputWitness>) {
    d.cv == Derive(c.bases, Opening(d.zkproof.note.value, d.zkproof.rcv)) && d.cmu == c.ops.cmu(d.zkproof.note)
  }

  ghost predicate WitnessesOpen<P>(c: Context<P>, bundle: Unauthorized<P>) {
    && (forall k: nat | k < |bundle.spends| :: SpendOpens(c, bundle.spends[k]))
    && (forall k: nat | k < |bundle.outputs| :: OutputOpens(c, bundle.outputs[k]))
  }

  lemma DescribedSpendOpens<P(!new)>(c: Context<P>, extsks: seq<ExpandedSpendingKey>, p: PreparedSpend<P>, alpha: Fr, d: UnprovenSpend<P>)
    requires SpendResult(c, extsks, p, alpha) == Ok(d)
    ensures SpendOpens(c, d)
    ensures d.zkproof.note == p.info.note && d.zkproof.rcv == p.rcv && d.zkproof.alpha == alpha && d.zkproof.path == p.info.merklePath
    ensures d.spendAuthSig.parts == S.SigningParts(d.zkproof.key.ak, d.zkproof.alpha)
    ensures d.spendAuthSig.dummyAsk == match p.info.dummyExpsk case None => None case Some(expsk) => Some(expsk.ask)
  {
  }

  /** A described output is proven with the built note and its trapdoor, which open what it exposes, and
  carries the ephemeral key and the ciphertexts of that note. */
  lemma DescribedOutput<P(!new)>(s: Sapling<P>, c: Context<P>, p: PreparedOutput)
    requires IsSapling(s) && AreNoteOps(s, c.ops) && p.note.Valid()
    ensures
      var d := DescribeOutput(c, p);
      && OutputOpens(c, d) && d.zkproof == OutputWitness(p.note, p.rcv) && d.cmu == Cmu(s, d.zkproof.note)
      && (d.ephemeralKey, d.encCiphertext, d.outCiphertext) == c.encrypt(p.info, d.zkproof.note)
  {
    assert CmuAt(s, c.ops, p.note);
  }

  // Every witness is that of the built item at its position.
  ghost predicate WitnessesBuilt<P>(b: Built<P>, bundle: Unauthorized<P>)
    requires |bundle.spends| == |b.spends| && |bundle.outputs| == |b.outputs|
  {
    && (forall k: nat | k < |b.spends| ::
          var w, p := bundle.spends[k].zkproof, b.spends[k];
          w.note == p.info.note && w.rcv == p.rcv && w.path == p.info.merklePath)
    && (forall k: nat | k < |b.outputs| :: bundle.outputs[k].zkproof == OutputWitness(b.outputs[k].note, b.outputs[k].rcv))
  }

  lemma DescribedOpen<P(!new)>(c: Context<P>, b: Built<P>, extsks: seq<ExpandedSpendingKey>, alpha: nat -> Fr, bundle: Unauthorized<P>)
    requires ItemsDescribed(c, b, extsks, alpha, bundle)
    ensures WitnessesOpen(c, bundle) && WitnessesBuilt(b, bundle)
  {
    forall k: nat | k < |b.spends|
      ensures SpendOpens(c, bundle.spends[k])
      ensures bundle.spends[k].zkproof.note == b.spends[k].info.note && bundle.spends[k].zkproof.rcv == b.spends[k].rcv
      ensures bundle.spends[k].zkproof.path == b.spends[k].info.merklePath
    {
      DescribedSpendOpens(c, extsks, b.spends[k], alpha(k), bundle.spends[k]);
    }
    forall k: nat | k < |b.outputs|
      ensures OutputOpens(c, bundle.outputs[k]) && bundle.outputs[k].zkproof == OutputWitness(b.outputs[k].note, b.outputs[k].rcv)
    {
      assert bundle.outputs[k] == DescribeOutput(c, b.outputs[k]);
    }
  }

  // The value that the build recorded is the net of its openings.
  ghost predicate Recorded<P>(b: Built<P>) {
    b.valueBalance.inner == Total(Values(SpendOpenings(b.spends))) - Total(Values(OutputOpenings(b.outputs)))
  }

  /** The descriptions, the binding key and the value balance; None stands for the failure of the
  assertion that signing and verification keys agree, which never happens. */
  method FinishBundle<P(!new, ==)>(c: Context<P>, b: Built<P>, extsks: seq<ExpandedSpendingKey>, alpha: nat -> Fr, accepts: I64 -> bool)
    returns (r: Option<Result<Option<Unauthorized<P>>, Error>>)
    requires IsContext(c) && Recorded(b) && |b.spends| <= TWO_63 && |b.outputs| <= TWO_63
    requires forall k: nat | k < |b.spends| :: DummyKeyed(c, b.spends[k])
    ensures r.Some?
    ensures r.value.Ok? <==>
              && b.valueBalance.TryIntoI64().Some? && accepts(b.valueBalance.TryIntoI64().value)
              && forall k: nat | k < |b.spends| :: Buildable(c, extsks, b.spends[k])
    ensures b.valueBalance.TryIntoI64().None? ==> r.value == Err(InvalidAmount)
    ensures b.valueBalance.TryIntoI64().Some? && !(forall k: nat | k < |b.spends| :: Buildable(c, extsks, b.spends[k]))
            ==> r.value.Err? && FirstError(c, extsks, b.spends, r.value.error)
    ensures b.valueBalance.TryIntoI64().Some? && (forall k: nat | k < |b.spends| :: Buildable(c, extsks, b.spends[k])) && r.value.Err?
            ==> r.value == Err(InvalidAmount)
    ensures r.value.Ok? ==> (r.value.value.None? <==> b.spends == [] && b.outputs == [])
    ensures r.value.Ok? && r.value.value.Some? ==> IsFinished(c, b, r.value.value.value)
    ensures r.value.Ok? && r.value.value.Some? ==>
              var bundle := r.value.value.value;
              ItemsDescribed(c, b, extsks, alpha, bundle) && WitnessesOpen(c, bundle) && WitnessesBuilt(b, bundle)
  {
    var valueBalance := b.valueBalance.TryIntoI64();
    if valueBalance.None? { return Some(Err(InvalidAmount)); }
    var bsk := Bsk(SpendOpenings(b.spends), OutputOpenings(b.outputs));
    var spends := BuildSpends(c, extsks, b.spends, alpha);
    if spends.Err? { return Some(Err(spends.error)); }
    var outputs := BuildOutputs(c, b.outputs);
    KeysAgree(c, b, spends.value, outputs, valueBalance.value);
    var sum := Sub(c.bases.group, CommitmentSum(c.bases.group, SpendCvs(spends.value)),
                   CommitmentSum(c.bases.group, OutputCvs(outputs)));
    if BindingKey(c.bases, bsk) != IntoBvk(c.bases, sum, valueBalance.value) { return None; }
    if !accepts(valueBalance.value) { return Some(Err(InvalidAmount)); }
    ConsistentSpends(c, extsks, b.spends, alpha, spends.value);
    var bundle := FromParts(spends.value, outputs, valueBalance.value, S.BindingKeyOnly(bsk));
    if bundle.Some? { DescribedOpen(c, b, extsks, alpha, bundle.value); }
    return Some(Ok(bundle));
  }

  // The signing and the verification key of a build agree.
  lemma KeysAgree<P(!new), T, O>(c: Context<P>, b: Built<P>, spends: seq<SpendDescription<P, T, S.SigningMetadata<P>>>,
                                 outputs: seq<OutputDescription<P, O>>, valueBalance: I64)
    requires IsContext(c) && Recorded(b) && |b.spends| <= TWO_63 && |b.outputs| <= TWO_63
    requires valueBalance == b.valueBalance.inner
    requires SpendCvs(spends) == DeriveAll(c.bases, SpendOpenings(b.spends))
    requires OutputCvs(outputs) == DeriveAll(c.bases, OutputOpenings(b.outputs))
    ensures
      var sum := Sub(c.bases.group, CommitmentSum(c.bases.group, SpendCvs(spends)), CommitmentSum(c.bases.group, OutputCvs(outputs)));
      BindingKey(c.bases, Bsk(SpendOpenings(b.spends), OutputOpenings(b.outputs))) == IntoBvk(c.bases, sum, valueBalance)
  {
    BalanceIff(c.bases, SpendOpenings(b.spends), OutputOpenings(b.outputs), valueBalance);
  }

  lemma ConsistentSpends<P(!new)>(c: Context<P>, extsks: seq<ExpandedSpendingKey>, spends: seq<PreparedSpend<P>>, alpha: nat -> Fr,
                                  built: seq<UnprovenSpend<P>>)
    requires |built| == |spends| && forall k: nat | k < |spends| :: DummyKeyed(c, spends[k])
    requires forall k: nat | k < |spends| :: Ok(built[k]) == SpendResult(c, extsks, spends[k], alpha(k))
    ensures forall k: nat | k < |built| :: SpendConsistent(c, built[k])
  {
    forall k: nat | k < |built|
      ensures SpendConsistent(c, built[k])
    {
      SpendResultIff(c, extsks, spends[k], alpha(k));
    }
  }

  // A build records the net of its openings.
  lemma BuildRecordsNet<P(!new)>(t: BundleType, spends: seq<SpendInfo<P>>, outputs: seq<OutputInfo>, random: Randomness<P>, b: Built<P>)
    requires IsBuild(t, spends, outputs, random, b)
    ensures Recorded(b)
  {
    assert Values(SpendOpenings(b.spends)) == SpendValues(Infos(b.spends));
    forall k: nat | k < |b.outputs|
      ensures Values(OutputOpenings(b.outputs))[k] == OutputValues(OutputInfos(b.outputs))[k]
    {
      assert OutputPrepared(b.outputs[k]);
    }
    assert Values(OutputOpenings(b.outputs)) == OutputValues(OutputInfos(b.outputs));
  }

  // The keys of dummies are consistent, and requested spends bring none.
  ghost predicate DummyKeyedAt<P>(c: Context<P>, random: Randomness<P>, k: nat) {
    var d := random.dummySpend(k);
    d.dummyExpsk.Some? && c.Fvk(d.dummyExpsk.value) == d.fvk
  }

  lemma BuildIsKeyed<P(!new)>(c: Context<P>, t: BundleType, spends: seq<SpendInfo<P>>, outputs: seq<OutputInfo>, random: Randomness<P>, b: Built<P>)
    requires IsBuild(t, spends, outputs, random, b) && forall k: nat :: DummyKeyedAt(c, random, k)
    requires forall k: nat | k < |spends| :: spends[k].dummyExpsk.None?
    ensures forall i: nat | i < |b.spends| :: DummyKeyed(c, b.spends[i])
  {
    forall i: nat | i < |b.spends|
      ensures DummyKeyed(c, b.spends[i])
    {
      var infos, indices := Infos(b.spends), b.metadata.spendIndices;
      if i in indices {
        var n: nat :| n < |indices| && indices[n] == i;
        assert infos[i] == spends[n];
      } else {
        assert IsDummySpend(random)(infos[i]);
        var k: nat :| random.dummySpend(k) == infos[i];
        assert DummyKeyedAt(c, random, k);
      }
    }
  }

  // --- proofs ---

  function ProveSpend<P>(prove: (SpendWitness<P>, nat) -> ProofBytes): (nat, SpendWitness<P>) -> (ProofBytes, nat) {
    (coin: nat, w: SpendWitness<P>) => (prove(w, coin), coin + 1)
  }

  function ProveOutput(prove: (OutputWitness, nat) -> ProofBytes): (nat, OutputWitness) -> (ProofBytes, nat) {
    (coin: nat, w: OutputWitness) => (prove(w, coin), coin + 1)
  }

  function CreateProofs<P>(b: Unauthorized<P>, proveSpend: (SpendWitness<P>, nat) -> ProofBytes,
                           proveOutput: (OutputWitness, nat) -> ProofBytes, coin: nat): S.UnsignedBundle<P, ProofBytes, ProofBytes> {
    MapAuthorization(b, coin, ProveSpend(proveSpend), ProveOutput(proveOutput), S.Same, S.Same).0
  }

  lemma {:induction false} SpendProofCoins<P>(spends: seq<UnprovenSpend<P>>, prove: (SpendWitness<P>, nat) -> ProofBytes, coin: nat, n: nat)
    requires n <= |spends|
    ensures MapSpends(spends, coin, ProveSpend(prove), S.Same<S.SigningMetadata<P>>, n).1 == coin + n
  {
    if n > 0 { SpendProofCoins(spends, prove, coin, n - 1); }
  }

  lemma {:induction false} OutputProofCoins<P>(outputs: seq<OutputDescription<P, OutputWitness>>, prove: (OutputWitness, nat) -> ProofBytes,
                                               coin: nat, n: nat)
    requires n <= |outputs|
    ensures MapOutputs(outputs, coin, ProveOutput(prove), n).1 == coin + n
  {
    if n > 0 { OutputProofCoins(outputs, prove, coin, n - 1); }
  }

  // Proving changes nothing but the proofs, and every proof is one of its own witness, with its own coin.
  lemma CreateProofsKeeps<P>(c: Context<P>, b: Unauthorized<P>, proveSpend: (SpendWitness<P>, nat) -> ProofBytes,
                             proveOutput: (OutputWitness, nat) -> ProofBytes, coin: nat)
    ensures
      var r := CreateProofs(b, proveSpend, proveOutput, coin);
      && r.Effects() == b.Effects() && r.authorization == b.authorization
      && (S.Consistent(c.schemes.spendAuth, b) ==> S.Consistent(c.schemes.spendAuth, r))
      && |r.spends| == |b.spends| && |r.outputs| == |b.outputs|
      && (forall k: nat | k < |b.spends| ::
            && r.spends[k].zkproof == proveSpend(b.spends[k].zkproof, coin + k)
            && r.spends[k].spendAuthSig == b.spends[k].spendAuthSig && r.spends[k].rk == b.spends[k].rk)
      && (forall k: nat | k < |b.outputs| :: r.outputs[k].zkproof == proveOutput(b.outputs[k].zkproof, coin + |b.spends| + k))
  {
    var r := CreateProofs(b, proveSpend, proveOutput, coin);
    MapKeepsEffects(b, coin, ProveSpend(proveSpend), ProveOutput(proveOutput), S.Same, S.Same);
    forall k: nat | k < |b.spends|
      ensures r.spends[k].zkproof == proveSpend(b.spends[k].zkproof, coin + k)
      ensures r.spends[k].rk == b.spends[k].rk && r.spends[k].spendAuthSig == b.spends[k].spendAuthSig
    {
      MapSpendsAt(b.spends, coin, ProveSpend(proveSpend), S.Same<S.SigningMetadata<P>>, |b.spends|, k);
      SpendProofCoins(b.spends, proveSpend, coin, k);
      assert r.spends[k].Effects().rk == b.spends[k].Effects().rk;
    }
    SpendProofCoins(b.spends, proveSpend, coin, |b.spends|);
    var reached: nat := coin + |b.spends|;
    forall k: nat | k < |b.outputs|
      ensures r.outputs[k].zkproof == proveOutput(b.outputs[k].zkproof, coin + |b.spends| + k)
    {
      MapOutputsAt(b.outputs, reached, ProveOutput(proveOutput), |b.outputs|, k);
      OutputProofCoins(b.outputs, proveOutput, reached, k);
    }
  }

  // --- from builder to verifier ---

  /** What finishing a build promises of the bundle. */
  ghost predicate IsFinished<P>(c: Context<P>, b: Built<P>, bundle: Unauthorized<P>) {
    && bundle.valueBalance == b.valueBalance.inner
    && bundle.authorization.bsk == Bsk(SpendOpenings(b.spends), OutputOpenings(b.outputs))
    && SpendCvs(bundle.spends) == DeriveAll(c.bases, SpendOpenings(b.spends))
    && OutputCvs(bundle.outputs) == DeriveAll(c.bases, OutputOpenings(b.outputs))
    && S.Consistent(c.schemes.spendAuth, bundle)
  }

  // A verifier recomputes the public key of bsk from anything with the effects of the bundle.
  lemma VerifierKey<P(!new)>(c: Context<P>, lib: Libraries<P>, b: Built<P>, bundle: Unauthorized<P>, final: Checked<P>)
    requires IsContext(c) && lib.bases == c.bases && Recorded(b) && |b.spends| <= TWO_63 && |b.outputs| <= TWO_63
    requires IsFinished(c, b, bundle) && final.Effects() == bundle.Effects()
    ensures Bvk(lib, final) == BindingKey(c.bases, bundle.authorization.bsk)
  {
    EffectsFixCvs(final, bundle);
    BvkOfCvs(lib, final);
    BalanceIff(c.bases, SpendOpenings(b.spends), OutputOpenings(b.outputs), final.valueBalance);
  }

  // What signatures do not decide: proofs, and the keys that must not have small order.
  ghost predicate ProofsAccepted<P>(lib: Libraries<P>, b: Checked<P>) {
    && (forall k: nat | k < |b.spends| ::
          var d := b.spends[k];
          lib.proofReads(d.zkproof) && !lib.isSmallOrder(d.rk) && lib.spendProof(d.zkproof, lib.SpendInput(d.rk, d.cv, d.anchor, d.nullifier)))
    && OutputsAccepted(lib, b, |b.outputs|)
  }

  /** A finished build, proven, signed by any successful run and finalized, passes every signature
  check of the verifier, the binding signature's included: only its proofs and the small-order tests on
  rk and on ephemeral keys decide. */
  lemma BuiltBundleVerifies<P(!new)>(c: Context<P>, lib: Libraries<P>, b: Built<P>, bundle: Unauthorized<P>,
                                     proven: S.UnsignedBundle<P, ProofBytes, ProofBytes>, coin: nat, sighash: seq<byte>, steps: seq<S.Step>)
    requires IsContext(c) && lib.bases == c.bases && lib.schemes == c.schemes
    requires Recorded(b) && |b.spends| <= TWO_63 && |b.outputs| <= TWO_63 && IsFinished(c, b, bundle)
    requires proven.Effects() == bundle.Effects() && proven.authorization == bundle.authorization
    requires S.Consistent(c.schemes.spendAuth, proven)
    requires S.Run(c.schemes.spendAuth, S.Prepare(c.schemes, proven, coin, sighash).0, steps).Ok?
    requires S.Finalize(S.Run(c.schemes.spendAuth, S.Prepare(c.schemes, proven, coin, sighash).0, steps).value).Ok?
    ensures
      var final := S.Finalize(S.Run(c.schemes.spendAuth, S.Prepare(c.schemes, proven, coin, sighash).0, steps).value).value;
      Accepted(lib, final, sighash) <==> ProofsAccepted(lib, final)
  {
    var final := S.Finalize(S.Run(c.schemes.spendAuth, S.Prepare(c.schemes, proven, coin, sighash).0, steps).value).value;
    S.SigningProtocol(c.schemes, proven, coin, sighash, steps);
    VerifierKey(c, lib, b, bundle, final);
    SignedAccepted(lib, final, sighash);
  }

  lemma SignedAccepted<P>(lib: Libraries<P>, final: Checked<P>, sighash: seq<byte>)
    requires S.AllVerify(lib.schemes, final, Bvk(lib, final), sighash)
    ensures Accepted(lib, final, sighash) <==> ProofsAccepted(lib, final)
  {
    SpendAcceptedAt(lib, final, sighash, |final.spends|);
  }
}
