/** ZIP 32 keys: derivation, the 169-byte encoding, and which reachable keys it can carry. */
module Zip32 {
  import opened Wrappers
  import opened Powers
  import opened Bytes
  import opened Residues
  import opened Groups
  import opened Scalars
  import opened Keys

  const HARDENED: nat := 0x8000_0000
  const ENCODED_LENGTH: nat := 169

  type Bytes4 = s: seq<byte> | |s| == 4 witness [0, 0, 0, 0]
  type ChildIndex = i: nat | 0x8000_0000 <= i < 0x1_0000_0000 witness 0x8000_0000

  datatype DecodingError = LengthInvalid(expected: nat, actual: nat) | InvalidAsk | InvalidNsk | UnsupportedChildIndex

  datatype KeyIndex = Master | Child(i: ChildIndex) {
    function Index(): nat {
      match this case Master => 0 case Child(i) => i
    }
  }

  function NewKeyIndex(depth: byte, i: nat): Option<KeyIndex>
    requires i < 0x1_0000_0000
  {
    if depth == 0 then (if i == 0 then Some(Master) else None)
    else if i >= HARDENED then Some(Child(i)) else None
  }

  datatype ExtendedSpendingKey =
    ExtendedSpendingKey(depth: byte, parentFvkTag: Bytes4, childIndex: KeyIndex, chainCode: Bytes32,
                        expsk: ExpandedSpendingKey, dk: Bytes32) {
    // Depth zero is for master keys and for no others.
    predicate Consistent() {
      depth == 0 <==> childIndex.Master?
    }
  }

  // --- encoding ---

  function EncodeScalar(x: Fr): (r: Bytes32) {
    LeBytes(x, 32)
  }

  function DecodeScalar(b: Bytes32): Option<Fr> {
    var n := LeValue(b);
    if n < JUBJUB_ORDER then Some(n) else None
  }

  function EncodeExpanded(k: ExpandedSpendingKey): (r: seq<byte>)
    ensures |r| == 96
  {
    EncodeScalar(k.ask) + EncodeScalar(k.nsk) + k.ovk
  }

  function DecodeExpanded(b: seq<byte>): Result<ExpandedSpendingKey, DecodingError> {
    if |b| != 96 then Err(LengthInvalid(96, |b|))
    else match DecodeScalar(b[..32])
         case None => Err(InvalidAsk)
         case Some(ask) =>
           if ask == 0 then Err(InvalidAsk)
           else match DecodeScalar(b[32..64])
                case None => Err(InvalidNsk)
                case Some(nsk) => Ok(ExpandedSpendingKey(ask, nsk, b[64..96]))
  }

  function Encode(k: ExtendedSpendingKey): (r: seq<byte>)
    ensures |r| == ENCODED_LENGTH
  {
    [k.depth] + k.parentFvkTag + LeBytes(k.childIndex.Index(), 4) + k.chainCode + EncodeExpanded(k.expsk) + k.dk
  }

  function Decode(b: seq<byte>): Result<ExtendedSpendingKey, DecodingError> {
    if |b| != ENCODED_LENGTH then Err(LengthInvalid(ENCODED_LENGTH, |b|))
    else
      IndexBytes(b[5..9]);
      match NewKeyIndex(b[0], LeValue(b[5..9]))
      case None => Err(UnsupportedChildIndex)
      case Some(childIndex) =>
        match DecodeExpanded(b[41..137])
        case Err(e) => Err(e)
        case Ok(expsk) => Ok(ExtendedSpendingKey(b[0], b[1..5], childIndex, b[9..41], expsk, b[137..169]))
  }

  lemma PowersOf256()
    ensures Pow(256, 4) == 0x1_0000_0000
    ensures Pow(256, 32) > JUBJUB_ORDER
  {
    assert Pow(256, 1) == 256 * Pow(256, 0) == 256;
    PowAdd(256, 1, 1);
    PowAdd(256, 2, 2);
    PowAdd(256, 4, 4);
    PowAdd(256, 8, 8);
    PowAdd(256, 16, 16);
  }

  lemma IndexBytes(b: seq<byte>)
    requires |b| == 4
    ensures LeValue(b) < 0x1_0000_0000 && LeBytes(LeValue(b), 4) == b
  {
    LeBytesOfValue(b);
    PowersOf256();
  }

  lemma ScalarRoundTrip(x: Fr)
    ensures DecodeScalar(EncodeScalar(x)) == Some(x)
  {
    PowersOf256();
    LeValueOfBytes(x, 32);
  }

  lemma ScalarCanonical(b: Bytes32)
    requires DecodeScalar(b).Some?
    ensures EncodeScalar(DecodeScalar(b).value) == b
  {
    LeBytesOfValue(b);
  }

  lemma ExpandedRoundTrip(k: ExpandedSpendingKey)
    ensures DecodeExpanded(EncodeExpanded(k)) == Ok(k)
  {
    var b := EncodeExpanded(k);
    assert b[..32] == EncodeScalar(k.ask) && b[32..64] == EncodeScalar(k.nsk) && b[64..96] == k.ovk;
    ScalarRoundTrip(k.ask);
    ScalarRoundTrip(k.nsk);
  }

  lemma ExpandedCanonical(b: seq<byte>)
    requires DecodeExpanded(b).Ok?
    ensures EncodeExpanded(DecodeExpanded(b).value) == b
  {
    ScalarCanonical(b[..32]);
    ScalarCanonical(b[32..64]);
    assert b == b[..32] + b[32..64] + b[64..96];
  }

  lemma DecodeExpandedErrors(b: seq<byte>)
    ensures |b| != 96 ==> DecodeExpanded(b) == Err(LengthInvalid(96, |b|))
    ensures |b| == 96 ==>
              var ask, nsk := LeValue(b[..32]), LeValue(b[32..64]);
              && (DecodeExpanded(b) == Err(InvalidAsk) <==> !(0 < ask < JUBJUB_ORDER))
              && (DecodeExpanded(b) == Err(InvalidNsk) <==> 0 < ask < JUBJUB_ORDER && nsk >= JUBJUB_ORDER)
              && (DecodeExpanded(b).Ok? <==> 0 < ask < JUBJUB_ORDER && nsk < JUBJUB_ORDER)
  {
  }

  // The fields sit where the decoder looks for them.
  lemma EncodedFields(k: ExtendedSpendingKey)
    ensures
      var b := Encode(k);
      && b[0] == k.depth && b[1..5] == k.parentFvkTag && b[5..9] == LeBytes(k.childIndex.Index(), 4)
      && b[9..41] == k.chainCode && b[41..137] == EncodeExpanded(k.expsk) && b[137..169] == k.dk
  {
  }

  /** Decoding the encoding returns the key exactly for consistent keys; every other is refused for
  its child index. */
  lemma RoundTripIff(k: ExtendedSpendingKey)
    ensures Decode(Encode(k)) == if k.Consistent() then Ok(k) else Err(UnsupportedChildIndex)
  {
    EncodedFields(k);
    PowersOf256();
    LeValueOfBytes(k.childIndex.Index(), 4);
    ExpandedRoundTrip(k.expsk);
  }

  // The index bytes fit the depth: zero for a master key, hardened for every other.
  predicate IndexFits(depth: byte, index: nat) {
    if depth == 0 then index == 0 else index >= HARDENED
  }

  lemma SliceOfSlice(b: seq<byte>, lo: nat, hi: nat, i: nat, j: nat)
    requires lo <= hi <= |b| && i <= j <= hi - lo
    ensures b[lo..hi][i..j] == b[lo + i..lo + j]
  {
    var s, t := b[lo..hi][i..j], b[lo + i..lo + j];
    forall k: nat | k < j - i ensures s[k] == t[k] {
      assert s[k] == b[lo..hi][i + k] == b[lo + (i + k)];
    }
    assert s == t;
  }

  /** What decoding answers: the length first, then the child index, then the two scalars. */
  lemma DecodeErrors(b: seq<byte>)
    ensures |b| != 169 ==> Decode(b) == Err(LengthInvalid(169, |b|))
    ensures |b| == 169 ==>
              var fits, ask, nsk := IndexFits(b[0], LeValue(b[5..9])), LeValue(b[41..73]), LeValue(b[73..105]);
              && (Decode(b) == Err(UnsupportedChildIndex) <==> !fits)
              && (Decode(b) == Err(InvalidAsk) <==> fits && !(0 < ask < JUBJUB_ORDER))
              && (Decode(b) == Err(InvalidNsk) <==> fits && 0 < ask < JUBJUB_ORDER && nsk >= JUBJUB_ORDER)
              && (Decode(b).Ok? <==> fits && 0 < ask < JUBJUB_ORDER && nsk < JUBJUB_ORDER)
  {
    if |b| == 169 {
      IndexBytes(b[5..9]);
      SliceOfSlice(b, 41, 137, 0, 32);
      SliceOfSlice(b, 41, 137, 32, 64);
    }
  }

  /** Accepted bytes re-encode to themselves, and give a consistent key. */
  lemma AcceptedReencode(b: seq<byte>)
    requires Decode(b).Ok?
    ensures Decode(b).value.Consistent()
    ensures Encode(Decode(b).value) == b
  {
    IndexBytes(b[5..9]);
    ExpandedCanonical(b[41..137]);
    assert b == [b[0]] + b[1..5] + b[5..9] + b[9..41] + b[41..137] + b[137..169];
  }

  // The buffer is filled field by field.
  method ToBytes(k: ExtendedSpendingKey) returns (result: array<byte>)
    ensures fresh(result) && result[..] == Encode(k)
  {
    result := new byte[169](_ => 0);
    result[0] := k.depth;
    CopyInto(result, 1, k.parentFvkTag);
    CopyInto(result, 5, LeBytes(k.childIndex.Index(), 4));
    CopyInto(result, 9, k.chainCode);
    CopyInto(result, 41, EncodeExpanded(k.expsk));
    CopyInto(result, 137, k.dk);
  }

  method CopyInto(a: array<byte>, start: nat, s: seq<byte>)
    requires start + |s| <= a.Length
    modifies a
    ensures a[..] == old(a[..start]) + s + old(a[start + |s|..])
  {
    for i := 0 to |s|
      invariant a[..start] == old(a[..start]) && a[start..start + i] == s[..i]
      invariant a[start + i..] == old(a[start + i..])
    {
      a[start + i] := s[i];
    }
  }

  // --- derivation ---

  datatype ExtendedFullViewingKey<P> =
    ExtendedFullViewingKey(depth: byte, parentFvkTag: Bytes4, childIndex: KeyIndex, chainCode: Bytes32,
                           fvk: FullViewingKey<P>, dk: Bytes32)

  /** The group, its two generators, and every hash of the derivation. */
  datatype Derivation<!P> =
    Derivation(group: Group<P>, spendAuthBase: P, proofGenerationBase: P, pointBytes: P -> Bytes32,
               fvkTag: seq<byte> -> Bytes4,
               masterAsk: seq<byte> -> Fr, masterNsk: seq<byte> -> Fr, masterOvk: seq<byte> -> Bytes32,
               masterDk: seq<byte> -> Bytes32, masterChain: seq<byte> -> Bytes32,
               childSeed: (Bytes32, ExpandedSpendingKey, Bytes32, ChildIndex) -> (Bytes32, Bytes32),
               childAsk: Bytes32 -> Fr, childNsk: Bytes32 -> Fr,
               childOvk: (Bytes32, Bytes32) -> Bytes32, childDk: (Bytes32, Bytes32) -> Bytes32,
               internalSeed: seq<byte> -> Bytes32, internalNsk: Bytes32 -> Fr, internalDkOvk: Bytes32 -> (Bytes32, Bytes32)) {

    function Fvk(k: ExpandedSpendingKey): FullViewingKey<P> {
      FullViewingKey(Mul(group, k.ask, spendAuthBase), Mul(group, k.nsk, proofGenerationBase), k.ovk)
    }

    function FvkBytes(fvk: FullViewingKey<P>): seq<byte> {
      pointBytes(fvk.ak) + pointBytes(fvk.nk) + fvk.ovk
    }

    function ToFullViewing(k: ExtendedSpendingKey): ExtendedFullViewingKey<P> {
      ExtendedFullViewingKey(k.depth, k.parentFvkTag, k.childIndex, k.chainCode, Fvk(k.expsk), k.dk)
    }
  }

  ghost predicate IsDerivation<P(!new)>(d: Derivation<P>) {
    IsGroup(d.group) && HasOrderR(d.group, d.spendAuthBase) && HasOrderR(d.group, d.proofGenerationBase)
  }

  function NonZero(x: Fr): Option<NonZeroFr> {
    if x == 0 then None else Some(x)
  }

  // None stands for the panic on a zero key.
  function MasterKey<P>(d: Derivation<P>, seed: seq<byte>): Option<ExtendedSpendingKey> {
    match NonZero(d.masterAsk(seed))
    case None => None
    case Some(ask) =>
      Some(ExtendedSpendingKey(0, [0, 0, 0, 0], Master, d.masterChain(seed),
                               ExpandedSpendingKey(ask, d.masterNsk(seed), d.masterOvk(seed)), d.masterDk(seed)))
  }

  // The depth is a byte: it wraps where the program is built without overflow checks.
  function DeriveChild<P>(d: Derivation<P>, k: ExtendedSpendingKey, i: ChildIndex): Option<ExtendedSpendingKey> {
    var seed := d.childSeed(k.chainCode, k.expsk, k.dk, i);
    match ChildKeys(d, k.expsk, seed.0)
    case None => None
    case Some(expsk) =>
      Some(ExtendedSpendingKey((k.depth + 1) % 256, d.fvkTag(d.FvkBytes(d.Fvk(k.expsk))), Child(i), seed.1, expsk,
                               d.childDk(seed.0, k.dk)))
  }

  function ChildKeys<P>(d: Derivation<P>, k: ExpandedSpendingKey, il: Bytes32): Option<ExpandedSpendingKey> {
    match NonZero(FrAdd(d.childAsk(il), k.ask))
    case None => None
    case Some(ask) => Some(ExpandedSpendingKey(ask, FrAdd(d.childNsk(il), k.nsk), d.childOvk(il, k.ovk)))
  }

  function InternalSeed<P>(d: Derivation<P>, fvk: FullViewingKey<P>, dk: Bytes32): Bytes32 {
    d.internalSeed(d.FvkBytes(fvk) + dk)
  }

  function DeriveInternal<P>(d: Derivation<P>, k: ExtendedSpendingKey): ExtendedSpendingKey {
    var i := InternalSeed(d, d.Fvk(k.expsk), k.dk);
    var (dk, ovk) := d.internalDkOvk(i);
    k.(expsk := ExpandedSpendingKey(k.expsk.ask, FrAdd(d.internalNsk(i), k.expsk.nsk), ovk), dk := dk)
  }

  function DeriveInternalFvk<P>(d: Derivation<P>, fvk: FullViewingKey<P>, dk: Bytes32): (FullViewingKey<P>, Bytes32) {
    var i := InternalSeed(d, fvk, dk);
    var (dkInternal, ovk) := d.internalDkOvk(i);
    (FullViewingKey(fvk.ak, d.group.add(Mul(d.group, d.internalNsk(i), d.proofGenerationBase), fvk.nk), ovk), dkInternal)
  }

  function DeriveInternalFull<P>(d: Derivation<P>, k: ExtendedFullViewingKey<P>): ExtendedFullViewingKey<P> {
    var (fvk, dk) := DeriveInternalFvk(d, k.fvk, k.dk);
    k.(fvk := fvk, dk := dk)
  }

  /** Deriving the internal key commutes with forgetting the spending key. */
  lemma InternalCommutes<P(!new)>(d: Derivation<P>, k: ExtendedSpendingKey)
    requires IsDerivation(d)
    ensures d.ToFullViewing(DeriveInternal(d, k)) == DeriveInternalFull(d, d.ToFullViewing(k))
  {
    var i := InternalSeed(d, d.Fvk(k.expsk), k.dk);
    SumOfMultiples(d.group, d.proofGenerationBase, d.internalNsk(i), k.expsk.nsk);
  }

  lemma SumOfMultiples<P(!new)>(g: Group<P>, base: P, a: Fr, b: Fr)
    requires IsGroup(g) && HasOrderR(g, base)
    ensures Mul(g, FrAdd(a, b), base) == g.add(Mul(g, a, base), Mul(g, b, base))
  {
    var x: int, y: int := a, b;
    CongRefl(JUBJUB_ORDER, x);
    CongRefl(JUBJUB_ORDER, y);
    FrAddCong(a, x, b, y);
    GeneratorInSubgroup(g, base);
    SameMultiple(g, base, FrAdd(a, b), x + y);
    MulAdd(g, x, y, base);
  }

  // A child's viewing key is its parent's, shifted by the derived scalars.
  lemma ChildViewingKey<P(!new)>(d: Derivation<P>, k: ExtendedSpendingKey, i: ChildIndex)
    requires IsDerivation(d) && DeriveChild(d, k, i).Some?
    ensures
      var il, child, parent := d.childSeed(k.chainCode, k.expsk, k.dk, i).0, d.ToFullViewing(DeriveChild(d, k, i).value), d.ToFullViewing(k);
      && child.fvk.ak == d.group.add(Mul(d.group, d.childAsk(il), d.spendAuthBase), parent.fvk.ak)
      && child.fvk.nk == d.group.add(Mul(d.group, d.childNsk(il), d.proofGenerationBase), parent.fvk.nk)
      && child.parentFvkTag == d.fvkTag(d.FvkBytes(parent.fvk))
  {
    var il := d.childSeed(k.chainCode, k.expsk, k.dk, i).0;
    SumOfMultiples(d.group, d.spendAuthBase, d.childAsk(il), k.expsk.ask);
    SumOfMultiples(d.group, d.proofGenerationBase, d.childNsk(il), k.expsk.nsk);
  }

  // The bytes of a full viewing key, as fingerprints and internal seeds hash them.
  function FullKeyBytes<P>(d: Derivation<P>, ak: P, nk: P, ovk: Bytes32): seq<byte> {
    d.pointBytes(ak) + d.pointBytes(nk) + ovk
  }

  /** Everything about a child: counters, fingerprint of its parent, the right half of the seed as chain
  code, and the other parts derived with the left half. */
  lemma ChildParts<P>(d: Derivation<P>, k: ExtendedSpendingKey, i: ChildIndex)
    ensures
      var (il, ir) := d.childSeed(k.chainCode, k.expsk, k.dk, i);
      var ask := (d.childAsk(il) + k.expsk.ask) % JUBJUB_ORDER;
      && (DeriveChild(d, k, i).Some? <==> ask != 0)
      && (DeriveChild(d, k, i).Some? ==>
            var child := DeriveChild(d, k, i).value;
            && child.depth == (k.depth + 1) % 256 && child.childIndex == Child(i) && child.chainCode == ir
            && child.parentFvkTag == d.fvkTag(FullKeyBytes(d, Mul(d.group, k.expsk.ask, d.spendAuthBase),
                                                           Mul(d.group, k.expsk.nsk, d.proofGenerationBase), k.expsk.ovk))
            && child.expsk.ask == ask && child.expsk.nsk == (d.childNsk(il) + k.expsk.nsk) % JUBJUB_ORDER
            && child.expsk.ovk == d.childOvk(il, k.expsk.ovk) && child.dk == d.childDk(il, k.dk))
  {
  }

  /** Everything about an internal key: the seed hashes the full viewing key with its dk, the spend
  authorizing key and all counters stay. */
  lemma InternalParts<P>(d: Derivation<P>, k: ExtendedSpendingKey)
    ensures
      var i := d.internalSeed(FullKeyBytes(d, Mul(d.group, k.expsk.ask, d.spendAuthBase),
                                           Mul(d.group, k.expsk.nsk, d.proofGenerationBase), k.expsk.ovk) + k.dk);
      var r := DeriveInternal(d, k);
      && r.depth == k.depth && r.parentFvkTag == k.parentFvkTag && r.childIndex == k.childIndex && r.chainCode == k.chainCode
      && r.expsk.ask == k.expsk.ask && r.expsk.nsk == (d.internalNsk(i) + k.expsk.nsk) % JUBJUB_ORDER
      && (r.dk, r.expsk.ovk) == d.internalDkOvk(i)
  {
  }

  // Everything about a master key.
  lemma MasterParts<P>(d: Derivation<P>, seed: seq<byte>)
    ensures MasterKey(d, seed).Some? <==> d.masterAsk(seed) != 0
    ensures MasterKey(d, seed).Some? ==>
              var k := MasterKey(d, seed).value;
              && k.depth == 0 && k.parentFvkTag == [0, 0, 0, 0] && k.childIndex == Master && k.chainCode == d.masterChain(seed)
              && k.expsk.ask == d.masterAsk(seed) && k.expsk.nsk == d.masterNsk(seed) && k.expsk.ovk == d.masterOvk(seed)
              && k.dk == d.masterDk(seed)
  {
  }

  // --- reachable keys ---

  datatype Step = ToChild(i: ChildIndex) | ToInternal

  function RunStep<P>(d: Derivation<P>, k: ExtendedSpendingKey, step: Step): Option<ExtendedSpendingKey> {
    match step
    case ToChild(i) => DeriveChild(d, k, i)
    case ToInternal => Some(DeriveInternal(d, k))
  }

  type Stepper = (ExtendedSpendingKey, Step) -> Option<ExtendedSpendingKey>

  function StepperOf<P>(d: Derivation<P>): Stepper {
    (k: ExtendedSpendingKey, step: Step) => RunStep(d, k, step)
  }

  // The key after the first n steps.
  function Run(f: Stepper, k: ExtendedSpendingKey, steps: seq<Step>, n: nat): Option<ExtendedSpendingKey>
    requires n <= |steps|
  {
    if n == 0 then Some(k)
    else match Run(f, k, steps, n - 1)
         case None => None
         case Some(reached) => f(reached, steps[n - 1])
  }

  function ChildSteps(steps: seq<Step>, n: nat): nat
    requires n <= |steps|
  {
    if n == 0 then 0 else ChildSteps(steps, n - 1) + if steps[n - 1].ToChild? then 1 else 0
  }

  // A child step counts the depth and sets the index; an internal step keeps both.
  ghost predicate CountsDepth(f: Stepper, k: ExtendedSpendingKey, step: Step) {
    match f(k, step)
    case None => true
    case Some(r) =>
      && r.depth == (if step.ToChild? then (k.depth + 1) % 256 else k.depth)
      && r.childIndex == (if step.ToChild? then Child(step.i) else k.childIndex)
  }

  lemma DerivationCountsDepth<P>(d: Derivation<P>)
    ensures forall k: ExtendedSpendingKey, step: Step :: CountsDepth(StepperOf(d), k, step)
  {
  }

  lemma WrapAround(count: nat)
    ensures (count % 256 + 1) % 256 == (count + 1) % 256
  {
  }

  // The depth counts child steps modulo 256; a key is a master key until its first child step.
  lemma {:induction false} ReachedKey(f: Stepper, master: ExtendedSpendingKey, steps: seq<Step>, n: nat)
    requires n <= |steps| && master.depth == 0 && master.childIndex.Master? && Run(f, master, steps, n).Some?
    requires forall k: ExtendedSpendingKey, step: Step :: CountsDepth(f, k, step)
    ensures Run(f, master, steps, n).value.depth == ChildSteps(steps, n) % 256
    ensures Run(f, master, steps, n).value.childIndex.Master? <==> ChildSteps(steps, n) == 0
  {
    if n > 0 {
      ReachedKey(f, master, steps, n - 1);
      assert CountsDepth(f, Run(f, master, steps, n - 1).value, steps[n - 1]);
      WrapAround(ChildSteps(steps, n - 1));
    }
  }

  ghost predicate Encodable(childSteps: nat) {
    childSteps == 0 || childSteps % 256 != 0
  }

  lemma ReachableConsistentIff<P>(d: Derivation<P>, seed: seq<byte>, steps: seq<Step>, k: ExtendedSpendingKey)
    requires MasterKey(d, seed).Some? && Run(StepperOf(d), MasterKey(d, seed).value, steps, |steps|) == Some(k)
    ensures k.Consistent() <==> Encodable(ChildSteps(steps, |steps|))
  {
    DerivationCountsDepth(d);
    ReachedKey(StepperOf(d), MasterKey(d, seed).value, steps, |steps|);
  }

  /** A reachable key survives its encoding exactly when it took no child step, or a number of them
  that is no multiple of 256. */
  lemma ReachableRoundTripIff<P>(d: Derivation<P>, seed: seq<byte>, steps: seq<Step>, k: ExtendedSpendingKey)
    requires MasterKey(d, seed).Some? && Run(StepperOf(d), MasterKey(d, seed).value, steps, |steps|) == Some(k)
    ensures Decode(Encode(k)) == Ok(k) <==> Encodable(ChildSteps(steps, |steps|))
  {
    ReachableConsistentIff(d, seed, steps, k);
    RoundTripIff(k);
  }

  /** Up to depth 255 every reachable key survives its encoding. */
  lemma ReachableRoundTrip<P>(d: Derivation<P>, seed: seq<byte>, steps: seq<Step>, k: ExtendedSpendingKey)
    requires MasterKey(d, seed).Some? && Run(StepperOf(d), MasterKey(d, seed).value, steps, |steps|) == Some(k)
    requires ChildSteps(steps, |steps|) <= 255
    ensures Decode(Encode(k)) == Ok(k) && k.depth == ChildSteps(steps, |steps|)
  {
    DerivationCountsDepth(d);
    ReachedKey(StepperOf(d), MasterKey(d, seed).value, steps, |steps|);
    SmallRemainder(ChildSteps(steps, |steps|));
    RoundTripIff(k);
  }

  lemma SmallRemainder(count: nat)
    requires count <= 255
    ensures count % 256 == count
  {
  }

  function PathSteps(path: seq<ChildIndex>): (r: seq<Step>)
    ensures |r| == |path|
  {
    seq(|path|, i requires 0 <= i < |path| => ToChild(path[i]))
  }

  // Following a path is the run of its child steps; None stands for a panic on the way.
  method FromPath<P>(d: Derivation<P>, master: ExtendedSpendingKey, path: seq<ChildIndex>) returns (r: Option<ExtendedSpendingKey>)
    ensures r == Run(StepperOf(d), master, PathSteps(path), |path|)
  {
    r := Some(master);
    for k := 0 to |path|
      invariant r == Run(StepperOf(d), master, PathSteps(path), k)
    {
      match r {
        case None =>
        case Some(xsk) => r := DeriveChild(d, xsk, path[k]);
      }
    }
  }

  lemma {:induction false} PathIsAllChildren(path: seq<ChildIndex>, n: nat)
    requires n <= |path|
    ensures ChildSteps(PathSteps(path), n) == n
  {
    if n > 0 { PathIsAllChildren(path, n - 1); }
  }

  lemma PathConsistent<P>(d: Derivation<P>, seed: seq<byte>, path: seq<ChildIndex>, k: ExtendedSpendingKey)
    requires MasterKey(d, seed).Some? && Run(StepperOf(d), MasterKey(d, seed).value, PathSteps(path), |path|) == Some(k)
    ensures k.Consistent() <==> Encodable(|path|)
  {
    PathIsAllChildren(path, |path|);
    ReachableConsistentIff(d, seed, PathSteps(path), k);
  }

  /** A key at the end of a path survives its encoding, or its encoding is refused when the path has
  256 children or another positive multiple. */
  lemma PathRoundTrip<P>(d: Derivation<P>, seed: seq<byte>, path: seq<ChildIndex>, k: ExtendedSpendingKey)
    requires MasterKey(d, seed).Some? && Run(StepperOf(d), MasterKey(d, seed).value, PathSteps(path), |path|) == Some(k)
    ensures Decode(Encode(k)) == if Encodable(|path|) then Ok(k) else Err(UnsupportedChildIndex)
  {
    PathConsistent(d, seed, path, k);
    RoundTripIff(k);
  }

  ghost predicate Reaches<P>(d: Derivation<P>, seed: seq<byte>, path: seq<ChildIndex>) {
    MasterKey(d, seed).Some? && Run(StepperOf(d), MasterKey(d, seed).value, PathSteps(path), |path|).Some?
  }

  // The path leads to a key that its own encoding loses.
  ghost predicate LeadsToRefused<P>(d: Derivation<P>, seed: seq<byte>, path: seq<ChildIndex>) {
    && Reaches(d, seed, path)
    && Decode(Encode(Run(StepperOf(d), MasterKey(d, seed).value, PathSteps(path), |path|).value)) == Err(UnsupportedChildIndex)
  }

  // Whatever the hashes of the derivation are, 256 first children do, as soon as none of them fails.
  lemma DeepPathRefused<P>(d: Derivation<P>, seed: seq<byte>)
    requires Reaches(d, seed, seq(256, _ => HARDENED))
    ensures LeadsToRefused(d, seed, seq(256, _ => HARDENED))
  {
    var path: seq<ChildIndex> := seq(256, _ => HARDENED);
    PathRoundTrip(d, seed, path, Run(StepperOf(d), MasterKey(d, seed).value, PathSteps(path), |path|).value);
  }

  ghost predicate HasChild<P>(d: Derivation<P>, k: ExtendedSpendingKey) {
    exists i: ChildIndex :: DeriveChild(d, k, i).Some?
  }

  lemma {:induction false} SamePrefix(f: Stepper, master: ExtendedSpendingKey, steps: seq<Step>, longer: seq<Step>, n: nat)
    requires n <= |steps| && n <= |longer| && forall i: nat | i < n :: steps[i] == longer[i]
    ensures Run(f, master, steps, n) == Run(f, master, longer, n)
  {
    if n > 0 { SamePrefix(f, master, steps, longer, n - 1); }
  }

  lemma LongerRun(f: Stepper, master: ExtendedSpendingKey, path: seq<ChildIndex>, k: ExtendedSpendingKey, i: ChildIndex)
    requires Run(f, master, PathSteps(path), |path|) == Some(k)
    ensures Run(f, master, PathSteps(path + [i]), |path + [i]|) == f(k, ToChild(i))
  {
    SamePrefix(f, master, PathSteps(path), PathSteps(path + [i]), |path|);
  }

  lemma ChildStep<P>(d: Derivation<P>, k: ExtendedSpendingKey, i: ChildIndex)
    ensures StepperOf(d)(k, ToChild(i)) == DeriveChild(d, k, i)
  {
  }

  lemma ReachedChild<P>(d: Derivation<P>, seed: seq<byte>, path: seq<ChildIndex>) returns (longer: seq<ChildIndex>)
    requires Reaches(d, seed, path) && forall k: ExtendedSpendingKey :: HasChild(d, k)
    ensures |longer| == |path| + 1 && Reaches(d, seed, longer)
  {
    var k := Run(StepperOf(d), MasterKey(d, seed).value, PathSteps(path), |path|).value;
    assert HasChild(d, k);
    var i: ChildIndex :| DeriveChild(d, k, i).Some?;
    longer := path + [i];
    LongerRun(StepperOf(d), MasterKey(d, seed).value, path, k, i);
    ChildStep(d, k, i);
  }

  // If every key has some child, there are paths of every length.
  lemma {:induction false} LongPath<P>(d: Derivation<P>, seed: seq<byte>, n: nat)
    requires MasterKey(d, seed).Some? && forall k: ExtendedSpendingKey :: HasChild(d, k)
    ensures exists path: seq<ChildIndex> :: |path| == n && Reaches(d, seed, path)
  {
    if n == 0 {
      assert Reaches(d, seed, []);
    } else {
      LongPath(d, seed, n - 1);
      var path: seq<ChildIndex> :| |path| == n - 1 && Reaches(d, seed, path);
      var longer := ReachedChild(d, seed, path);
    }
  }

  /** So a derivation in which every key has some child reaches such a key from every master key. */
  lemma RefusedKeyReachable<P>(d: Derivation<P>, seed: seq<byte>)
    requires MasterKey(d, seed).Some? && forall k: ExtendedSpendingKey :: HasChild(d, k)
    ensures exists path: seq<ChildIndex> :: |path| == 256 && LeadsToRefused(d, seed, path)
  {
    LongPath(d, seed, 256);
    var path: seq<ChildIndex> :| |path| == 256 && Reaches(d, seed, path);
    PathRoundTrip(d, seed, path, Run(StepperOf(d), MasterKey(d, seed).value, PathSteps(path), |path|).value);
    assert LeadsToRefused(d, seed, path);
  }
}
