/** Building a bundle from the accepted spends and outputs: padding with dummies, shuffling with a
record of the positions, and the binding key with its consistency assertion. */
module BundleBuilder {
  import opened Wrappers
  import opened Scalars
  import opened ValueBalance
  import opened NoteTree
  import opened Permutations
  import opened Builder

  /** Every random choice of a build. */
  datatype Randomness<P> = Randomness(dummySpend: nat -> SpendInfo<P>, dummyOutput: nat -> OutputInfo,
                                      spendOrder: nat -> seq<nat>, outputOrder: nat -> seq<nat>,
                                      spendRcv: nat -> Fr, outputRcv: nat -> Fr, outputRcm: nat -> Fr, alpha: nat -> Fr)

  ghost predicate DummySpendAt<P>(random: Randomness<P>, k: nat) {
    random.dummySpend(k).note.value == 0 && random.dummySpend(k).dummyExpsk.Some?
  }

  ghost predicate DummyOutputAt<P>(random: Randomness<P>, k: nat) {
    random.dummyOutput(k).value == 0
  }

  ghost predicate OrdersAt<P>(random: Randomness<P>, n: nat) {
    IsOrder(random.spendOrder(n), n) && IsOrder(random.outputOrder(n), n)
  }

  // Dummies have no value, and shuffles are permutations.
  ghost predicate IsRandomness<P>(random: Randomness<P>) {
    && (forall k: nat :: DummySpendAt(random, k))
    && (forall k: nat :: DummyOutputAt(random, k))
    && (forall n: nat :: OrdersAt(random, n))
  }

  datatype PreparedSpend<P> = PreparedSpend(info: SpendInfo<P>, rcv: Fr)

  datatype PreparedOutput = PreparedOutput(info: OutputInfo, note: Note, rcv: Fr)

  datatype Metadata = Metadata(spendIndices: seq<nat>, outputIndices: seq<nat>)

  datatype Built<P> = Built(spends: seq<PreparedSpend<P>>, outputs: seq<PreparedOutput>, valueBalance: ValueSum, metadata: Metadata)

  function SpendValues<P>(spends: seq<SpendInfo<P>>): (r: seq<U64>)
    ensures |r| == |spends|
  {
    seq(|spends|, i requires 0 <= i < |spends| => spends[i].note.value)
  }

  function OutputValues(outputs: seq<OutputInfo>): (r: seq<U64>)
    ensures |r| == |outputs|
  {
    seq(|outputs|, i requires 0 <= i < |outputs| => outputs[i].value)
  }

  lemma {:induction false} SpendTotalIsTotal<P>(spends: seq<SpendInfo<P>>, n: nat)
    requires n <= |spends|
    ensures TotalTo(SpendValues(spends), n) == SpendTotal(spends, n)
  {
    if n > 0 { SpendTotalIsTotal(spends, n - 1); }
  }

  lemma {:induction false} OutputTotalIsTotal(outputs: seq<OutputInfo>, n: nat)
    requires n <= |outputs|
    ensures TotalTo(OutputValues(outputs), n) == OutputTotal(outputs, n)
  {
    if n > 0 { OutputTotalIsTotal(outputs, n - 1); }
  }

  // Zero-valued padding does not change a total.
  lemma {:induction false} PaddingIsFree(values: seq<U64>, padded: seq<U64>, n: nat)
    requires |values| <= n <= |padded|
    requires forall k: nat | k < |values| :: padded[k] == values[k]
    requires forall k: nat | |values| <= k < n :: padded[k] == 0
    ensures TotalTo(padded, n) == Total(values)
  {
    if n > |values| { PaddingIsFree(values, padded, n - 1); } else { TotalPrefix(values, padded, n); }
  }

  lemma {:induction false} TotalPrefix(s: seq<U64>, t: seq<U64>, n: nat)
    requires n <= |s| && n <= |t| && forall k: nat | k < n :: s[k] == t[k]
    ensures TotalTo(s, n) == TotalTo(t, n)
  {
    if n > 0 { TotalPrefix(s, t, n - 1); }
  }

  // --- padding and shuffling ---

  /** Where the requested items are: position indices[n] holds the n-th, positions are distinct, and
  every other position holds a dummy. */
  ghost predicate Placed<T>(shuffled: seq<T>, indices: seq<nat>, requested: seq<T>, isDummy: T -> bool) {
    && |indices| == |requested|
    && (forall n: nat | n < |indices| :: indices[n] < |shuffled| && shuffled[indices[n]] == requested[n])
    && (forall m: nat, n: nat | m < n < |indices| :: indices[m] != indices[n])
    && (forall i: nat | i < |shuffled| && i !in indices :: isDummy(shuffled[i]))
  }

  // The items, padded to the count with dummies.
  function Pad<T>(items: seq<T>, dummy: nat -> T, count: nat): (r: seq<T>)
    requires |items| <= count
    ensures |r| == count
    ensures forall k: nat | k < |items| :: r[k] == items[k]
    ensures forall k: nat | |items| <= k < count :: r[k] == dummy(k - |items|)
  {
    items + seq(count - |items|, i requires 0 <= i < count - |items| => dummy(i))
  }

  method PadAndShuffle<T>(items: seq<T>, dummy: nat -> T, count: nat, order: seq<nat>, ghost isDummy: T -> bool)
    returns (shuffled: seq<T>, indices: seq<nat>)
    requires |items| <= count && IsOrder(order, count) && forall k: nat :: isDummy(dummy(k))
    ensures |shuffled| == count && Placed(shuffled, indices, items, isDummy)
    ensures |order| == count && (forall i: nat | i < count :: order[i] < count) && shuffled == Select(Pad(items, dummy, count), order)
  {
    var padded := Pad(items, dummy, count);
    OrderIsBijective(order, count);
    shuffled, indices := ShuffleAndRecord(padded, order, |items|);
    forall i: nat | i < |shuffled| && i !in indices
      ensures isDummy(shuffled[i])
    {
      assert padded[order[i]] == dummy(order[i] - |items|);
    }
  }

  // One of the dummies of this build; it has no value and carries its own spending key.
  ghost function IsDummySpend<P(!new)>(random: Randomness<P>): SpendInfo<P> -> bool {
    (info: SpendInfo<P>) => exists k: nat :: random.dummySpend(k) == info
  }

  ghost function IsDummyOutput<P>(random: Randomness<P>): OutputInfo -> bool {
    (info: OutputInfo) => exists k: nat :: random.dummyOutput(k) == info
  }

  // The shuffled padded values have the total of the requested ones.
  lemma SpendTotalKept<P>(spends: seq<SpendInfo<P>>, dummy: nat -> SpendInfo<P>, count: nat, order: seq<nat>)
    requires |spends| <= count && IsOrder(order, count) && forall k: nat :: dummy(k).note.value == 0
    requires |order| == count && forall i: nat | i < count :: order[i] < count
    ensures Total(SpendValues(Select(Pad(spends, dummy, count), order))) == SpendTotal(spends, |spends|)
  {
    var padded := Pad(spends, dummy, count);
    assert SpendValues(Select(padded, order)) == Select(SpendValues(padded), order);
    TotalOfShuffle(SpendValues(padded), order);
    PaddingIsFree(SpendValues(spends), SpendValues(padded), count);
    SpendTotalIsTotal(spends, |spends|);
  }

  lemma OutputTotalKept(outputs: seq<OutputInfo>, dummy: nat -> OutputInfo, count: nat, order: seq<nat>)
    requires |outputs| <= count && IsOrder(order, count) && forall k: nat :: dummy(k).value == 0
    requires |order| == count && forall i: nat | i < count :: order[i] < count
    ensures Total(OutputValues(Select(Pad(outputs, dummy, count), order))) == OutputTotal(outputs, |outputs|)
  {
    var padded := Pad(outputs, dummy, count);
    assert OutputValues(Select(padded, order)) == Select(OutputValues(padded), order);
    TotalOfShuffle(OutputValues(padded), order);
    PaddingIsFree(OutputValues(outputs), OutputValues(padded), count);
    OutputTotalIsTotal(outputs, |outputs|);
  }

  function Infos<P>(spends: seq<PreparedSpend<P>>): (r: seq<SpendInfo<P>>)
    ensures |r| == |spends|
  {
    seq(|spends|, i requires 0 <= i < |spends| => spends[i].info)
  }

  function OutputInfos(outputs: seq<PreparedOutput>): (r: seq<OutputInfo>)
    ensures |r| == |outputs|
  {
    seq(|outputs|, i requires 0 <= i < |outputs| => outputs[i].info)
  }

  ghost predicate OutputPrepared(o: PreparedOutput) {
    o.note.gd == o.info.gd && o.note.pkd == o.info.pkd && o.note.value == o.info.value
  }

  // Trapdoors and note trapdoors are drawn in the order of the shuffled items, one for each.
  ghost predicate Trapdoors<P>(random: Randomness<P>, spends: seq<PreparedSpend<P>>, outputs: seq<PreparedOutput>) {
    && (forall k: nat | k < |spends| :: spends[k].rcv == random.spendRcv(k))
    && (forall k: nat | k < |outputs| :: outputs[k].rcv == random.outputRcv(k) && outputs[k].note.rcm == random.outputRcm(k))
  }

  ghost predicate AllAnchorsMatch<P>(ops: NoteOps<P>, spends: seq<SpendInfo<P>>, anchor: int) {
    forall k: nat | k < |spends| :: HasMatchingAnchor(ops, spends[k], anchor)
  }

  // The bundle type's own conditions on the requested spends.
  method CheckSpends<P>(ops: NoteOps<P>, t: BundleType, anchor: int, spends: seq<SpendInfo<P>>) returns (r: Result<(), Error>)
    ensures t.Transactional? ==> r == if AllAnchorsMatch(ops, spends, anchor) then Ok(()) else Err(AnchorMismatch)
    ensures t.Coinbase? ==> r == if spends == [] then Ok(()) else Err(BundleTypeNotSatisfiable)
  {
    match t {
      case Transactional(_) =>
        for k := 0 to |spends|
          invariant forall i: nat | i < k :: HasMatchingAnchor(ops, spends[i], anchor)
        {
          if !HasMatchingAnchor(ops, spends[k], anchor) { return Err(AnchorMismatch); }
        }
        return Ok(());
      case Coinbase =>
        return if |spends| == 0 then Ok(()) else Err(BundleTypeNotSatisfiable);
    }
  }

  method PrepareSpends<P>(infos: seq<SpendInfo<P>>, random: Randomness<P>) returns (r: seq<PreparedSpend<P>>)
    ensures Infos(r) == infos && Trapdoors(random, r, [])
  {
    r := [];
    for i := 0 to |infos|
      invariant Infos(r) == infos[..i] && Trapdoors(random, r, [])
    {
      r := r + [PreparedSpend(infos[i], random.spendRcv(i))];
    }
    assert infos[..|infos|] == infos;
  }

  method PrepareOutputs<P>(infos: seq<OutputInfo>, random: Randomness<P>) returns (r: seq<PreparedOutput>)
    ensures OutputInfos(r) == infos && Trapdoors(random, [], r) && forall k: nat | k < |r| :: OutputPrepared(r[k])
  {
    r := [];
    for i := 0 to |infos|
      invariant OutputInfos(r) == infos[..i] && Trapdoors(random, [], r) && forall k: nat | k < |r| :: OutputPrepared(r[k])
    {
      var note := Note(infos[i].gd, infos[i].pkd, infos[i].value, random.outputRcm(i));
      r := r + [PreparedOutput(infos[i], note, random.outputRcv(i))];
    }
    assert infos[..|infos|] == infos;
  }

  /** What a build owes its caller. */
  ghost predicate IsBuild<P(!new)>(t: BundleType, spends: seq<SpendInfo<P>>, outputs: seq<OutputInfo>, random: Randomness<P>, b: Built<P>) {
    && t.NumSpends(|spends|) == Ok(|b.spends|)
    && t.NumOutputs(|spends|, |outputs|) == Ok(|b.outputs|)
    && Placed(Infos(b.spends), b.metadata.spendIndices, spends, IsDummySpend(random))
    && Placed(OutputInfos(b.outputs), b.metadata.outputIndices, outputs, IsDummyOutput(random))
    && (forall k: nat | k < |b.outputs| :: OutputPrepared(b.outputs[k]))
    && Trapdoors(random, b.spends, b.outputs)
    && Total(SpendValues(Infos(b.spends))) == SpendTotal(spends, |spends|)
    && Total(OutputValues(OutputInfos(b.outputs))) == OutputTotal(outputs, |outputs|)
    && b.valueBalance.inner == SpendTotal(spends, |spends|) - OutputTotal(outputs, |outputs|)
  }

  lemma DummiesFree<P(!new)>(random: Randomness<P>)
    requires IsRandomness(random)
    ensures forall k: nat :: IsDummySpend(random)(random.dummySpend(k)) && random.dummySpend(k).note.value == 0
    ensures forall k: nat :: IsDummyOutput(random)(random.dummyOutput(k)) && random.dummyOutput(k).value == 0
  {
    forall k: nat
      ensures IsDummySpend(random)(random.dummySpend(k)) && random.dummySpend(k).note.value == 0
      ensures IsDummyOutput(random)(random.dummyOutput(k)) && random.dummyOutput(k).value == 0
    {
      assert DummySpendAt(random, k) && DummyOutputAt(random, k);
    }
  }

  method PlaceSpends<P(!new)>(spends: seq<SpendInfo<P>>, count: nat, random: Randomness<P>)
    returns (prepared: seq<PreparedSpend<P>>, indices: seq<nat>)
    requires |spends| <= count && IsRandomness(random)
    ensures |prepared| == count && Placed(Infos(prepared), indices, spends, IsDummySpend(random))
    ensures Total(SpendValues(Infos(prepared))) == SpendTotal(spends, |spends|)
    ensures Trapdoors(random, prepared, [])
  {
    var order := random.spendOrder(count);
    assert OrdersAt(random, count);
    DummiesFree(random);
    var infos;
    infos, indices := PadAndShuffle(spends, random.dummySpend, count, order, IsDummySpend(random));
    SpendTotalKept(spends, random.dummySpend, count, order);
    prepared := PrepareSpends(infos, random);
  }

  method PlaceOutputs<P(!new)>(outputs: seq<OutputInfo>, count: nat, random: Randomness<P>)
    returns (prepared: seq<PreparedOutput>, indices: seq<nat>)
    requires |outputs| <= count && IsRandomness(random)
    ensures |prepared| == count && Placed(OutputInfos(prepared), indices, outputs, IsDummyOutput(random))
    ensures Total(OutputValues(OutputInfos(prepared))) == OutputTotal(outputs, |outputs|)
    ensures forall k: nat | k < count :: OutputPrepared(prepared[k])
    ensures Trapdoors(random, [], prepared)
  {
    var order := random.outputOrder(count);
    assert OrdersAt(random, count);
    DummiesFree(random);
    var infos;
    infos, indices := PadAndShuffle(outputs, random.dummyOutput, count, order, IsDummyOutput(random));
    OutputTotalKept(outputs, random.dummyOutput, count, order);
    prepared := PrepareOutputs(infos, random);
  }

  /** With at most 2^63 notes on each side the value never overflows, so the anchor and the bundle
  type are the only reasons to fail. */
  method BuildBundle<P(!new)>(ops: NoteOps<P>, t: BundleType, anchor: int, spends: seq<SpendInfo<P>>, outputs: seq<OutputInfo>,
                              random: Randomness<P>) returns (r: Result<Built<P>, Error>)
    requires IsRandomness(random)
    requires |spends| <= TWO_63 && |outputs| <= TWO_63
    ensures t.Transactional? ==> if AllAnchorsMatch(ops, spends, anchor) then r.Ok? else r == Err(AnchorMismatch)
    ensures t.Coinbase? ==> if spends == [] then r.Ok? else r == Err(BundleTypeNotSatisfiable)
    ensures r.Ok? ==> IsBuild(t, spends, outputs, random, r.value)
  {
    var checked := CheckSpends(ops, t, anchor, spends);
    if checked.Err? { return Err(checked.error); }
    var spendCount := t.NumSpends(|spends|);
    if spendCount.Err? { return Err(BundleTypeNotSatisfiable); }
    var outputCount := t.NumOutputs(|spends|, |outputs|);
    if outputCount.Err? { return Err(BundleTypeNotSatisfiable); }
    var preparedSpends, spendIndices := PlaceSpends(spends, spendCount.value, random);
    var preparedOutputs, outputIndices := PlaceOutputs(outputs, outputCount.value, random);
    NetValueIsNet(SpendValues(Infos(preparedSpends)), OutputValues(OutputInfos(preparedOutputs)));
    var valueBalance := NetValue(SpendValues(Infos(preparedSpends)), OutputValues(OutputInfos(preparedOutputs)));
    match valueBalance {
      case None => return Err(InvalidAmount);
      case Some(sum) => return Ok(Built(preparedSpends, preparedOutputs, sum, Metadata(spendIndices, outputIndices)));
    }
  }

  /** The index recorded for the n-th accepted output finds, in the build, the argument of its call. */
  lemma OutputIndexFinds<P(!new)>(t: BundleType, adds: seq<Addition<P>>, random: Randomness<P>, b: Built<P>, i: nat)
    requires IsBuild(t, Run(t, adds, |adds|).spends, Run(t, adds, |adds|).outputs, random, b)
    requires i < |adds| && adds[i].AddOutput? && Succeeds(t, adds, i)
    ensures
      var n := |AcceptedOutputs(t, adds, i)|;
      && n < |b.metadata.outputIndices| && b.metadata.outputIndices[n] < |b.outputs|
      && b.outputs[b.metadata.outputIndices[n]].info == adds[i].output
  {
    RunStores(t, adds, |adds|);
    AcceptedOutputAt(t, adds, i, |adds|);
    var n := |AcceptedOutputs(t, adds, i)|;
    assert OutputInfos(b.outputs)[b.metadata.outputIndices[n]] == Run(t, adds, |adds|).outputs[n];
  }

  lemma SpendIndexFinds<P(!new)>(t: BundleType, adds: seq<Addition<P>>, random: Randomness<P>, b: Built<P>, i: nat)
    requires IsBuild(t, Run(t, adds, |adds|).spends, Run(t, adds, |adds|).outputs, random, b)
    requires i < |adds| && adds[i].AddSpend? && Succeeds(t, adds, i)
    ensures
      var n := |AcceptedSpends(t, adds, i)|;
      && n < |b.metadata.spendIndices| && b.metadata.spendIndices[n] < |b.spends|
      && b.spends[b.metadata.spendIndices[n]].info == adds[i].spend
  {
    RunStores(t, adds, |adds|);
    AcceptedSpendAt(t, adds, i, |adds|);
    var n := |AcceptedSpends(t, adds, i)|;
    assert Infos(b.spends)[b.metadata.spendIndices[n]] == Run(t, adds, |adds|).spends[n];
  }

  /** The builder's reported balance is that of the bundle it builds exactly when the values that failed
  the range check cancel; in particular whenever no addition fails it. */
  lemma ReportedBalanceIff<P(!new)>(t: BundleType, adds: seq<Addition<P>>, random: Randomness<P>, b: Built<P>)
    requires IsBuild(t, Run(t, adds, |adds|).spends, Run(t, adds, |adds|).outputs, random, b)
    ensures b.valueBalance == Run(t, adds, |adds|).valueBalance <==> Drift(t, adds, |adds|) == 0
    ensures NoneFailsRangeCheck(t, adds, |adds|) ==>
              b.valueBalance == Run(t, adds, |adds|).valueBalance && b.valueBalance.TryIntoI64().Some?
  {
    BalanceOfRun(t, adds, |adds|);
    if NoneFailsRangeCheck(t, adds, |adds|) { InRange(t, adds, |adds|); }
  }
}
