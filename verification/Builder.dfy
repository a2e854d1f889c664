/** The bundle builder: adding spends and outputs, and the balance it reports. */
module Builder {
  import opened Wrappers
  import opened Bytes
  import opened Keys
  import opened ValueBalance
  import opened NoteTree

  const MIN_SHIELDED_OUTPUTS: nat := 2

  datatype Error = AnchorMismatch | BundleTypeNotSatisfiable | InvalidAmount | InvalidAddress
                 | MissingSpendingKey | WrongSpendingKey | SpendProof | PcztRequiresZip212

  datatype Zip212Enforcement = Off | GracePeriod | On

  function Max(a: nat, b: nat): nat {
    if a < b then b else a
  }

  datatype BundleType = Transactional(bundleRequired: bool) | Coinbase {
    function NumSpends(requestedSpends: nat): Result<nat, ()> {
      match this
      case Transactional(required) => Ok(if required || requestedSpends > 0 then Max(requestedSpends, 1) else 0)
      case Coinbase => if requestedSpends == 0 then Ok(0) else Err(())
    }

    function NumOutputs(requestedSpends: nat, requestedOutputs: nat): Result<nat, ()> {
      match this
      case Transactional(required) =>
        Ok(if required || requestedSpends > 0 || requestedOutputs > 0 then Max(requestedOutputs, MIN_SHIELDED_OUTPUTS) else 0)
      case Coinbase => if requestedSpends == 0 then Ok(requestedOutputs) else Err(())
    }

    // The rules a finished bundle of this type obeys: with dummies, a transactional one that is not empty has two outputs.
    predicate Satisfied(spends: nat, outputs: nat) {
      match this
      case Transactional(required) => (required ==> spends >= 1) && (required || spends > 0 || outputs > 0 ==> outputs >= 2)
      case Coinbase => spends == 0
    }
  }

  // The counts are refused only when no padding satisfies the rules, and are otherwise the least
  // padding that does.
  lemma CountsAreLeast(t: BundleType, spends: nat, outputs: nat)
    ensures t.NumSpends(spends).Ok? <==> exists m: nat, n: nat :: m >= spends && n >= outputs && t.Satisfied(m, n)
    ensures t.NumOutputs(spends, outputs).Ok? <==> t.NumSpends(spends).Ok?
    ensures t.NumSpends(spends).Ok? ==>
              var m, n := t.NumSpends(spends).value, t.NumOutputs(spends, outputs).value;
              && m >= spends && n >= outputs && t.Satisfied(m, n)
              && forall m': nat, n': nat | m' >= spends && n' >= outputs && t.Satisfied(m', n') :: m <= m' && n <= n'
  {
    assert t.Satisfied(Max(spends, 1), Max(outputs, MIN_SHIELDED_OUTPUTS)) || t.Coinbase?;
    assert spends == 0 ==> t.Satisfied(0, outputs) || t.Transactional?;
  }

  datatype SpendInfo<P> =
    SpendInfo(fvk: FullViewingKey<P>, note: Note, merklePath: MerklePath, dummyExpsk: Option<ExpandedSpendingKey>)

  datatype OutputInfo = OutputInfo(ovk: Option<seq<byte>>, gd: seq<bool>, pkd: seq<bool>, value: U64, memo: seq<byte>) {
    predicate Valid() {
      |gd| == 256 && |pkd| == 256
    }
  }

  // A spend of no value matches any anchor.
  predicate HasMatchingAnchor<P>(ops: NoteOps<P>, info: SpendInfo<P>, anchor: int) {
    info.note.value == 0 || ops.root(info.merklePath, ops.cmu(info.note)) == anchor
  }

  // A spend that the builder has accepted.
  ghost predicate Admitted<P>(ops: NoteOps<P>, info: SpendInfo<P>, anchor: int) {
    HasMatchingAnchor(ops, info, anchor) && info.dummyExpsk.None?
  }

  ghost predicate AllAdmitted<P>(ops: NoteOps<P>, spends: seq<SpendInfo<P>>, anchor: int) {
    forall k: nat | k < |spends| :: Admitted(ops, spends[k], anchor)
  }

  // --- one addition, as a function of the state ---

  datatype State<P> = State(valueBalance: ValueSum, spends: seq<SpendInfo<P>>, outputs: seq<OutputInfo>)

  // An addition; a spend comes with the answer of its anchor check.
  datatype Addition<P> = AddSpend(spend: SpendInfo<P>, anchorMatches: bool) | AddOutput(output: OutputInfo) {
    function Value(): int {
      match this
      case AddSpend(spend, _) => spend.note.value
      case AddOutput(output) => -(output.value as int)
    }
  }

  function Step<P>(t: BundleType, state: State<P>, add: Addition<P>): (State<P>, Result<(), Error>) {
    match add
    case AddSpend(spend, anchorMatches) =>
      if t.Coinbase? then (state, Err(BundleTypeNotSatisfiable))
      else if !anchorMatches then (state, Err(AnchorMismatch))
      else (match state.valueBalance.Add(spend.note.value)
            case None => (state, Err(InvalidAmount))
            case Some(sum) =>
              if sum.TryIntoI64().None? then (state.(valueBalance := sum), Err(InvalidAmount))
              else (State(sum, state.spends + [spend], state.outputs), Ok(())))
    case AddOutput(output) =>
      match state.valueBalance.Subtract(output.value)
      case None => (state, Err(InvalidAddress))
      case Some(sum) =>
        if sum.TryIntoI64().None? then (state.(valueBalance := sum), Err(InvalidAmount))
        else (State(sum, state.spends, state.outputs + [output]), Ok(()))
  }

  function SpendTotal<P>(spends: seq<SpendInfo<P>>, n: nat): int
    requires n <= |spends|
  {
    if n == 0 then 0 else SpendTotal(spends, n - 1) + spends[n - 1].note.value
  }

  function OutputTotal(outputs: seq<OutputInfo>, n: nat): int
    requires n <= |outputs|
  {
    if n == 0 then 0 else OutputTotal(outputs, n - 1) + outputs[n - 1].value
  }

  // The net value of what the builder has accepted.
  function Net<P>(state: State<P>): int {
    SpendTotal(state.spends, |state.spends|) - OutputTotal(state.outputs, |state.outputs|)
  }

  lemma {:induction false} SpendTotalPrefix<P>(s: seq<SpendInfo<P>>, t: seq<SpendInfo<P>>, n: nat)
    requires n <= |s| && n <= |t| && forall k: nat | k < n :: s[k] == t[k]
    ensures SpendTotal(s, n) == SpendTotal(t, n)
  {
    if n > 0 { SpendTotalPrefix(s, t, n - 1); }
  }

  lemma {:induction false} OutputTotalPrefix(s: seq<OutputInfo>, t: seq<OutputInfo>, n: nat)
    requires n <= |s| && n <= |t| && forall k: nat | k < n :: s[k] == t[k]
    ensures OutputTotal(s, n) == OutputTotal(t, n)
  {
    if n > 0 { OutputTotalPrefix(s, t, n - 1); }
  }

  // The addition is checked for its range only after it has been booked, and fails: a non-zero value
  // that leaves the balance inside 128 bits and outside 64, on a spend that no earlier check refuses.
  predicate FailsRangeCheck<P>(t: BundleType, balance: int, add: Addition<P>) {
    && add.Value() != 0
    && -TWO_127 <= balance + add.Value() < TWO_127
    && !(-TWO_63 <= balance + add.Value() < TWO_63)
    && (add.AddSpend? ==> t.Transactional? && add.anchorMatches)
  }

  /** A failed call changes the balance exactly when it fails the range check. */
  lemma BookedAndRejected<P>(t: BundleType, state: State<P>, add: Addition<P>)
    ensures Step(t, state, add).1.Err? && Step(t, state, add).0.valueBalance != state.valueBalance
            <==> FailsRangeCheck(t, state.valueBalance.inner, add)
    ensures FailsRangeCheck(t, state.valueBalance.inner, add) ==>
              Step(t, state, add) == (state.(valueBalance := ValueSum(state.valueBalance.inner + add.Value())), Err(InvalidAmount))
  {
  }

  lemma StepNet<P>(t: BundleType, state: State<P>, add: Addition<P>)
    ensures
      var (next, r) := Step(t, state, add);
      && (r.Ok? ==> Net(next) == Net(state) + add.Value() && next.valueBalance.inner == state.valueBalance.inner + add.Value()
                    && next.valueBalance.TryIntoI64().Some?)
      && (r.Err? ==> Net(next) == Net(state) && next.spends == state.spends && next.outputs == state.outputs)
      && (r.Err? && !FailsRangeCheck(t, state.valueBalance.inner, add) ==> next == state)
      && (FailsRangeCheck(t, state.valueBalance.inner, add) ==> r.Err? && next.valueBalance.inner == state.valueBalance.inner + add.Value())
  {
    BookedAndRejected(t, state, add);
    match add {
      case AddSpend(spend, _) => SpendTotalPrefix(state.spends, state.spends + [spend], |state.spends|);
      case AddOutput(output) => OutputTotalPrefix(state.outputs, state.outputs + [output], |state.outputs|);
    }
  }

  /** What an addition answers: first the bundle type, then the anchor, then the 128-bit sum, which
  fails differently on both sides, and last the range check. */
  lemma StepAnswer<P>(t: BundleType, state: State<P>, add: Addition<P>)
    ensures
      var balance, r := state.valueBalance.inner + add.Value(), Step(t, state, add).1;
      && (r == Err(BundleTypeNotSatisfiable) <==> add.AddSpend? && t.Coinbase?)
      && (r == Err(AnchorMismatch) <==> add.AddSpend? && t.Transactional? && !add.anchorMatches)
      && (r == Err(InvalidAddress) <==> add.AddOutput? && balance < -TWO_127)
      && (add.AddSpend? && t.Transactional? && add.anchorMatches ==>
            r == if -TWO_63 <= balance < TWO_63 then Ok(()) else Err(InvalidAmount))
      && (add.AddOutput? && -TWO_127 <= balance ==>
            r == if -TWO_63 <= balance < TWO_63 then Ok(()) else Err(InvalidAmount))
  {
  }

  // --- runs ---

  function New<P>(): State<P> {
    State(ValueSum(0), [], [])
  }

  // The state after the first n additions, failed ones included.
  function Run<P>(t: BundleType, adds: seq<Addition<P>>, n: nat): State<P>
    requires n <= |adds|
  {
    if n == 0 then New() else Step(t, Run(t, adds, n - 1), adds[n - 1]).0
  }

  predicate Succeeds<P>(t: BundleType, adds: seq<Addition<P>>, n: nat)
    requires n < |adds|
  {
    Step(t, Run(t, adds, n), adds[n]).1.Ok?
  }

  predicate DriftsAt<P>(t: BundleType, adds: seq<Addition<P>>, k: nat)
    requires k < |adds|
  {
    FailsRangeCheck(t, Run(t, adds, k).valueBalance.inner, adds[k])
  }

  // The arguments of the first n additions that were accepted, in the order of the calls.
  function AcceptedSpends<P>(t: BundleType, adds: seq<Addition<P>>, n: nat): seq<SpendInfo<P>>
    requires n <= |adds|
  {
    if n == 0 then []
    else AcceptedSpends(t, adds, n - 1) + if adds[n - 1].AddSpend? && Succeeds(t, adds, n - 1) then [adds[n - 1].spend] else []
  }

  function AcceptedOutputs<P>(t: BundleType, adds: seq<Addition<P>>, n: nat): seq<OutputInfo>
    requires n <= |adds|
  {
    if n == 0 then []
    else AcceptedOutputs(t, adds, n - 1) + if adds[n - 1].AddOutput? && Succeeds(t, adds, n - 1) then [adds[n - 1].output] else []
  }

  lemma StepStores<P>(t: BundleType, state: State<P>, add: Addition<P>)
    ensures
      var (next, r) := Step(t, state, add);
      && next.spends == state.spends + (if add.AddSpend? && r.Ok? then [add.spend] else [])
      && next.outputs == state.outputs + (if add.AddOutput? && r.Ok? then [add.output] else [])
  {
  }

  /** Over every run the builder holds exactly the accepted arguments, unchanged and in call order. */
  lemma {:induction false} RunStores<P>(t: BundleType, adds: seq<Addition<P>>, n: nat)
    requires n <= |adds|
    ensures Run(t, adds, n).spends == AcceptedSpends(t, adds, n) && Run(t, adds, n).outputs == AcceptedOutputs(t, adds, n)
  {
    if n > 0 {
      RunStores(t, adds, n - 1);
      StepStores(t, Run(t, adds, n - 1), adds[n - 1]);
    }
  }

  // The n-th accepted output is the argument of its own call: the one before which n others were accepted.
  lemma {:induction false} AcceptedOutputAt<P>(t: BundleType, adds: seq<Addition<P>>, i: nat, n: nat)
    requires i < n <= |adds| && adds[i].AddOutput? && Succeeds(t, adds, i)
    ensures |AcceptedOutputs(t, adds, i)| < |AcceptedOutputs(t, adds, n)|
    ensures AcceptedOutputs(t, adds, n)[|AcceptedOutputs(t, adds, i)|] == adds[i].output
  {
    if i < n - 1 { AcceptedOutputAt(t, adds, i, n - 1); }
  }

  // The number of calls for an output, or for a spend, among the first n.
  function OutputCalls<P>(adds: seq<Addition<P>>, n: nat): nat
    requires n <= |adds|
  {
    if n == 0 then 0 else OutputCalls(adds, n - 1) + if adds[n - 1].AddOutput? then 1 else 0
  }

  function SpendCalls<P>(adds: seq<Addition<P>>, n: nat): nat
    requires n <= |adds|
  {
    if n == 0 then 0 else SpendCalls(adds, n - 1) + if adds[n - 1].AddSpend? then 1 else 0
  }

  ghost predicate NoOutputFailed<P>(t: BundleType, adds: seq<Addition<P>>, n: nat)
    requires n <= |adds|
  {
    forall k: nat | k < n :: adds[k].AddOutput? ==> Succeeds(t, adds, k)
  }

  ghost predicate NoSpendFailed<P>(t: BundleType, adds: seq<Addition<P>>, n: nat)
    requires n <= |adds|
  {
    forall k: nat | k < n :: adds[k].AddSpend? ==> Succeeds(t, adds, k)
  }

  /** Positions count accepted calls: they are the numbers of the calls exactly while no earlier call of
  the same kind has failed. */
  lemma {:induction false} OutputPositionIff<P>(t: BundleType, adds: seq<Addition<P>>, n: nat)
    requires n <= |adds|
    ensures |AcceptedOutputs(t, adds, n)| <= OutputCalls(adds, n)
    ensures |AcceptedOutputs(t, adds, n)| == OutputCalls(adds, n) <==> NoOutputFailed(t, adds, n)
  {
    if n > 0 {
      OutputPositionIff(t, adds, n - 1);
      assert NoOutputFailed(t, adds, n) <==> NoOutputFailed(t, adds, n - 1) && (adds[n - 1].AddOutput? ==> Succeeds(t, adds, n - 1));
    }
  }

  lemma {:induction false} SpendPositionIff<P>(t: BundleType, adds: seq<Addition<P>>, n: nat)
    requires n <= |adds|
    ensures |AcceptedSpends(t, adds, n)| <= SpendCalls(adds, n)
    ensures |AcceptedSpends(t, adds, n)| == SpendCalls(adds, n) <==> NoSpendFailed(t, adds, n)
  {
    if n > 0 {
      SpendPositionIff(t, adds, n - 1);
      assert NoSpendFailed(t, adds, n) <==> NoSpendFailed(t, adds, n - 1) && (adds[n - 1].AddSpend? ==> Succeeds(t, adds, n - 1));
    }
  }

  lemma {:induction false} AcceptedSpendAt<P>(t: BundleType, adds: seq<Addition<P>>, i: nat, n: nat)
    requires i < n <= |adds| && adds[i].AddSpend? && Succeeds(t, adds, i)
    ensures |AcceptedSpends(t, adds, i)| < |AcceptedSpends(t, adds, n)|
    ensures AcceptedSpends(t, adds, n)[|AcceptedSpends(t, adds, i)|] == adds[i].spend
  {
    if i < n - 1 { AcceptedSpendAt(t, adds, i, n - 1); }
  }

  // What range checks have rejected after booking it.
  function Drift<P>(t: BundleType, adds: seq<Addition<P>>, n: nat): int
    requires n <= |adds|
  {
    if n == 0 then 0
    else Drift(t, adds, n - 1) + if DriftsAt(t, adds, n - 1) then adds[n - 1].Value() else 0
  }

  /** Over every run, the balance is the net of the accepted items plus what was rejected after
  having been booked. */
  lemma {:induction false} BalanceOfRun<P>(t: BundleType, adds: seq<Addition<P>>, n: nat)
    requires n <= |adds|
    ensures Run(t, adds, n).valueBalance.inner == Net(Run(t, adds, n)) + Drift(t, adds, n)
  {
    if n > 0 {
      BalanceOfRun(t, adds, n - 1);
      StepNet(t, Run(t, adds, n - 1), adds[n - 1]);
    }
  }

  ghost predicate BalanceIsNet<P>(t: BundleType, adds: seq<Addition<P>>, n: nat)
    requires n <= |adds|
  {
    Run(t, adds, n).valueBalance.inner == Net(Run(t, adds, n))
  }

  predicate FailsAt<P>(t: BundleType, adds: seq<Addition<P>>, k: nat)
    requires k < |adds|
  {
    FailsRangeCheck(t, Net(Run(t, adds, k)), adds[k])
  }

  // No addition fails the range check on top of the net value of what was accepted before it.
  ghost predicate NoneFailsRangeCheck<P>(t: BundleType, adds: seq<Addition<P>>, n: nat)
    requires n <= |adds|
  {
    forall k: nat | k < n :: !FailsAt(t, adds, k)
  }

  lemma StepFromNet<P>(t: BundleType, state: State<P>, add: Addition<P>)
    requires state.valueBalance.inner == Net(state)
    ensures var next := Step(t, state, add).0; next.valueBalance.inner == Net(next) <==> !FailsRangeCheck(t, Net(state), add)
    ensures state.valueBalance.TryIntoI64().Some? && !FailsRangeCheck(t, Net(state), add) ==> Step(t, state, add).0.valueBalance.TryIntoI64().Some?
  {
    StepNet(t, state, add);
  }

  // Without such a failure the balance is the net and never leaves 64 bits, whatever else failed.
  lemma {:induction false} InRange<P>(t: BundleType, adds: seq<Addition<P>>, n: nat)
    requires n <= |adds| && NoneFailsRangeCheck(t, adds, n)
    ensures BalanceIsNet(t, adds, n) && Run(t, adds, n).valueBalance.TryIntoI64().Some?
  {
    if n > 0 {
      InRange(t, adds, n - 1);
      assert !FailsAt(t, adds, n - 1);
      StepFromNet(t, Run(t, adds, n - 1), adds[n - 1]);
    }
  }

  /** The balance is the net of the accepted items after every prefix of a run exactly when no
  addition fails the range check on top of the values accepted before it. */
  lemma BalanceIsNetIff<P>(t: BundleType, adds: seq<Addition<P>>, n: nat)
    requires n <= |adds|
    ensures (forall m: nat | m <= n :: BalanceIsNet(t, adds, m)) <==> NoneFailsRangeCheck(t, adds, n)
  {
    if NoneFailsRangeCheck(t, adds, n) {
      forall m: nat | m <= n ensures BalanceIsNet(t, adds, m) {
        InRange(t, adds, m);
      }
    }
    if forall m: nat | m <= n :: BalanceIsNet(t, adds, m) {
      forall k: nat | k < n ensures !FailsAt(t, adds, k) {
        assert BalanceIsNet(t, adds, k) && BalanceIsNet(t, adds, k + 1);
        StepFromNet(t, Run(t, adds, k), adds[k]);
      }
    }
  }

  /** Over every run of successful additions, the balance is the net value and fits an i64. */
  lemma {:induction false} SuccessfulRun<P>(t: BundleType, adds: seq<Addition<P>>, n: nat)
    requires n <= |adds| && forall k: nat | k < n :: Succeeds(t, adds, k)
    ensures Drift(t, adds, n) == 0
    ensures Run(t, adds, n).valueBalance.inner == Net(Run(t, adds, n))
    ensures -TWO_63 <= Net(Run(t, adds, n)) < TWO_63
  {
    BalanceOfRun(t, adds, n);
    if n > 0 {
      SuccessfulRun(t, adds, n - 1);
      assert Succeeds(t, adds, n - 1);
      StepNet(t, Run(t, adds, n - 1), adds[n - 1]);
    }
  }

  // A spend of 2^63 is rejected, an output of one is then accepted, and the reported balance is
  // 2^63 - 1 where the accepted output alone gives -1.
  lemma RejectedSpendStaysBooked<P>(spend: SpendInfo<P>, output: OutputInfo)
    requires spend.note.value == TWO_63 && output.value == 1
    ensures
      var t, adds := Transactional(false), [AddSpend(spend, true), AddOutput(output)];
      && !Succeeds(t, adds, 0) && Succeeds(t, adds, 1)
      && Run(t, adds, 2).valueBalance.TryIntoI64() == Some(TWO_63 - 1)
      && Net(Run(t, adds, 2)) == -1
  {
    var t, adds := Transactional(false), [AddSpend(spend, true), AddOutput(output)];
    assert Run(t, adds, 0) == New();
    assert Run(t, adds, 1) == State(ValueSum(TWO_63), [], []);
    assert Run(t, adds, 2) == State(ValueSum(TWO_63 - 1), [], [output]);
    assert OutputTotal([output], 1) == OutputTotal([output], 0) + 1;
  }

  // --- the object ---

  class Builder<P> {
    const ops: NoteOps<P>
    const zip212: Zip212Enforcement
    const bundleType: BundleType
    const anchor: int
    var valueBalance: ValueSum
    var spends: seq<SpendInfo<P>>
    var outputs: seq<OutputInfo>

    // All additions so far, failed ones included.
    ghost var adds: seq<Addition<P>>

    ghost function Contents(): State<P> reads this {
      State(valueBalance, spends, outputs)
    }

    ghost predicate Valid() reads this {
      && Contents() == Run(bundleType, adds, |adds|)
      && (bundleType.Coinbase? ==> spends == [])
      && AllAdmitted(ops, spends, anchor)
      && (forall k: nat | k < |outputs| :: outputs[k].Valid())
    }

    constructor (ops: NoteOps<P>, zip212: Zip212Enforcement, bundleType: BundleType, anchor: int)
      ensures Valid() && adds == [] && Contents() == New()
      ensures this.ops == ops && this.zip212 == zip212 && this.bundleType == bundleType && this.anchor == anchor
    {
      this.ops, this.zip212, this.bundleType, this.anchor := ops, zip212, bundleType, anchor;
      valueBalance, spends, outputs, adds := ValueSum(0), [], [], [];
    }

    method AddSpend(fvk: FullViewingKey<P>, note: Note, merklePath: MerklePath) returns (r: Result<(), Error>)
      requires Valid()
      modifies this
      ensures Valid()
      ensures
        var info := SpendInfo(fvk, note, merklePath, None);
        var add := Addition.AddSpend(info, HasMatchingAnchor(ops, info, anchor));
        && adds == old(adds) + [add]
        && (Contents(), r) == Step(bundleType, old(Contents()), add)
        && spends == old(spends) + (if r.Ok? then [info] else []) && outputs == old(outputs)
    {
      var spend := SpendInfo(fvk, note, merklePath, None);
      adds := adds + [Addition.AddSpend(spend, HasMatchingAnchor(ops, spend, anchor))];
      RunPrefix(bundleType, old(adds), adds, |old(adds)|);
      match bundleType {
        case Transactional(_) => if !HasMatchingAnchor(ops, spend, anchor) { return Err(AnchorMismatch); }
        case Coinbase => return Err(BundleTypeNotSatisfiable);
      }
      var sum := valueBalance.Add(spend.note.value);
      if sum.None? { return Err(InvalidAmount); }
      valueBalance := sum.value;
      if valueBalance.TryIntoI64().None? { return Err(InvalidAmount); }
      spends := spends + [spend];
      return Ok(());
    }

    method AddOutput(ovk: Option<seq<byte>>, gd: seq<bool>, pkd: seq<bool>, value: U64, memo: seq<byte>)
      returns (r: Result<(), Error>)
      requires Valid() && OutputInfo(ovk, gd, pkd, value, memo).Valid()
      modifies this
      ensures Valid()
      ensures
        var info := OutputInfo(ovk, gd, pkd, value, memo);
        var add := Addition.AddOutput(info);
        && adds == old(adds) + [add]
        && (Contents(), r) == Step(bundleType, old(Contents()), add)
        && outputs == old(outputs) + (if r.Ok? then [info] else []) && spends == old(spends)
    {
      var output := OutputInfo(ovk, gd, pkd, value, memo);
      adds := adds + [Addition.AddOutput(output)];
      RunPrefix(bundleType, old(adds), adds, |old(adds)|);
      var sum := valueBalance.Subtract(value);
      if sum.None? { return Err(InvalidAddress); }
      valueBalance := sum.value;
      if valueBalance.TryIntoI64().None? { return Err(InvalidAmount); }
      outputs := outputs + [output];
      return Ok(());
    }

    // In the type of the caller, which may refuse values; None stands for the panic.
    method ValueBalance(accepts: I64 -> bool) returns (r: Option<I64>)
      requires Valid()
      ensures
        var balance := Net(Contents()) + Drift(bundleType, adds, |adds|);
        && (r.Some? <==> -TWO_63 <= balance < TWO_63 && accepts(balance))
        && (r.Some? ==> r.value == balance)
      ensures NoneFailsRangeCheck(bundleType, adds, |adds|) ==>
                -TWO_63 <= Net(Contents()) < TWO_63 && r == if accepts(Net(Contents())) then Some(Net(Contents())) else None
    {
      BalanceOfRun(bundleType, adds, |adds|);
      if NoneFailsRangeCheck(bundleType, adds, |adds|) { InRange(bundleType, adds, |adds|); }
      r := valueBalance.TryIntoI64();
      if r.Some? && !accepts(r.value) { r := None; }
    }
  }

  lemma {:induction false} RunPrefix<P>(t: BundleType, s: seq<Addition<P>>, u: seq<Addition<P>>, n: nat)
    requires n <= |s| && n <= |u| && forall k: nat | k < n :: s[k] == u[k]
    ensures Run(t, s, n) == Run(t, u, n)
  {
    if n > 0 { RunPrefix(t, s, u, n - 1); }
  }
}
