/** Values, their homomorphic commitments, and the binding keys on both sides of the balance check
(section 4.13 of the Zcash Protocol Specification). */
module ValueBalance {
  import opened Wrappers
  import opened Residues
  import opened Groups
  import opened Scalars

  const TWO_63: int := 0x8000_0000_0000_0000
  const TWO_127: int := 0x8000_0000_0000_0000_0000_0000_0000_0000

  type U64 = x: int | 0 <= x < 0x1_0000_0000_0000_0000
  type I64 = x: int | -0x8000_0000_0000_0000 <= x < 0x8000_0000_0000_0000
  type I128 = x: int | -0x8000_0000_0000_0000_0000_0000_0000_0000 <= x < 0x8000_0000_0000_0000_0000_0000_0000_0000

  /** A sum of note values, held in 128 bits; additions and subtractions are checked. */
  datatype ValueSum = ValueSum(inner: I128) {
    function Add(v: U64): Option<ValueSum> {
      var x: int, y: int := inner, v;
      if x + y < TWO_127 then Some(ValueSum(x + y)) else None
    }

    function Subtract(v: U64): Option<ValueSum> {
      var x: int, y: int := inner, v;
      if -TWO_127 <= x - y then Some(ValueSum(x - y)) else None
    }

    function TryIntoI64(): Option<I64> {
      var x: int := inner;
      if -TWO_63 <= x < TWO_63 then Some(x) else None
    }
  }

  // The sum of the first n values.
  function TotalTo(values: seq<U64>, n: nat): int
    requires n <= |values|
  {
    if n == 0 then 0 else TotalTo(values, n - 1) + values[n - 1]
  }

  function Total(values: seq<U64>): int {
    TotalTo(values, |values|)
  }

  // The checked folds over the first n values.
  function AddAll(start: ValueSum, values: seq<U64>, n: nat): Option<ValueSum>
    requires n <= |values|
  {
    if n == 0 then Some(start)
    else match AddAll(start, values, n - 1)
         case None => None
         case Some(sum) => sum.Add(values[n - 1])
  }

  function SubtractAll(start: ValueSum, values: seq<U64>, n: nat): Option<ValueSum>
    requires n <= |values|
  {
    if n == 0 then Some(start)
    else match SubtractAll(start, values, n - 1)
         case None => None
         case Some(sum) => sum.Subtract(values[n - 1])
  }

  lemma {:induction false} TotalBound(values: seq<U64>, n: nat)
    requires n <= |values|
    ensures 0 <= TotalTo(values, n) <= n * 0xffff_ffff_ffff_ffff
  {
    if n > 0 { TotalBound(values, n - 1); }
  }

  lemma {:induction false} AddAllIsTotal(start: ValueSum, values: seq<U64>, n: nat)
    requires n <= |values|
    ensures AddAll(start, values, n).Some? <==> start.inner + TotalTo(values, n) < TWO_127
    ensures AddAll(start, values, n).Some? ==> AddAll(start, values, n).value.inner == start.inner + TotalTo(values, n)
  {
    if n > 0 { AddAllIsTotal(start, values, n - 1); }
  }

  lemma {:induction false} SubtractAllIsTotal(start: ValueSum, values: seq<U64>, n: nat)
    requires n <= |values|
    ensures SubtractAll(start, values, n).Some? <==> -TWO_127 <= start.inner - TotalTo(values, n)
    ensures SubtractAll(start, values, n).Some?
            ==> SubtractAll(start, values, n).value.inner == start.inner - TotalTo(values, n)
  {
    if n > 0 { SubtractAllIsTotal(start, values, n - 1); }
  }

  // The net value as the bundle builder computes it: all inputs first, then all outputs.
  function NetValue(inputs: seq<U64>, outputs: seq<U64>): Option<ValueSum> {
    match AddAll(ValueSum(0), inputs, |inputs|)
    case None => None
    case Some(sum) => SubtractAll(sum, outputs, |outputs|)
  }

  // With at most 2^63 notes on each side, the folds never overflow and give the net value.
  lemma NetValueIsNet(inputs: seq<U64>, outputs: seq<U64>)
    requires |inputs| <= TWO_63 && |outputs| <= TWO_63
    ensures NetValue(inputs, outputs).Some?
    ensures NetValue(inputs, outputs).value.inner == Total(inputs) - Total(outputs)
  {
    TotalBound(inputs, |inputs|);
    TotalBound(outputs, |outputs|);
    AddAllIsTotal(ValueSum(0), inputs, |inputs|);
    SubtractAllIsTotal(AddAll(ValueSum(0), inputs, |inputs|).value, outputs, |outputs|);
  }

  // --- commitments ---

  /** The two independent generators of value commitments. */
  datatype Bases<!P> = Bases(group: Group<P>, value: P, randomness: P)

  ghost predicate AreBases<P(!new)>(b: Bases<P>) {
    IsGroup(b.group) && HasOrderR(b.group, b.value) && HasOrderR(b.group, b.randomness)
  }

  datatype Opening = Opening(value: U64, rcv: Fr)

  function Derive<P>(b: Bases<P>, o: Opening): P {
    b.group.add(Mul(b.group, o.value, b.value), Mul(b.group, o.rcv, b.randomness))
  }

  function Values(openings: seq<Opening>): (r: seq<U64>)
    ensures |r| == |openings|
  {
    seq(|openings|, i requires 0 <= i < |openings| => openings[i].value)
  }

  function TrapdoorSumTo(openings: seq<Opening>, n: nat): Fr
    requires n <= |openings|
  {
    if n == 0 then 0 else FrAdd(TrapdoorSumTo(openings, n - 1), openings[n - 1].rcv)
  }

  function TrapdoorSum(openings: seq<Opening>): Fr {
    TrapdoorSumTo(openings, |openings|)
  }

  function CommitmentSumTo<P>(g: Group<P>, commitments: seq<P>, n: nat): P
    requires n <= |commitments|
  {
    if n == 0 then g.zero else g.add(CommitmentSumTo(g, commitments, n - 1), commitments[n - 1])
  }

  function CommitmentSum<P>(g: Group<P>, commitments: seq<P>): P {
    CommitmentSumTo(g, commitments, |commitments|)
  }

  function DeriveAll<P>(b: Bases<P>, openings: seq<Opening>): (r: seq<P>)
    ensures |r| == |openings|
  {
    seq(|openings|, i requires 0 <= i < |openings| => Derive(b, openings[i]))
  }

  function CheckedAbs(x: I64): Option<I64> {
    var y: int := x;
    if y == -TWO_63 then None else Some(if y < 0 then -y else y)
  }

  // The binding verification key that the verifier recomputes.
  function IntoBvk<P>(b: Bases<P>, sum: P, valueBalance: I64): P {
    var magnitude: U64 := match CheckedAbs(valueBalance) case Some(v) => v case None => TWO_63;
    var scalar: Fr := if valueBalance < 0 then FrNeg(magnitude) else magnitude;
    Sub(b.group, sum, Mul(b.group, scalar, b.value))
  }

  function BindingKey<P>(b: Bases<P>, bsk: Fr): P {
    Mul(b.group, bsk, b.randomness)
  }

  // A point that commits to a value and a trapdoor, both possibly negative.
  ghost function Commitment<P>(b: Bases<P>, value: int, trapdoor: int): P {
    b.group.add(Mul(b.group, value, b.value), Mul(b.group, trapdoor, b.randomness))
  }

  lemma CommitmentAdds<P(!new)>(b: Bases<P>, v1: int, t1: int, v2: int, t2: int)
    requires IsGroup(b.group)
    ensures b.group.add(Commitment(b, v1, t1), Commitment(b, v2, t2)) == Commitment(b, v1 + v2, t1 + t2)
  {
    var g := b.group;
    Interchange(g, Mul(g, v1, b.value), Mul(g, t1, b.randomness), Mul(g, v2, b.value), Mul(g, t2, b.randomness));
    MulAdd(g, v1, v2, b.value);
    MulAdd(g, t1, t2, b.randomness);
  }

  lemma CommitmentSubtracts<P(!new)>(b: Bases<P>, v1: int, t1: int, v2: int, t2: int)
    requires IsGroup(b.group)
    ensures Sub(b.group, Commitment(b, v1, t1), Commitment(b, v2, t2)) == Commitment(b, v1 - v2, t1 - t2)
  {
    CommitmentAdds(b, v1 - v2, t1 - t2, v2, t2);
    SubIff(b.group, Commitment(b, v1, t1), Commitment(b, v2, t2), Commitment(b, v1 - v2, t1 - t2));
  }

  // Only the residue of the trapdoor matters.
  lemma CommitmentReduced<P(!new)>(b: Bases<P>, value: int, t1: int, t2: int)
    requires AreBases(b) && Cong(JUBJUB_ORDER, t1, t2)
    ensures Commitment(b, value, t1) == Commitment(b, value, t2)
  {
    GeneratorInSubgroup(b.group, b.randomness);
    SameMultiple(b.group, b.randomness, t1, t2);
  }

  // Adding one opened commitment.
  lemma CommitOne<P(!new)>(b: Bases<P>, value: int, t: Fr, o: Opening)
    requires AreBases(b)
    ensures b.group.add(Commitment(b, value, t), Derive(b, o)) == Commitment(b, value + o.value, FrAdd(t, o.rcv))
  {
    var x: int, y: int, v: int := t, o.rcv, o.value;
    assert Derive(b, o) == Commitment(b, v, y);
    CongRefl(JUBJUB_ORDER, x);
    CongRefl(JUBJUB_ORDER, y);
    FrAddCong(t, x, o.rcv, y);
    CommitmentAdds(b, value, x, v, y);
    CommitmentReduced(b, value + v, FrAdd(t, o.rcv), x + y);
  }

  lemma CommitNext<P(!new)>(b: Bases<P>, sum: P, value: int, t: Fr, o: Opening, nextValue: int, nextT: Fr)
    requires AreBases(b) && sum == Commitment(b, value, t)
    requires nextValue == value + o.value && nextT == FrAdd(t, o.rcv)
    ensures b.group.add(sum, Derive(b, o)) == Commitment(b, nextValue, nextT)
  {
    CommitOne(b, value, t, o);
  }

  // The next opening of a list, seen from its three sums.
  lemma SumStep<P>(b: Bases<P>, openings: seq<Opening>, n: nat)
    requires 0 < n <= |openings|
    ensures CommitmentSumTo(b.group, DeriveAll(b, openings), n)
            == b.group.add(CommitmentSumTo(b.group, DeriveAll(b, openings), n - 1), Derive(b, openings[n - 1]))
    ensures TotalTo(Values(openings), n) == TotalTo(Values(openings), n - 1) + openings[n - 1].value
    ensures TrapdoorSumTo(openings, n) == FrAdd(TrapdoorSumTo(openings, n - 1), openings[n - 1].rcv)
  {
  }

  lemma CommitmentOfZero<P(!new)>(b: Bases<P>)
    requires IsGroup(b.group)
    ensures Commitment(b, 0, 0) == b.group.zero
  {
    Neutral(b.group, b.group.zero);
  }

  // Commitments are homomorphic: their sum commits to the sum of the values.
  lemma {:induction false} SumCommitsToTotal<P(!new)>(b: Bases<P>, openings: seq<Opening>, n: nat)
    requires AreBases(b) && n <= |openings|
    ensures CommitmentSumTo(b.group, DeriveAll(b, openings), n)
            == Commitment(b, TotalTo(Values(openings), n), TrapdoorSumTo(openings, n))
  {
    if n == 0 {
      CommitmentOfZero(b);
    } else {
      SumCommitsToTotal(b, openings, n - 1);
      SumStep(b, openings, n);
      CommitNext(b, CommitmentSumTo(b.group, DeriveAll(b, openings), n - 1), TotalTo(Values(openings), n - 1),
                 TrapdoorSumTo(openings, n - 1), openings[n - 1], TotalTo(Values(openings), n), TrapdoorSumTo(openings, n));
    }
  }

  // The case split on the sign, with its special case at the least i64, subtracts the signed value.
  lemma IntoBvkSubtracts<P(!new)>(b: Bases<P>, sum: P, valueBalance: I64)
    requires AreBases(b)
    ensures IntoBvk(b, sum, valueBalance) == Sub(b.group, sum, Mul(b.group, valueBalance, b.value))
  {
    if valueBalance < 0 {
      var x: int := valueBalance;
      var magnitude: U64 := -x;
      CongRefl(JUBJUB_ORDER, magnitude);
      FrNegCong(magnitude, -x);
      GeneratorInSubgroup(b.group, b.value);
      SameMultiple(b.group, b.value, FrNeg(magnitude), x);
    }
  }

  /** The recomputed key is the one of the trapdoor exactly when the declared balance is the
  committed value, modulo the group order. */
  lemma BvkMatchesIff<P(!new)>(b: Bases<P>, value: int, bsk: Fr, valueBalance: I64)
    requires AreBases(b)
    ensures IntoBvk(b, Commitment(b, value, bsk), valueBalance) == BindingKey(b, bsk)
            <==> Cong(JUBJUB_ORDER, value, valueBalance)
  {
    var g := b.group;
    IntoBvkSubtracts(b, Commitment(b, value, bsk), valueBalance);
    SubIff(g, Commitment(b, value, bsk), Mul(g, valueBalance, b.value), BindingKey(b, bsk));
    Comm(g, BindingKey(b, bsk), Mul(g, valueBalance, b.value));
    MultiplesEqualIff(g, b.value, value, valueBalance);
    if b.group.add(Mul(g, value, b.value), BindingKey(b, bsk)) == b.group.add(Mul(g, valueBalance, b.value), BindingKey(b, bsk)) {
      CancelRight(g, Mul(g, value, b.value), Mul(g, valueBalance, b.value), BindingKey(b, bsk));
    }
  }

  // Net values of realistic lists do not wrap the group order.
  lemma NetIsExact(inputs: seq<U64>, outputs: seq<U64>, valueBalance: I64)
    requires |inputs| <= TWO_63 && |outputs| <= TWO_63
    ensures Cong(JUBJUB_ORDER, Total(inputs) - Total(outputs), valueBalance) <==> Total(inputs) - Total(outputs) == valueBalance
  {
    TotalBound(inputs, |inputs|);
    TotalBound(outputs, |outputs|);
    var net := Total(inputs) - Total(outputs);
    var d := net - valueBalance;
    CongDiff(JUBJUB_ORDER, net, valueBalance);
    CongRefl(JUBJUB_ORDER, net);
    if d != 0 { SmallNotCongruent(d); }
  }

  function Bsk(spends: seq<Opening>, outputs: seq<Opening>): Fr {
    FrSub(TrapdoorSum(spends), TrapdoorSum(outputs))
  }

  // Spend commitments minus output commitments commit to the net value under bsk.
  lemma NetCommits<P(!new)>(b: Bases<P>, spends: seq<Opening>, outputs: seq<Opening>)
    requires AreBases(b)
    ensures Sub(b.group, CommitmentSum(b.group, DeriveAll(b, spends)), CommitmentSum(b.group, DeriveAll(b, outputs)))
            == Commitment(b, Total(Values(spends)) - Total(Values(outputs)), Bsk(spends, outputs))
  {
    SumCommitsToTotal(b, spends, |spends|);
    SumCommitsToTotal(b, outputs, |outputs|);
    DifferenceCommits(b, Total(Values(spends)), TrapdoorSum(spends), Total(Values(outputs)), TrapdoorSum(outputs));
  }

  lemma DifferenceCommits<P(!new)>(b: Bases<P>, v1: int, t1: Fr, v2: int, t2: Fr)
    requires AreBases(b)
    ensures Sub(b.group, Commitment(b, v1, t1), Commitment(b, v2, t2)) == Commitment(b, v1 - v2, FrSub(t1, t2))
  {
    var x: int, y: int := t1, t2;
    CommitmentSubtracts(b, v1, x, v2, y);
    CongRefl(JUBJUB_ORDER, x);
    CongRefl(JUBJUB_ORDER, y);
    FrSubCong(t1, x, t2, y);
    CommitmentReduced(b, v1 - v2, FrSub(t1, t2), x - y);
  }

  /** Conservation: the signing side and the verifying side meet in one key exactly when the
  declared balance is the inputs minus the outputs. */
  lemma BalanceIff<P(!new)>(b: Bases<P>, spends: seq<Opening>, outputs: seq<Opening>, valueBalance: I64)
    requires AreBases(b) && |spends| <= TWO_63 && |outputs| <= TWO_63
    ensures
      IntoBvk(b, Sub(b.group, CommitmentSum(b.group, DeriveAll(b, spends)), CommitmentSum(b.group, DeriveAll(b, outputs))),
              valueBalance) == BindingKey(b, Bsk(spends, outputs))
      <==> Total(Values(spends)) - Total(Values(outputs)) == valueBalance
  {
    NetCommits(b, spends, outputs);
    BvkMatchesIff(b, Total(Values(spends)) - Total(Values(outputs)), Bsk(spends, outputs), valueBalance);
    NetIsExact(Values(spends), Values(outputs), valueBalance);
  }
}
