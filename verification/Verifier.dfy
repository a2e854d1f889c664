/** Verification of a bundle: the context that accumulates value commitments, for one bundle at a
time and for batches. */
module Verifier {
  import opened Wrappers
  import opened Bytes
  import opened Groups
  import opened JubjubGroup
  import opened ValueBalance
  import opened Signing

  type ProofBytes = seq<byte>
  type Checked<P> = AuthorizedBundle<P, ProofBytes, ProofBytes>

  /** Everything the verifier takes from other libraries: proof and point decoding, the small-order
  test, proof verification against public inputs, and a nullifier as two field elements. */
  datatype Libraries<!P> = Libraries(curve: Curve<P>, bases: Bases<P>, schemes: Schemes<P>,
                                     proofReads: ProofBytes -> bool, epkFromBytes: seq<byte> -> Option<P>,
                                     isSmallOrder: P -> bool, pack: seq<byte> -> (int, int),
                                     spendProof: (ProofBytes, seq<int>) -> bool,
                                     outputProof: (ProofBytes, seq<int>) -> bool) {
    // The public inputs of the two circuits, in order.
    function SpendInput(rk: P, cv: P, anchor: int, nullifier: seq<byte>): seq<int> {
      [curve.u(rk), curve.v(rk), curve.u(cv), curve.v(cv), anchor, pack(nullifier).0, pack(nullifier).1]
    }

    function OutputInput(cv: P, epk: P, cmu: int): seq<int> {
      [curve.u(cv), curve.v(cv), curve.u(epk), curve.v(epk), cmu]
    }
  }

  // --- the accumulated commitments ---

  datatype Item<P> = Spent(cv: P) | Created(cv: P)

  function Accumulate<P>(g: Group<P>, sum: P, item: Item<P>): P {
    match item
    case Spent(cv) => g.add(sum, cv)
    case Created(cv) => Sub(g, sum, cv)
  }

  function CvAfter<P>(g: Group<P>, items: seq<Item<P>>, n: nat): P
    requires n <= |items|
  {
    if n == 0 then g.zero else Accumulate(g, CvAfter(g, items, n - 1), items[n - 1])
  }

  function SpentCvs<P>(items: seq<Item<P>>, n: nat): seq<P>
    requires n <= |items|
  {
    if n == 0 then []
    else if items[n - 1].Spent? then SpentCvs(items, n - 1) + [items[n - 1].cv] else SpentCvs(items, n - 1)
  }

  function CreatedCvs<P>(items: seq<Item<P>>, n: nat): seq<P>
    requires n <= |items|
  {
    if n == 0 then []
    else if items[n - 1].Created? then CreatedCvs(items, n - 1) + [items[n - 1].cv] else CreatedCvs(items, n - 1)
  }

  lemma {:induction false} CommitmentSumPrefix<P>(g: Group<P>, s: seq<P>, t: seq<P>, n: nat)
    requires n <= |s| && n <= |t| && forall k: nat | k < n :: s[k] == t[k]
    ensures CommitmentSumTo(g, s, n) == CommitmentSumTo(g, t, n)
  {
    if n > 0 { CommitmentSumPrefix(g, s, t, n - 1); }
  }

  lemma CommitmentSumAppend<P>(g: Group<P>, s: seq<P>, x: P)
    ensures CommitmentSum(g, s + [x]) == g.add(CommitmentSum(g, s), x)
  {
    CommitmentSumPrefix(g, s, s + [x], |s|);
  }

  // (a + x) - b and (a - b) + x, (a - b) - x and a - (b + x).
  lemma SubRearranged<P(!new)>(g: Group<P>, a: P, b: P, x: P)
    requires IsGroup(g)
    ensures Sub(g, g.add(a, x), b) == g.add(Sub(g, a, b), x)
    ensures Sub(g, a, g.add(b, x)) == Sub(g, Sub(g, a, b), x)
  {
    Assoc(g, a, x, g.neg(b));
    Comm(g, x, g.neg(b));
    Assoc(g, a, g.neg(b), x);
    NegAdd(g, b, x);
    Assoc(g, a, g.neg(b), g.neg(x));
  }

  /** Whatever the order of the checks, the context holds spends minus outputs. */
  lemma {:induction false} CvAfterIsDifference<P(!new)>(g: Group<P>, items: seq<Item<P>>, n: nat)
    requires IsGroup(g) && n <= |items|
    ensures CvAfter(g, items, n) == Sub(g, CommitmentSum(g, SpentCvs(items, n)), CommitmentSum(g, CreatedCvs(items, n)))
  {
    if n == 0 {
      Neutral(g, g.zero);
    } else {
      CvAfterIsDifference(g, items, n - 1);
      var spent, created := SpentCvs(items, n - 1), CreatedCvs(items, n - 1);
      CommitmentSumAppend(g, spent, items[n - 1].cv);
      CommitmentSumAppend(g, created, items[n - 1].cv);
      SubRearranged(g, CommitmentSum(g, spent), CommitmentSum(g, created), items[n - 1].cv);
    }
  }

  function Without<P>(s: seq<P>, i: nat): seq<P>
    requires i < |s|
  {
    s[..i] + s[i + 1..]
  }

  // Taking one summand out.
  lemma {:induction false} SumWithout<P(!new)>(g: Group<P>, s: seq<P>, i: nat, n: nat)
    requires IsGroup(g) && i < n <= |s|
    ensures CommitmentSumTo(g, s, n) == g.add(CommitmentSumTo(g, Without(s, i), n - 1), s[i])
  {
    var rest := Without(s, i);
    if n == i + 1 {
      CommitmentSumPrefix(g, s, rest, i);
    } else {
      SumWithout(g, s, i, n - 1);
      assert rest[n - 2] == s[n - 1];
      var before := CommitmentSumTo(g, rest, n - 2);
      Assoc(g, before, s[i], s[n - 1]);
      Comm(g, s[i], s[n - 1]);
      Assoc(g, before, s[n - 1], s[i]);
    }
  }

  lemma WithoutMultiset<P>(s: seq<P>, i: nat)
    requires i < |s|
    ensures multiset(Without(s, i)) == multiset(s) - multiset{s[i]}
  {
    assert s == s[..i] + [s[i]] + s[i + 1..];
  }

  // The sum does not depend on the order of the commitments.
  lemma {:induction false} SumOfPermutation<P(!new)>(g: Group<P>, s: seq<P>, t: seq<P>)
    requires IsGroup(g) && multiset(s) == multiset(t)
    ensures CommitmentSum(g, s) == CommitmentSum(g, t)
    decreases |s|
  {
    assert |s| == |multiset(s)| == |multiset(t)| == |t|;
    if s != [] {
      var last := |s| - 1;
      assert s[last] in multiset(t);
      var i: nat :| i < |t| && t[i] == s[last];
      WithoutMultiset(s, last);
      WithoutMultiset(t, i);
      SumOfPermutation(g, Without(s, last), Without(t, i));
      SumWithout(g, s, last, |s|);
      SumWithout(g, t, i, |t|);
    }
  }

  /** The verifier's key is the signer's key exactly for the true balance, whichever way the checks
  were interleaved and the commitments shuffled. */
  lemma VerifierKeyIff<P(!new)>(b: Bases<P>, items: seq<Item<P>>, spends: seq<Opening>, outputs: seq<Opening>, valueBalance: I64)
    requires AreBases(b) && |spends| <= TWO_63 && |outputs| <= TWO_63
    requires multiset(SpentCvs(items, |items|)) == multiset(DeriveAll(b, spends))
    requires multiset(CreatedCvs(items, |items|)) == multiset(DeriveAll(b, outputs))
    ensures IntoBvk(b, CvAfter(b.group, items, |items|), valueBalance) == BindingKey(b, Bsk(spends, outputs))
            <==> Total(Values(spends)) - Total(Values(outputs)) == valueBalance
  {
    CvAfterIsDifference(b.group, items, |items|);
    SumOfPermutation(b.group, SpentCvs(items, |items|), DeriveAll(b, spends));
    SumOfPermutation(b.group, CreatedCvs(items, |items|), DeriveAll(b, outputs));
    BalanceIff(b, spends, outputs, valueBalance);
  }

  // --- the context ---

  /** The context of one bundle.  `history` lists the accumulated items; `cvSum` is the real state. */
  class VerificationContext<P(!new, ==)> {
    const lib: Libraries<P>
    var cvSum: P
    ghost var history: seq<Item<P>>

    ghost predicate Valid() reads this {
      cvSum == CvAfter(lib.bases.group, history, |history|)
    }

    constructor (lib: Libraries<P>)
      ensures Valid() && history == [] && this.lib == lib && cvSum == lib.bases.group.zero
    {
      this.lib := lib;
      cvSum := lib.bases.group.zero;
      history := [];
    }

    // The verifier closures thread a context of their own: unit for single bundles, the queues for batches.
    method CheckSpend<C>(cv: P, anchor: int, nullifier: seq<byte>, rk: P, zkproof: ProofBytes, context: C,
                         sigVerifier: (C, P) -> (bool, C), proofVerifier: (C, ProofBytes, seq<int>) -> (bool, C))
      returns (ok: bool, after: C)
      requires Valid()
      modifies this
      ensures Valid()
      ensures
        var afterSig := sigVerifier(context, rk);
        var afterProof := proofVerifier(afterSig.1, zkproof, lib.SpendInput(rk, cv, anchor, nullifier));
        if lib.isSmallOrder(rk) then !ok && after == context && cvSum == old(cvSum) && history == old(history)
        else
          && cvSum == lib.bases.group.add(old(cvSum), cv) && history == old(history) + [Spent(cv)]
          && ok == (afterSig.0 && afterProof.0)
          && after == if afterSig.0 then afterProof.1 else afterSig.1
    {
      if lib.isSmallOrder(rk) { return false, context; }
      cvSum := lib.bases.group.add(cvSum, cv);
      history := history + [Spent(cv)];
      ExtendHistory(lib.bases.group, old(history), Spent(cv));
      var (sigOk, afterSig) := sigVerifier(context, rk);
      if !sigOk { return false, afterSig; }
      var publicInput := new int[7];
      publicInput[0], publicInput[1] := lib.curve.u(rk), lib.curve.v(rk);
      publicInput[2], publicInput[3] := lib.curve.u(cv), lib.curve.v(cv);
      publicInput[4] := anchor;
      publicInput[5], publicInput[6] := lib.pack(nullifier).0, lib.pack(nullifier).1;
      assert publicInput[..] == lib.SpendInput(rk, cv, anchor, nullifier);
      var (proofOk, afterProof) := proofVerifier(afterSig, zkproof, publicInput[..]);
      return proofOk, afterProof;
    }

    method CheckOutput<C>(cv: P, cmu: int, epk: P, zkproof: ProofBytes, context: C,
                          proofVerifier: (C, ProofBytes, seq<int>) -> (bool, C))
      returns (ok: bool, after: C)
      requires Valid()
      modifies this
      ensures Valid()
      ensures
        var afterProof := proofVerifier(context, zkproof, lib.OutputInput(cv, epk, cmu));
        if lib.isSmallOrder(epk) then !ok && after == context && cvSum == old(cvSum) && history == old(history)
        else
          && cvSum == Sub(lib.bases.group, old(cvSum), cv) && history == old(history) + [Created(cv)]
          && ok == afterProof.0 && after == afterProof.1
    {
      if lib.isSmallOrder(epk) { return false, context; }
      cvSum := Sub(lib.bases.group, cvSum, cv);
      history := history + [Created(cv)];
      ExtendHistory(lib.bases.group, old(history), Created(cv));
      var publicInput := new int[5];
      publicInput[0], publicInput[1] := lib.curve.u(cv), lib.curve.v(cv);
      publicInput[2], publicInput[3] := lib.curve.u(epk), lib.curve.v(epk);
      publicInput[4] := cmu;
      assert publicInput[..] == lib.OutputInput(cv, epk, cmu);
      var (proofOk, afterProof) := proofVerifier(context, zkproof, publicInput[..]);
      return proofOk, afterProof;
    }

    method FinalCheck<C>(valueBalance: I64, context: C, bindingVerifier: (C, P) -> (bool, C)) returns (ok: bool, after: C)
      requires Valid()
      ensures
        var afterBinding := bindingVerifier(context, IntoBvk(lib.bases, CvAfter(lib.bases.group, history, |history|), valueBalance));
        ok == afterBinding.0 && after == afterBinding.1
    {
      var bvk := IntoBvk(lib.bases, cvSum, valueBalance);
      var (bindingOk, afterBinding) := bindingVerifier(context, bvk);
      return bindingOk, afterBinding;
    }
  }

  lemma ExtendHistory<P>(g: Group<P>, items: seq<Item<P>>, item: Item<P>)
    ensures CvAfter(g, items + [item], |items| + 1) == Accumulate(g, CvAfter(g, items, |items|), item)
  {
    CvAfterPrefix(g, items, items + [item], |items|);
  }

  lemma {:induction false} CvAfterPrefix<P>(g: Group<P>, s: seq<Item<P>>, t: seq<Item<P>>, n: nat)
    requires n <= |s| && n <= |t| && forall k: nat | k < n :: s[k] == t[k]
    ensures CvAfter(g, s, n) == CvAfter(g, t, n)
  {
    if n > 0 { CvAfterPrefix(g, s, t, n - 1); }
  }
}
