/** Shuffles: orders of the positions of a list, and what does not depend on them. */
module Permutations {
  import opened Groups
  import opened ValueBalance
  import opened Verifier

  function Positions(n: nat): (r: seq<nat>)
    ensures |r| == n
  {
    seq(n, i => i)
  }

  // The order of the original positions after a shuffle of n items.
  ghost predicate IsOrder(order: seq<nat>, n: nat) {
    multiset(order) == multiset(Positions(n))
  }

  function Select<T>(items: seq<T>, order: seq<nat>): (r: seq<T>)
    requires forall i: nat | i < |order| :: order[i] < |items|
    ensures |r| == |order|
  {
    seq(|order|, i requires 0 <= i < |order| => items[order[i]])
  }

  lemma PositionsDistinct(n: nat, x: nat)
    ensures multiset(Positions(n))[x] == if x < n then 1 else 0
  {
    if n == 0 {
      assert Positions(0) == [];
    } else {
      PositionsDistinct(n - 1, x);
      assert Positions(n) == Positions(n - 1) + [n - 1];
    }
  }

  // An order lists every position, and once.
  lemma OrderIsBijective(order: seq<nat>, n: nat)
    requires IsOrder(order, n)
    ensures |order| == n
    ensures forall i: nat | i < n :: order[i] < n
    ensures forall i: nat, j: nat | i < j < n :: order[i] != order[j]
    ensures forall x: nat | x < n :: x in order
  {
    assert |order| == |multiset(order)| == |multiset(Positions(n))| == n;
    forall i: nat | i < n
      ensures order[i] < n
    {
      PositionsDistinct(n, order[i]);
      assert order[i] in multiset(order);
    }
    forall i: nat, j: nat | i < j < n
      ensures order[i] != order[j]
    {
      PositionsDistinct(n, order[i]);
      if order[i] == order[j] { TwiceInMultiset(order, i, j); }
    }
    forall x: nat | x < n
      ensures x in order
    {
      PositionsDistinct(n, x);
      assert x in multiset(order);
    }
  }

  lemma TwiceInMultiset(s: seq<nat>, i: nat, j: nat)
    requires i < j < |s| && s[i] == s[j]
    ensures multiset(s)[s[i]] >= 2
  {
    assert s == s[..j] + s[j..];
    assert s[i] in s[..j] && s[i] in s[j..];
  }

  lemma Find(s: seq<nat>, x: nat) returns (i: nat)
    requires x in multiset(s)
    ensures i < |s| && s[i] == x
  {
    i :| i < |s| && s[i] == x;
  }

  // Equal multisets stay equal under selection.
  lemma {:induction false} SelectMultiset<T>(items: seq<T>, s: seq<nat>, t: seq<nat>)
    requires multiset(s) == multiset(t)
    requires forall i: nat | i < |s| :: s[i] < |items|
    requires forall i: nat | i < |t| :: t[i] < |items|
    ensures multiset(Select(items, s)) == multiset(Select(items, t))
    decreases |s|
  {
    assert |s| == |multiset(s)| == |multiset(t)| == |t|;
    if s != [] {
      var last := |s| - 1;
      var i := Find(t, s[last]);
      WithoutMultiset(s, last);
      WithoutMultiset(t, i);
      SelectMultiset(items, Without(s, last), Without(t, i));
      SelectWithout(items, s, last);
      SelectWithout(items, t, i);
    }
  }

  lemma SelectWithout<T>(items: seq<T>, s: seq<nat>, i: nat)
    requires i < |s| && forall k: nat | k < |s| :: s[k] < |items|
    ensures multiset(Select(items, s)) == multiset(Select(items, Without(s, i))) + multiset{items[s[i]]}
  {
    WithoutMultiset(Select(items, s), i);
    assert Without(Select(items, s), i) == Select(items, Without(s, i));
  }

  // A shuffled list holds the same items.
  lemma ShuffleKeepsItems<T>(items: seq<T>, order: seq<nat>)
    requires IsOrder(order, |items|)
    ensures |order| == |items| && forall i: nat | i < |order| :: order[i] < |items|
    ensures multiset(Select(items, order)) == multiset(items)
  {
    OrderIsBijective(order, |items|);
    SelectMultiset(items, order, Positions(|items|));
    assert Select(items, Positions(|items|)) == items;
  }

  // --- sums of values do not depend on the order ---

  function Integers(): Group<int> {
    Group(0, (x: int, y: int) => x + y, (x: int) => -x)
  }

  function AsIntegers(values: seq<U64>): (r: seq<int>)
    ensures |r| == |values|
  {
    seq(|values|, i requires 0 <= i < |values| => values[i] as int)
  }

  lemma {:induction false} TotalIsSum(values: seq<U64>, n: nat)
    requires n <= |values|
    ensures CommitmentSumTo(Integers(), AsIntegers(values), n) == TotalTo(values, n)
  {
    if n > 0 { TotalIsSum(values, n - 1); }
  }

  lemma TotalOfShuffle(values: seq<U64>, order: seq<nat>)
    requires IsOrder(order, |values|)
    ensures |order| == |values| && forall i: nat | i < |order| :: order[i] < |values|
    ensures Total(Select(values, order)) == Total(values)
  {
    ShuffleKeepsItems(AsIntegers(values), order);
    assert IsGroup(Integers()) by {
      assert forall x: int, y: int, z: int :: AssociativeAt(Integers(), x, y, z);
      assert forall x: int, y: int :: CommutativeAt(Integers(), x, y);
      assert forall x: int :: NeutralAt(Integers(), x);
    }
    SumOfPermutation(Integers(), Select(AsIntegers(values), order), AsIntegers(values));
    assert Select(AsIntegers(values), order) == AsIntegers(Select(values, order));
    TotalIsSum(values, |values|);
    TotalIsSum(Select(values, order), |order|);
  }

  // --- shuffling and recording where every item went ---

  /** Takes the items in the given order and records, for each of the first `requested` items, the
  position it moved to. */
  method ShuffleAndRecord<T>(items: seq<T>, order: seq<nat>, requested: nat) returns (shuffled: seq<T>, indices: seq<nat>)
    requires IsOrder(order, |items|) && requested <= |items|
    requires |order| == |items| && forall i: nat | i < |order| :: order[i] < |items|
    ensures shuffled == Select(items, order) && |indices| == requested
    ensures forall n: nat | n < requested :: indices[n] < |items| && order[indices[n]] == n && shuffled[indices[n]] == items[n]
    ensures forall m: nat, n: nat | m < n < requested :: indices[m] != indices[n]
    ensures forall i: nat | i < |items| :: i in indices <==> order[i] < requested
  {
    OrderIsBijective(order, |items|);
    var recorded := new nat[requested](_ => 0);
    shuffled := [];
    for i := 0 to |order|
      invariant |shuffled| == i && forall j: nat | j < i :: shuffled[j] == items[order[j]]
      invariant forall j: nat | j < i && order[j] < requested :: recorded[order[j]] == j
    {
      if order[i] < requested { recorded[order[i]] := i; }
      shuffled := shuffled + [items[order[i]]];
    }
    indices := recorded[..];
    forall n: nat | n < requested
      ensures indices[n] < |items| && order[indices[n]] == n
    {
      assert n in order;
      var j: nat :| j < |order| && order[j] == n;
      assert recorded[order[j]] == j;
    }
    forall i: nat | i < |items| && order[i] < requested
      ensures i in indices
    {
      assert indices[order[i]] == i;
    }
  }
}
