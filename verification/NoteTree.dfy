/** Note commitments, the note commitment tree and nullifiers, as computed outside the circuit. */
module NoteTree {
  import opened Residues
  import opened Powers
  import opened Bytes
  import opened Groups
  import opened JubjubGroup
  import opened Scalars
  import opened JubjubConstants
  import opened PedersenSpec
  import opened ValueBalance

  const TREE_DEPTH: nat := 32
  const SCALAR_BITS: nat := 255

  /** The curve with the generators that notes use, and the nullifier hash. */
  datatype Sapling<!P> = Sapling(curve: Curve<P>, pedersen: seq<P>, noteRandomness: P, nullifierPosition: P,
                                 valueBase: P, valueRandomness: P, prfNf: (P, P) -> seq<byte>) {
    function ValueBases(): Bases<P> {
      Bases(curve.group, valueBase, valueRandomness)
    }
  }

  ghost predicate IsSapling<P(!new)>(s: Sapling<P>) {
    && IsCurve(s.curve)
    && AreBases(s.ValueBases())
    && |s.pedersen| == 6
    && (forall k: nat | k < 6 :: HasOrderR(s.curve.group, s.pedersen[k]))
    && HasOrderR(s.curve.group, s.noteRandomness)
    && HasOrderR(s.curve.group, s.nullifierPosition)
    && Pow(2, 254) < s.curve.params.field.q < Pow(2, SCALAR_BITS)
  }

  /** The representative of a residue class below the field order. */
  function Canonical(q: int, x: int): int
    requires q > 0
  {
    x % q
  }

  lemma CanonicalEqual(q: int, x: int, y: int)
    requires q > 0
    ensures Cong(q, x, y) <==> Canonical(q, x) == Canonical(q, y)
    ensures Cong(q, Canonical(q, x), x)
    ensures 0 <= Canonical(q, x) < q
  {
    var k, l := x / q, y / q;
    assert x == q * k + Canonical(q, x) && y == q * l + Canonical(q, y);
    CongBy(q, Canonical(q, x), x, -k) by { Opposite(q, k); }
    if Cong(q, x, y) {
      var t := Quotient(q, x, y);
      SumOfProducts(q, t, l);
      DivModUnique(x, q, t + l, Canonical(q, y));
    }
    if Canonical(q, x) == Canonical(q, y) {
      MulDifference(q, k, l);
      CongBy(q, x, y, k - l);
    }
  }

  lemma CanonicalSmall(q: int, x: int)
    requires 0 <= x < q
    ensures Canonical(q, x) == x
  {
    DivModUnique(x, q, 0, x);
  }

  lemma Opposite(q: int, k: int)
    ensures q * -k == -(q * k)
  {
  }

  function ExtractP<P(!new)>(s: Sapling<P>, p: P): int
    requires IsSapling(s)
  {
    Canonical(s.curve.params.field.q, s.curve.u(p))
  }

  lemma HashFits<P(!new)>(s: Sapling<P>, bits: seq<bool>)
    requires IsSapling(s) && |bits| <= 1134
    ensures Fits(s.pedersen, bits)
  {
  }

  function WindowedPedersenCommit<P(!new)>(s: Sapling<P>, contents: seq<bool>, r: Fr): P
    requires IsSapling(s) && |contents| == 576
  {
    s.curve.group.add(HashPoint(s.curve.group, s.pedersen, NoteCommitment.GetBits() + contents),
                      Mul(s.curve.group, r, s.noteRandomness))
  }

  function MerkleHash<P(!new)>(s: Sapling<P>, depth: nat, lhs: int, rhs: int): int
    requires IsSapling(s) && depth < TREE_DEPTH && 0 <= lhs && 0 <= rhs
  {
    ExtractP(s, HashPoint(s.curve.group, s.pedersen,
                          MerkleTree(depth).GetBits() + (ToBits(lhs, SCALAR_BITS) + ToBits(rhs, SCALAR_BITS))))
  }

  /** A note: the bits of its diversified base and transmission key, its value and trapdoor. */
  datatype Note = Note(gd: seq<bool>, pkd: seq<bool>, value: U64, rcm: Fr) {
    predicate Valid() {
      |gd| == 256 && |pkd| == 256
    }

    function Contents(): (bits: seq<bool>)
      requires Valid()
      ensures |bits| == 576
    {
      ToBits(value, 64) + gd + pkd
    }
  }

  function CommitNote<P(!new)>(s: Sapling<P>, note: Note): P
    requires IsSapling(s) && note.Valid()
  {
    WindowedPedersenCommit(s, note.Contents(), note.rcm)
  }

  function Cmu<P(!new)>(s: Sapling<P>, note: Note): int
    requires IsSapling(s) && note.Valid()
  {
    ExtractP(s, CommitNote(s, note))
  }

  function MixingPedersenHash<P(!new)>(s: Sapling<P>, cm: P, position: U64): P
    requires IsSapling(s)
  {
    s.curve.group.add(cm, Mul(s.curve.group, position, s.nullifierPosition))
  }

  function Nullifier<P(!new)>(s: Sapling<P>, note: Note, nk: P, position: U64): seq<byte>
    requires IsSapling(s) && note.Valid()
  {
    s.prfNf(nk, MixingPedersenHash(s, CommitNote(s, note), position))
  }

  // --- authentication paths ---

  datatype MerklePath = MerklePath(siblings: seq<int>, position: U64) {
    predicate Valid(q: int) {
      && |siblings| == TREE_DEPTH
      && forall i: nat | i < |siblings| :: 0 <= siblings[i] < q
    }

    // Whether the node at level i is a right child.
    function IsRight(i: nat): bool
      requires i < TREE_DEPTH
    {
      BitOf(position, i)
    }
  }

  // The parent of a node at level i of the path.
  function Parent<P(!new)>(s: Sapling<P>, path: MerklePath, i: nat, node: int): (r: int)
    requires IsSapling(s) && path.Valid(s.curve.params.field.q) && 0 <= node < s.curve.params.field.q && i < TREE_DEPTH
    ensures 0 <= r < s.curve.params.field.q
  {
    if path.IsRight(i) then MerkleHash(s, i, path.siblings[i], node) else MerkleHash(s, i, node, path.siblings[i])
  }

  // The ancestor of the leaf after n levels.
  function Ascend<P(!new)>(s: Sapling<P>, path: MerklePath, leaf: int, n: nat): (node: int)
    requires IsSapling(s) && path.Valid(s.curve.params.field.q) && 0 <= leaf < s.curve.params.field.q && n <= TREE_DEPTH
    ensures 0 <= node < s.curve.params.field.q
  {
    if n == 0 then leaf else Parent(s, path, n - 1, Ascend(s, path, leaf, n - 1))
  }

  function Root<P(!new)>(s: Sapling<P>, path: MerklePath, leaf: int): int
    requires IsSapling(s) && path.Valid(s.curve.params.field.q) && 0 <= leaf < s.curve.params.field.q
  {
    Ascend(s, path, leaf, |path.siblings|)
  }

  // --- the tree itself ---

  ghost predicate AreLeaves(q: int, leaves: nat -> int) {
    forall i: nat :: 0 <= leaves(i) < q
  }

  // The node at a level of the tree over the leaves: level zero holds the leaves.
  ghost function Node<P(!new)>(s: Sapling<P>, leaves: nat -> int, level: nat, index: nat): (node: int)
    requires IsSapling(s) && AreLeaves(s.curve.params.field.q, leaves) && level <= TREE_DEPTH
    ensures 0 <= node < s.curve.params.field.q
    decreases level
  {
    if level == 0 then leaves(index)
    else MerkleHash(s, level - 1, Node(s, leaves, level - 1, 2 * index), Node(s, leaves, level - 1, 2 * index + 1))
  }

  // The node on the way from a position to the root.
  function Ancestor(position: nat, level: nat): nat {
    PowPositive(2, level);
    position / Pow(2, level)
  }

  // The other child of that node's parent.
  function Sibling(index: nat): nat {
    if index % 2 == 1 then index - 1 else index + 1
  }

  ghost predicate IsAuthPath<P(!new)>(s: Sapling<P>, leaves: nat -> int, path: MerklePath)
    requires IsSapling(s) && AreLeaves(s.curve.params.field.q, leaves)
  {
    |path.siblings| == TREE_DEPTH
    && forall i: nat | i < TREE_DEPTH :: path.siblings[i] == Node(s, leaves, i, Sibling(Ancestor(path.position, i)))
  }

  lemma AncestorStep(position: nat, level: nat)
    ensures Ancestor(position, level + 1) == Ancestor(position, level) / 2
    ensures BitOf(position, level) <==> Ancestor(position, level) % 2 == 1
  {
    PowPositive(2, level);
    PowPositive(2, level + 1);
    DivideTwice(position, Pow(2, level), 2);
    assert Pow(2, level) * 2 == Pow(2, level + 1);
  }

  lemma AuthPathValid<P(!new)>(s: Sapling<P>, leaves: nat -> int, path: MerklePath)
    requires IsSapling(s) && AreLeaves(s.curve.params.field.q, leaves) && IsAuthPath(s, leaves, path)
    ensures path.Valid(s.curve.params.field.q)
  {
  }

  lemma SiblingIsChild(parent: nat)
    ensures Sibling(2 * parent) == 2 * parent + 1 && Sibling(2 * parent + 1) == 2 * parent
  {
  }

  // Either child of a node hashes to it, on its own side, with its sibling on the other.
  lemma NodeHash<P(!new)>(s: Sapling<P>, leaves: nat -> int, level: nat, parent: nat, left: int, right: int)
    requires IsSapling(s) && AreLeaves(s.curve.params.field.q, leaves) && level < TREE_DEPTH
    requires left == Node(s, leaves, level, 2 * parent) && right == Node(s, leaves, level, 2 * parent + 1)
    ensures Node(s, leaves, level + 1, parent) == MerkleHash(s, level, left, right)
  {
  }

  lemma ParentHash<P(!new)>(s: Sapling<P>, path: MerklePath, i: nat, node: int, sibling: int)
    requires IsSapling(s) && path.Valid(s.curve.params.field.q) && 0 <= node < s.curve.params.field.q && i < TREE_DEPTH
    requires sibling == path.siblings[i]
    ensures 0 <= sibling < s.curve.params.field.q
    ensures path.IsRight(i) ==> Parent(s, path, i, node) == MerkleHash(s, i, sibling, node)
    ensures !path.IsRight(i) ==> Parent(s, path, i, node) == MerkleHash(s, i, node, sibling)
  {
  }

  // One level up, from either child.
  lemma ParentIsNode<P(!new)>(s: Sapling<P>, leaves: nat -> int, path: MerklePath, i: nat, parent: nat, index: nat, node: int)
    requires IsSapling(s) && AreLeaves(s.curve.params.field.q, leaves) && path.Valid(s.curve.params.field.q) && i < TREE_DEPTH
    requires index == if path.IsRight(i) then 2 * parent + 1 else 2 * parent
    requires node == Node(s, leaves, i, index) && path.siblings[i] == Node(s, leaves, i, Sibling(index))
    ensures Parent(s, path, i, node) == Node(s, leaves, i + 1, parent)
  {
    var sibling := path.siblings[i];
    SiblingIsChild(parent);
    ParentHash(s, path, i, node, sibling);
    if path.IsRight(i) {
      NodeHash(s, leaves, i, parent, sibling, node);
    } else {
      NodeHash(s, leaves, i, parent, node, sibling);
    }
  }

  lemma AuthPathStep<P(!new)>(s: Sapling<P>, leaves: nat -> int, path: MerklePath, i: nat, node: int)
    requires IsSapling(s) && AreLeaves(s.curve.params.field.q, leaves) && IsAuthPath(s, leaves, path) && i < TREE_DEPTH
    requires path.Valid(s.curve.params.field.q) && node == Node(s, leaves, i, Ancestor(path.position, i))
    ensures Parent(s, path, i, node) == Node(s, leaves, i + 1, Ancestor(path.position, i + 1))
  {
    var index := Ancestor(path.position, i);
    AncestorStep(path.position, i);
    ParentIsNode(s, leaves, path, i, index / 2, index, node);
  }

  /** Ascending from a leaf along its authentication path meets the nodes of the tree. */
  lemma {:induction false} AscendIsNode<P(!new)>(s: Sapling<P>, leaves: nat -> int, path: MerklePath, n: nat)
    requires IsSapling(s) && AreLeaves(s.curve.params.field.q, leaves) && IsAuthPath(s, leaves, path) && n <= TREE_DEPTH
    requires path.Valid(s.curve.params.field.q)
    ensures Ascend(s, path, leaves(path.position), n) == Node(s, leaves, n, Ancestor(path.position, n))
  {
    if n > 0 {
      AscendIsNode(s, leaves, path, n - 1);
      AuthPathStep(s, leaves, path, n - 1, Ascend(s, path, leaves(path.position), n - 1));
    } else {
      assert Ancestor(path.position, 0) == path.position;
    }
  }

  /** Every leaf of the tree has one and the same root at the end of its authentication path. */
  lemma RootIsTreeRoot<P(!new)>(s: Sapling<P>, leaves: nat -> int, path: MerklePath)
    requires IsSapling(s) && AreLeaves(s.curve.params.field.q, leaves) && IsAuthPath(s, leaves, path)
    requires path.position < 0x1_0000_0000
    ensures path.Valid(s.curve.params.field.q)
    ensures Root(s, path, leaves(path.position)) == Node(s, leaves, |path.siblings|, 0)
  {
    AuthPathValid(s, leaves, path);
    AscendIsNode(s, leaves, path, |path.siblings|);
    TwoTo32();
    TopAncestor(path.position, |path.siblings|);
  }

  lemma TopAncestor(position: nat, level: nat)
    requires position < Pow(2, level)
    ensures Ancestor(position, level) == 0
  {
    DivModUnique(position, Pow(2, level), 0, position);
  }

  lemma TwoTo32()
    ensures Pow(2, 32) == 0x1_0000_0000
  {
    assert Pow(2, 1) == 2 * Pow(2, 0) == 2;
    PowAdd(2, 1, 1);
    PowAdd(2, 2, 2);
    PowAdd(2, 4, 4);
    PowAdd(2, 8, 8);
    PowAdd(2, 16, 16);
  }

  // --- the empty tree ---

  function NoLeaves(): nat -> int {
    (i: nat) => UNCOMMITTED
  }

  lemma NoLeavesFit<P(!new)>(s: Sapling<P>)
    requires IsSapling(s)
    ensures AreLeaves(s.curve.params.field.q, NoLeaves())
  {
  }

  /** On the real curve the empty leaf is no coordinate of a point, so no note commitment and no inner
  node of any tree is taken for it. */
  lemma UncommittedIsNoNode<P(!new)>(s: Sapling<P>, p: P)
    requires IsSapling(s) && s.curve.params.field.q == Q && s.curve.params.d == EDWARDS_D
    ensures ExtractP(s, p) != UNCOMMITTED
  {
    assert s.curve.OnCurveAt(p);
    UncommittedIsNoPoint(s.curve.params, s.curve.Affine(p));
    CanonicalEqual(Q, s.curve.u(p), UNCOMMITTED);
    CanonicalSmall(Q, UNCOMMITTED);
  }

  lemma NoCommitmentIsUncommitted<P(!new)>(s: Sapling<P>, note: Note, depth: nat, lhs: int, rhs: int)
    requires IsSapling(s) && s.curve.params.field.q == Q && s.curve.params.d == EDWARDS_D
    requires note.Valid() && depth < TREE_DEPTH && 0 <= lhs && 0 <= rhs
    ensures Cmu(s, note) != UNCOMMITTED && MerkleHash(s, depth, lhs, rhs) != UNCOMMITTED
  {
    UncommittedIsNoNode(s, CommitNote(s, note));
    UncommittedIsNoNode(s, HashPoint(s.curve.group, s.pedersen,
                                     MerkleTree(depth).GetBits() + (ToBits(lhs, SCALAR_BITS) + ToBits(rhs, SCALAR_BITS))));
  }

  // Whether every node of a level of the empty tree is this one.
  ghost predicate IsEmptyRoot<P(!new)>(s: Sapling<P>, level: nat, node: int)
    requires IsSapling(s) && level <= TREE_DEPTH
  {
    NoLeavesFit(s);
    forall index: nat :: Node(s, NoLeaves(), level, index) == node
  }

  lemma EmptyRootStep<P(!new)>(s: Sapling<P>, level: nat, node: int)
    requires IsSapling(s) && level < TREE_DEPTH && IsEmptyRoot(s, level, node)
    ensures 0 <= node && IsEmptyRoot(s, level + 1, MerkleHash(s, level, node, node))
  {
    NoLeavesFit(s);
    assert Node(s, NoLeaves(), level, 0) == node;
    var up := level + 1;
    forall index: nat ensures Node(s, NoLeaves(), up, index) == MerkleHash(s, level, node, node) {
      NodeHash(s, NoLeaves(), level, index, node, node);
    }
  }

  /** The precomputed roots are the nodes of the empty tree, at every level. */
  method EmptyRoots<P(!new)>(s: Sapling<P>) returns (v: seq<int>)
    requires IsSapling(s)
    ensures |v| == TREE_DEPTH + 1 && forall d: nat | d <= TREE_DEPTH :: IsEmptyRoot(s, d, v[d])
  {
    v := [UNCOMMITTED];
    NoLeavesFit(s);
    for d := 0 to TREE_DEPTH
      invariant |v| == d + 1 && forall i: nat | i <= d :: IsEmptyRoot(s, i, v[i])
    {
      EmptyRootStep(s, d, v[d]);
      v := v + [MerkleHash(s, d, v[d], v[d])];
    }
  }

  /** The note computations as values that the builder calls. */
  datatype NoteOps<!P> = NoteOps(cmu: Note -> int, root: (MerklePath, int) -> int, nullifier: (Note, P, U64) -> seq<byte>)

  ghost predicate CmuAt<P(!new)>(s: Sapling<P>, ops: NoteOps<P>, note: Note)
    requires IsSapling(s)
  {
    note.Valid() ==> ops.cmu(note) == Cmu(s, note)
  }

  ghost predicate RootAt<P(!new)>(s: Sapling<P>, ops: NoteOps<P>, path: MerklePath, leaf: int)
    requires IsSapling(s)
  {
    path.Valid(s.curve.params.field.q) && 0 <= leaf < s.curve.params.field.q ==> ops.root(path, leaf) == Root(s, path, leaf)
  }

  ghost predicate NullifierAt<P(!new)>(s: Sapling<P>, ops: NoteOps<P>, note: Note, nk: P, position: U64)
    requires IsSapling(s)
  {
    note.Valid() ==> ops.nullifier(note, nk, position) == Nullifier(s, note, nk, position)
  }

  ghost predicate AreNoteOps<P(!new)>(s: Sapling<P>, ops: NoteOps<P>)
    requires IsSapling(s)
  {
    && (forall note: Note :: CmuAt(s, ops, note))
    && (forall path: MerklePath, leaf: int :: RootAt(s, ops, path, leaf))
    && (forall note: Note, nk: P, position: U64 :: NullifierAt(s, ops, note, nk, position))
  }
}
