/** The Pedersen hash (section 5.4.1.7 of the Zcash Protocol Specification): the group element both
implementations compute, and the bounds that keep its scalars apart modulo the group order. */
module PedersenSpec {
  import opened Residues
  import opened Powers
  import opened Groups
  import opened Scalars

  const CHUNKS_PER_GENERATOR: nat := 63
  const SEGMENT_BITS: nat := 189

  datatype Personalization = NoteCommitment | MerkleTree(depth: nat) {
    function GetBits(): (bits: seq<bool>)
      requires MerkleTree? ==> depth < 63
      ensures |bits| == 6
    {
      match this
      case NoteCommitment => [true, true, true, true, true, true]
      case MerkleTree(n) => ToBits(n, 6)
    }
  }

  // Different uses of the hash never share their six leading bits.
  lemma PersonalizationInjective(p1: Personalization, p2: Personalization)
    requires p1.MerkleTree? ==> p1.depth < 63
    requires p2.MerkleTree? ==> p2.depth < 63
    ensures p1.GetBits() == p2.GetBits() <==> p1 == p2
  {
    PersonalizationValue(p1);
    PersonalizationValue(p2);
  }

  // Read as a number, the leading bits are the tree depth, or 63 for note commitments.
  lemma PersonalizationValue(p: Personalization)
    requires p.MerkleTree? ==> p.depth < 63
    ensures BitsValue(p.GetBits()) == match p case NoteCommitment => 63 case MerkleTree(n) => n
  {
    assert Pow(2, 6) == 2 * Pow(2, 5) == 4 * Pow(2, 4) == 8 * Pow(2, 3) == 16 * Pow(2, 2) == 32 * Pow(2, 1);
    assert Pow(2, 1) == 2 * Pow(2, 0) == 2;
    if p.MerkleTree? {
      ToBitsValue(p.depth, 6);
    } else {
      AllOnes(6);
      assert p.GetBits() == seq(6, _ => true);
    }
  }

  lemma {:induction false} AllOnes(n: nat)
    ensures BitsValue(seq(n, _ => true)) == Pow(2, n) - 1
  {
    if n > 0 {
      AllOnes(n - 1);
      assert seq(n, _ => true)[..n - 1] == seq(n - 1, _ => true);
    }
  }

  function ChunkScalar(a: bool, b: bool, c: bool): int {
    (1 - 2 * Bit(c)) * (1 + Bit(a) + 2 * Bit(b))
  }

  function ChunkAt(bits: seq<bool>, w: nat): int {
    ChunkScalar(BitAt(bits, 3 * w), BitAt(bits, 3 * w + 1), BitAt(bits, 3 * w + 2))
  }

  /** The scalar of the first w chunks: the sum of enc(chunk j) * 16^j. */
  function SegmentScalar(bits: seq<bool>, w: nat): int {
    if w == 0 then 0 else SegmentScalar(bits, w - 1) + ChunkAt(bits, w - 1) * Pow(16, w - 1)
  }

  function Chunks(n: nat): nat {
    (n + 2) / 3
  }

  function FirstSegment(bits: seq<bool>): seq<bool> {
    if |bits| <= SEGMENT_BITS then bits else bits[..SEGMENT_BITS]
  }

  function RestSegments(bits: seq<bool>): seq<bool> {
    if |bits| <= SEGMENT_BITS then [] else bits[SEGMENT_BITS..]
  }

  function SegmentValue(segment: seq<bool>): int {
    SegmentScalar(segment, Chunks(|segment|))
  }

  ghost predicate Fits<P>(generators: seq<P>, bits: seq<bool>) {
    |bits| <= SEGMENT_BITS * |generators|
  }

  /** The hash: every segment's scalar times its own generator. */
  function HashPoint<P>(g: Group<P>, generators: seq<P>, bits: seq<bool>): P
    requires Fits(generators, bits)
  {
    if bits == [] then g.zero
    else g.add(Mul(g, SegmentValue(FirstSegment(bits)), generators[0]),
               HashPoint(g, generators[1..], RestSegments(bits)))
  }

  // The encoding of a chunk is one of 1, 2, 3, 4 and their negations, each by one chunk.
  lemma ChunkScalarRange(a: bool, b: bool, c: bool)
    ensures 1 <= Abs(ChunkScalar(a, b, c)) <= 4
    ensures forall a': bool, b': bool, c': bool ::
              ChunkScalar(a', b', c') == ChunkScalar(a, b, c) ==> a' == a && b' == b && c' == c
  {
  }

  // The running scalar is non-zero and below 16^w: later chunks cannot cancel it.
  lemma {:induction false} SegmentBound(bits: seq<bool>, w: nat)
    ensures 15 * Abs(SegmentScalar(bits, w)) <= 4 * (Pow(16, w) - 1)
    ensures w > 0 ==> SegmentScalar(bits, w) != 0
  {
    if w > 0 {
      SegmentBound(bits, w - 1);
      ChunkScalarRange(BitAt(bits, 3 * (w - 1)), BitAt(bits, 3 * (w - 1) + 1), BitAt(bits, 3 * (w - 1) + 2));
      var k, t := ChunkAt(bits, w - 1), Pow(16, w - 1);
      ScaledChunk(k, t);
      PowPositive(16, w - 1);
    }
  }

  lemma ScaledChunk(k: int, t: nat)
    requires 1 <= Abs(k) <= 4
    ensures t <= Abs(k * t) <= 4 * t
  {
  }

  lemma SixteenTo32()
    ensures Pow(16, 16) == 0x1_0000_0000_0000_0000 && Pow(16, 32) == 0x1_0000_0000_0000_0000_0000_0000_0000_0000
  {
    assert Pow(16, 1) == 16 * Pow(16, 0) == 16;
    PowAdd(16, 1, 1);
    PowAdd(16, 2, 2);
    PowAdd(16, 4, 4);
    PowAdd(16, 8, 8);
    PowAdd(16, 16, 16);
  }

  lemma SixteenTo63()
    ensures 16 * Pow(16, 63) == 0x1_0000_0000_0000_0000_0000_0000_0000_0000_0000_0000_0000_0000_0000_0000_0000_0000
  {
    SixteenTo32();
    PowAdd(16, 32, 32);
  }

  lemma {:induction false} PowMonotone(b: nat, e: nat, f: nat)
    requires b > 0 && e <= f
    ensures Pow(b, e) <= Pow(b, f)
    decreases f - e
  {
    if e < f {
      PowMonotone(b, e, f - 1);
      PowPositive(b, f - 1);
      AtLeast(b, Pow(b, f - 1));
    }
  }

  lemma AtLeast(b: nat, t: nat)
    requires b > 0
    ensures t <= b * t
  {
  }

  // A whole segment stays below half the group order, so its scalars are distinct modulo r_J.
  lemma SegmentBelowHalfOrder(bits: seq<bool>, w: nat)
    requires w <= CHUNKS_PER_GENERATOR
    ensures 2 * Abs(SegmentScalar(bits, w)) < JUBJUB_ORDER
  {
    SegmentBound(bits, w);
    PowMonotone(16, w, 63);
    SixteenTo63();
  }

  // Every segment value is non-zero modulo the order.
  lemma SegmentNotZero(segment: seq<bool>)
    requires 0 < |segment| <= SEGMENT_BITS
    ensures !Cong(JUBJUB_ORDER, SegmentValue(segment), 0)
  {
    SegmentBound(segment, Chunks(|segment|));
    SegmentBelowHalfOrder(segment, Chunks(|segment|));
    SmallNotCongruent(SegmentValue(segment));
  }

  // Chunk by chunk, equal scalars come from equal chunks.
  lemma {:induction false} SegmentScalarInjective(s1: seq<bool>, s2: seq<bool>, w: nat)
    requires SegmentScalar(s1, w) == SegmentScalar(s2, w)
    ensures forall k: nat | k < 3 * w :: BitAt(s1, k) == BitAt(s2, k)
  {
    if w > 0 {
      var t := Pow(16, w - 1);
      SegmentBound(s1, w - 1);
      SegmentBound(s2, w - 1);
      PowPositive(16, w - 1);
      TopChunk(ChunkAt(s1, w - 1), ChunkAt(s2, w - 1), SegmentScalar(s1, w - 1), SegmentScalar(s2, w - 1), t);
      SegmentScalarInjective(s1, s2, w - 1);
      var k := 3 * (w - 1);
      ChunkScalarRange(BitAt(s1, k), BitAt(s1, k + 1), BitAt(s1, k + 2));
    }
  }

  lemma TopChunk(k1: int, k2: int, x1: int, x2: int, t: nat)
    requires x1 + k1 * t == x2 + k2 * t && t > 0
    requires 15 * Abs(x1) <= 4 * (t - 1) && 15 * Abs(x2) <= 4 * (t - 1)
    ensures k1 == k2 && x1 == x2
  {
    Subtract(k1, k2, t);
    AtLeastOnce(k1 - k2, t);
  }

  lemma Subtract(a: int, b: int, t: int)
    ensures (a - b) * t == a * t - b * t
  {
  }

  lemma AtLeastOnce(k: int, t: nat)
    ensures k > 0 ==> k * t >= t
    ensures k < 0 ==> k * t + t <= 0
  {
  }

  // Two segments of one length with the same scalar modulo the order are equal.
  lemma SegmentValueInjective(s1: seq<bool>, s2: seq<bool>)
    requires |s1| == |s2| <= SEGMENT_BITS
    ensures Cong(JUBJUB_ORDER, SegmentValue(s1), SegmentValue(s2)) <==> s1 == s2
  {
    var w := Chunks(|s1|);
    CongRefl(JUBJUB_ORDER, SegmentValue(s1));
    if Cong(JUBJUB_ORDER, SegmentValue(s1), SegmentValue(s2)) {
      SegmentBelowHalfOrder(s1, w);
      SegmentBelowHalfOrder(s2, w);
      CongDiff(JUBJUB_ORDER, SegmentValue(s1), SegmentValue(s2));
      if SegmentValue(s1) != SegmentValue(s2) {
        SmallNotCongruent(SegmentValue(s1) - SegmentValue(s2));
      }
      SegmentScalarInjective(s1, s2, w);
      forall k: nat | k < |s1|
        ensures s1[k] == s2[k]
      {
        assert BitAt(s1, k) == BitAt(s2, k);
      }
    }
  }

  // The scalars of all segments, in order.
  function SegmentValues(bits: seq<bool>): seq<int>
    decreases |bits|
  {
    if bits == [] then [] else [SegmentValue(FirstSegment(bits))] + SegmentValues(RestSegments(bits))
  }

  // Inputs of one length that differ anywhere have different scalars in some segment.
  lemma {:induction false} SegmentValuesInjective(b1: seq<bool>, b2: seq<bool>)
    requires |b1| == |b2|
    ensures |SegmentValues(b1)| == |SegmentValues(b2)|
    ensures (forall k: nat | k < |SegmentValues(b1)| :: Cong(JUBJUB_ORDER, SegmentValues(b1)[k], SegmentValues(b2)[k]))
            <==> b1 == b2
    decreases |b1|
  {
    if b1 != [] {
      var f1, f2, r1, r2 := FirstSegment(b1), FirstSegment(b2), RestSegments(b1), RestSegments(b2);
      var v1, v2 := SegmentValues(b1), SegmentValues(b2);
      SegmentValuesInjective(r1, r2);
      SegmentValueInjective(f1, f2);
      assert b1 == f1 + r1 && b2 == f2 + r2;
      assert v1[1..] == SegmentValues(r1) && v2[1..] == SegmentValues(r2);
      if forall k: nat | k < |v1| :: Cong(JUBJUB_ORDER, v1[k], v2[k]) {
        assert Cong(JUBJUB_ORDER, v1[0], v2[0]);
        forall k: nat | k < |v1| - 1
          ensures Cong(JUBJUB_ORDER, v1[1..][k], v2[1..][k])
        {
          assert Cong(JUBJUB_ORDER, v1[k + 1], v2[k + 1]);
        }
      }
      if b1 == b2 {
        forall k: nat | k < |v1|
          ensures Cong(JUBJUB_ORDER, v1[k], v2[k])
        {
          CongRefl(JUBJUB_ORDER, v1[k]);
        }
      }
    }
  }
}
