/** The native Pedersen hash: signed scalars accumulated modulo the group order, then multiplied
through byte-window tables. */
module PedersenNative {
  import opened Residues
  import opened Wrappers
  import opened Powers
  import opened Bytes
  import opened Groups
  import opened Scalars
  import opened PedersenSpec

  const EXP_WINDOW_SIZE: nat := 8
  const SCALAR_BITS: nat := 252

  // --- the exponentiation tables ---

  // Entry i of table j is [i * 256^j] g.
  ghost predicate IsExpTable<P>(g: Group<P>, generator: P, tables: seq<seq<P>>) {
    && |tables| == 32
    && forall j: nat | j < 32 :: IsExpWindow(g, generator, tables[j], j)
  }

  ghost predicate IsExpWindow<P>(g: Group<P>, generator: P, table: seq<P>, j: nat) {
    && |table| == 256
    && forall i: nat | i < 256 :: table[i] == Mul(g, i * Pow(256, j), generator)
  }

  method GenerateExpTable<P(!new)>(g: Group<P>, generator: P) returns (tables: seq<seq<P>>)
    requires IsGroup(g)
    ensures IsExpTable(g, generator, tables)
  {
    tables := [];
    var base := generator;
    var numBits := 0;
    MulOne(g, generator);
    while numBits <= SCALAR_BITS
      invariant numBits == 8 * |tables| && |tables| <= 32
      invariant base == Mul(g, Pow(256, |tables|), generator)
      invariant forall j: nat | j < |tables| :: IsExpWindow(g, generator, tables[j], j)
    {
      var table := GenerateExpWindow(g, base);
      RescaleExpWindow(g, generator, table, |tables|);
      NextExpBase(g, generator, |tables|);
      base := DoubleEightTimes(g, base);
      tables := tables + [table];
      numBits := numBits + EXP_WINDOW_SIZE;
    }
  }

  lemma RescaleExpWindow<P(!new)>(g: Group<P>, generator: P, table: seq<P>, j: nat)
    requires IsGroup(g) && |table| == 256
    requires forall i: nat | i < 256 :: table[i] == Mul(g, i, Mul(g, Pow(256, j), generator))
    ensures IsExpWindow(g, generator, table, j)
  {
    forall i: nat | i < 256
      ensures table[i] == Mul(g, i * Pow(256, j), generator)
    {
      MulMul(g, i, Pow(256, j), generator);
    }
  }

  lemma NextExpBase<P(!new)>(g: Group<P>, generator: P, j: nat)
    requires IsGroup(g)
    ensures Mul(g, 256, Mul(g, Pow(256, j), generator)) == Mul(g, Pow(256, j + 1), generator)
  {
    MulMul(g, 256, Pow(256, j), generator);
  }

  method GenerateExpWindow<P(!new)>(g: Group<P>, generator: P) returns (table: seq<P>)
    requires IsGroup(g)
    ensures |table| == 256 && forall i: nat | i < 256 :: table[i] == Mul(g, i, generator)
  {
    table := [];
    var base := g.zero;
    for i := 0 to 256
      invariant |table| == i && base == Mul(g, i, generator)
      invariant forall k: nat | k < i :: table[k] == Mul(g, k, generator)
    {
      table := table + [base];
      base := g.add(base, generator);
    }
  }

  method DoubleEightTimes<P(!new)>(g: Group<P>, p: P) returns (r: P)
    requires IsGroup(g)
    ensures r == Mul(g, 256, p)
  {
    r := p;
    MulOne(g, p);
    for i := 0 to EXP_WINDOW_SIZE
      invariant r == Mul(g, Pow(2, i), p)
    {
      MulAdd(g, Pow(2, i), Pow(2, i), p);
      r := g.add(r, r);
    }
    TwoToEight();
  }

  lemma TwoToEight()
    ensures Pow(2, 8) == 256 && Pow(256, 1) == 256
  {
    assert Pow(2, 1) == 2 * Pow(2, 0) == 2;
    PowAdd(2, 1, 1);
    PowAdd(2, 2, 2);
    PowAdd(2, 4, 4);
    assert Pow(256, 1) == 256 * Pow(256, 0);
  }

  // --- reading a scalar byte by byte through 64-bit limbs ---

  // The window of eight bits at position pos, combined from two limbs at a limb boundary.
  function WindowIndex(limbs: seq<nat>, pos: nat): nat
    requires pos / 64 + 1 < |limbs|
  {
    var index, bit := pos / 64, pos % 64;
    var raw :=
      if bit + EXP_WINDOW_SIZE < 64 then ShiftRight(limbs[index], bit)
      else BitOr(ShiftRight(limbs[index], bit), ShiftLeftWord(limbs[index + 1], 64 - bit));
    raw % 256
  }

  function Limbs(repr: seq<byte>): seq<nat>
    requires |repr| == 32
  {
    [LeValue(repr[0..8]), LeValue(repr[8..16]), LeValue(repr[16..24]), LeValue(repr[24..32]), 0]
  }

  // Byte k of a word, by shifting.
  lemma ShiftedByte(word: seq<byte>, k: nat)
    requires |word| == 8 && k < 8
    ensures ShiftRight(LeValue(word), 8 * k) == LeValue(word[k..])
    ensures LeValue(word[k..]) % 256 == word[k]
  {
    LeSplit(word, k);
    PowPow(2, 8, k);
    TwoToEight();
    PowPositive(256, k);
    DivModUnique(LeValue(word), Pow(256, k), LeValue(word[k..]), LeValue(word[..k]));
    LowByte(word[k], LeValue(word[k..][1..]), LeValue(word[k..][1..]) + 1);
  }

  // At the top byte the union with the next limb adds nothing below 256.
  lemma TopByte(word: seq<byte>, next: nat)
    requires |word| == 8
    ensures BitOr(ShiftRight(LeValue(word), 56), ShiftLeftWord(next, 8)) % 256 == word[7]
  {
    ShiftedByte(word, 7);
    assert word[7..] == [word[7]] && word[7..][1..] == [];
    ShiftedMultiple(next);
    TwoToEight();
    OrDisjoint(word[7], ShiftLeftWord(next, 8) / 256, 8);
    LowByte(word[7], ShiftLeftWord(next, 8) / 256, ShiftLeftWord(next, 8) / 256 + 1);
  }

  lemma ShiftedMultiple(next: nat)
    ensures ShiftLeftWord(next, 8) == 256 * (ShiftLeftWord(next, 8) / 256)
  {
    TwoToEight();
    var m := next * 256;
    assert m % WORD == m - (m / WORD) * WORD;
    assert WORD == 256 * (WORD / 256);
  }

  // Each window index is the corresponding byte, also where a window touches a limb boundary.
  lemma WindowIsByte(repr: seq<byte>, k: nat)
    requires |repr| == 32 && k < 32
    ensures WindowIndex(Limbs(repr), 8 * k) == repr[k]
  {
    var index, bit := k / 8, k % 8;
    assert 8 * k / 64 == index && 8 * k % 64 == 8 * bit;
    var word := repr[8 * index..8 * index + 8];
    ShiftedByte(word, bit);
    TopByte(word, Limbs(repr)[index + 1]);
    assert Limbs(repr)[index] == LeValue(word);
  }

  // Window k of a scalar is its digit of weight 256^k.
  lemma WindowOfScalar(acc: Fr, k: nat)
    requires k < 32
    ensures Pow(256, k) > 0 && WindowIndex(Limbs(LeBytes(acc, 32)), 8 * k) == (acc / Pow(256, k)) % 256
  {
    WindowIsByte(LeBytes(acc, 32), k);
    LeBytesAt(acc, 32, k);
  }

  lemma OrderBytes()
    ensures JUBJUB_ORDER < Pow(256, 32)
  {
    SixteenTo32();
    PowPow(16, 2, 32);
    assert Pow(16, 2) == 16 * Pow(16, 1) == 256 * Pow(16, 0) == 256;
    PowAdd(16, 32, 32);
  }

  lemma AddWindow<P(!new)>(g: Group<P>, generator: P, table: seq<P>, repr: seq<byte>, k: nat)
    requires IsGroup(g) && k < |repr| && IsExpWindow(g, generator, table, k)
    ensures g.add(Mul(g, LeValue(repr[..k]), generator), table[repr[k]]) == Mul(g, LeValue(repr[..k + 1]), generator)
  {
    LeSplit(repr[..k + 1], k);
    assert repr[..k + 1][..k] == repr[..k];
    assert repr[..k + 1][k..] == [repr[k]];
    assert LeValue([repr[k]]) == repr[k];
    Commute(Pow(256, k), repr[k]);
    MulAdd(g, LeValue(repr[..k]), repr[k] * Pow(256, k), generator);
  }

  lemma Commute(a: int, b: int)
    ensures a * b == b * a
  {
  }

  // The window loop: the sum of the selected table entries is [acc] generator.
  method MultiplyByTables<P(!new)>(g: Group<P>, ghost generator: P, tables: seq<seq<P>>, acc: Fr) returns (tmp: P)
    requires IsGroup(g) && IsExpTable(g, generator, tables)
    ensures tmp == Mul(g, acc, generator)
  {
    var repr := LeBytes(acc, 32);
    var limbs := Limbs(repr);
    tmp := g.zero;
    var pos := 0;
    var table := 0;
    while pos < SCALAR_BITS
      invariant pos == 8 * table && table <= 32
      invariant tmp == Mul(g, LeValue(repr[..table]), generator)
    {
      var i := WindowIndex(limbs, pos);
      WindowIsByte(repr, table);
      AddWindow(g, generator, tables[table], repr, table);
      tmp := g.add(tmp, tables[table][i]);
      pos := pos + EXP_WINDOW_SIZE;
      table := table + 1;
    }
    OrderBytes();
    LeValueOfBytes(acc, 32);
    assert repr[..32] == repr;
  }

  // --- accumulating the scalar of a segment ---

  // The signed digit times t, as the sum that the loop forms.
  function ChunkTerm(a: bool, b: bool, c: bool, t: int): int {
    var low := if a then t + t else t;
    var magnitude := if b then low + 2 * t else low;
    if c then -magnitude else magnitude
  }

  lemma ChunkTermIsProduct(a: bool, b: bool, c: bool, t: int)
    ensures ChunkTerm(a, b, c, t) == ChunkScalar(a, b, c) * t
  {
    if a {
      if b { assert ChunkScalar(a, b, c) == if c then -4 else 4; } else { assert ChunkScalar(a, b, c) == if c then -2 else 2; }
    } else {
      if b { assert ChunkScalar(a, b, c) == if c then -3 else 3; } else { assert ChunkScalar(a, b, c) == if c then -1 else 1; }
    }
  }

  // One chunk: the signed digit times the current weight, and the next weight.
  method AccumulateChunk(a: bool, b: bool, c: bool, weight: Fr, ghost t: int) returns (term: Fr, doubled: Fr)
    requires Cong(JUBJUB_ORDER, weight, t)
    ensures Cong(JUBJUB_ORDER, term, ChunkScalar(a, b, c) * t)
    ensures Cong(JUBJUB_ORDER, doubled, 2 * t)
  {
    ghost var low := if a then t + t else t;
    ghost var magnitude := if b then low + 2 * t else low;
    var cur := weight;
    var tmp := cur;
    FrAddCong(cur, t, cur, t);
    if a { tmp := FrAdd(tmp, cur); }
    cur := FrAdd(cur, cur);
    FrAddCong(tmp, low, cur, 2 * t);
    if b { tmp := FrAdd(tmp, cur); }
    FrNegCong(tmp, magnitude);
    if c { tmp := FrNeg(tmp); }
    ChunkTermIsProduct(a, b, c, t);
    term, doubled := tmp, cur;
  }

  method DoubleThrice(a: Fr, ghost t: int) returns (r: Fr)
    requires Cong(JUBJUB_ORDER, a, t)
    ensures Cong(JUBJUB_ORDER, r, 8 * t)
  {
    FrAddCong(a, t, a, t);
    var b := FrAdd(a, a);
    FrAddCong(b, 2 * t, b, 2 * t);
    var c := FrAdd(b, b);
    FrAddCong(c, 4 * t, c, 4 * t);
    r := FrAdd(c, c);
  }

  lemma AddTerm(acc: Fr, term: Fr, segment: seq<bool>, w: nat)
    requires Cong(JUBJUB_ORDER, acc, SegmentScalar(segment, w))
    requires Cong(JUBJUB_ORDER, term, ChunkAt(segment, w) * Pow(16, w))
    ensures Cong(JUBJUB_ORDER, FrAdd(acc, term), SegmentScalar(segment, w + 1))
  {
    FrAddCong(acc, SegmentScalar(segment, w), term, ChunkAt(segment, w) * Pow(16, w));
  }

  lemma NextWeight(w: nat)
    requires w > 0
    ensures 8 * (2 * Pow(16, w - 1)) == Pow(16, w)
  {
  }

  // Consumes one segment from position start: at most 63 chunks of three bits, padded with false.
  method AccumulateSegment(bits: seq<bool>, start: nat) returns (acc: Fr, pos: nat)
    requires start < |bits|
    ensures start < pos <= |bits| && bits[pos..] == RestSegments(bits[start..])
    ensures Cong(JUBJUB_ORDER, acc, SegmentValue(FirstSegment(bits[start..])))
  {
    ghost var segment := FirstSegment(bits[start..]);
    acc := 0;
    var cur: Fr := 1;
    var chunksRemaining := CHUNKS_PER_GENERATOR;
    pos := start;
    ghost var w := 0;
    CongRefl(JUBJUB_ORDER, 0);
    CongRefl(JUBJUB_ORDER, 1);
    while pos < |bits|
      invariant w + chunksRemaining == CHUNKS_PER_GENERATOR && chunksRemaining > 0
      invariant pos == if start + 3 * w < |bits| then start + 3 * w else |bits|
      invariant Cong(JUBJUB_ORDER, cur, Pow(16, w))
      invariant Cong(JUBJUB_ORDER, acc, SegmentScalar(segment, w))
      invariant 3 * w < |segment| + 3
      decreases |bits| - pos
    {
      var a, b, c := bits[pos], BitAt(bits, pos + 1), BitAt(bits, pos + 2);
      pos := if pos + 3 < |bits| then pos + 3 else |bits|;
      ChunkInSegment(bits, start, w);
      var tmp, doubled := AccumulateChunk(a, b, c, cur, Pow(16, w));
      AddTerm(acc, tmp, segment, w);
      acc := FrAdd(acc, tmp);
      chunksRemaining := chunksRemaining - 1;
      w := w + 1;
      if chunksRemaining == 0 { break; }
      cur := DoubleThrice(doubled, 2 * Pow(16, w - 1));
      NextWeight(w);
    }
    assert w == Chunks(|segment|);
  }

  lemma ChunkInSegment(bits: seq<bool>, start: nat, w: nat)
    requires start <= |bits| && w < CHUNKS_PER_GENERATOR
    ensures
      var k := start + 3 * w;
      ChunkAt(FirstSegment(bits[start..]), w) == ChunkScalar(BitAt(bits, k), BitAt(bits, k + 1), BitAt(bits, k + 2))
  {
    var segment, k := FirstSegment(bits[start..]), start + 3 * w;
    assert forall j: nat | j < SEGMENT_BITS :: BitAt(segment, j) == BitAt(bits, start + j);
  }

  /** The native hash.  None stands for the panic when the segment generators run out. */
  method PedersenHash<P(!new)>(g: Group<P>, ghost generators: seq<P>, tables: seq<seq<seq<P>>>,
                               personalization: Personalization, input: seq<bool>)
    returns (r: Option<P>)
    requires IsGroup(g) && |tables| == |generators|
    requires forall k: nat | k < |generators| :: HasOrderR(g, generators[k]) && IsExpTable(g, generators[k], tables[k])
    requires personalization.MerkleTree? ==> personalization.depth < 63
    ensures r.Some? <==> Fits(generators, personalization.GetBits() + input)
    ensures r.Some? ==> r.value == HashPoint(g, generators, personalization.GetBits() + input)
  {
    var bits := personalization.GetBits() + input;
    var result := g.zero;
    var pos := 0;
    var segment := 0;
    assert bits[0..] == bits && generators[0..] == generators;
    if Fits(generators, bits) { Neutral(g, HashPoint(g, generators, bits)); }
    while pos < |bits|
      invariant 0 <= pos <= |bits| && segment <= |generators|
      invariant Fits(generators, bits) <==> Fits(generators[segment..], bits[pos..])
      invariant Fits(generators, bits) ==>
                  HashPoint(g, generators, bits) == g.add(result, HashPoint(g, generators[segment..], bits[pos..]))
      decreases |bits| - pos
    {
      ghost var rest := bits[pos..];
      var acc, next := AccumulateSegment(bits, pos);
      if segment == |tables| { return None; }
      ghost var generator, value := generators[segment], SegmentValue(FirstSegment(rest));
      var tmp := MultiplyByTables(g, generator, tables[segment], acc);
      GeneratorInSubgroup(g, generator);
      SameMultiple(g, generator, acc, value);
      assert generators[segment..][1..] == generators[segment + 1..];
      if Fits(generators, bits) {
        Assoc(g, result, Mul(g, value, generator), HashPoint(g, generators[segment + 1..], RestSegments(rest)));
      }
      result := g.add(result, tmp);
      pos := next;
      segment := segment + 1;
    }
    Neutral(g, result);
    r := Some(result);
  }
}
