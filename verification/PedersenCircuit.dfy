/** The Pedersen hash gadget: signed two-bit lookups chained by the incomplete Montgomery addition,
one Edwards conversion and addition per segment. */
module PedersenCircuit {
  import opened Residues
  import opened Wrappers
  import opened Powers
  import opened EdwardsCurve
  import opened MontgomeryCurve
  import opened Groups
  import opened JubjubGroup
  import opened EccGadgets
  import opened Scalars
  import opened PedersenSpec
  import opened PedersenNative

  // --- multiples of a generator that the incomplete addition can meet ---

  // A small multiple other than zero has Montgomery coordinates.
  lemma SmallMultiple<P(!new)>(c: Curve<P>, generator: P, k: int)
    requires IsCurve(c) && HasOrderR(c.group, generator)
    requires 0 < 2 * Abs(k) < JUBJUB_ORDER
    ensures Mul(c.group, k, generator) != c.group.zero
    ensures !c.params.field.Eq(c.u(Mul(c.group, k, generator)), 0)
  {
    assert OrderAt(c.group, generator, k) && OrderAt(c.group, generator, 2 * k);
    SmallNotCongruent(k);
    SmallNotCongruent(2 * k);
    MulMul(c.group, 2, k, generator);
    if c.params.field.Eq(c.u(Mul(c.group, k, generator)), 0) {
      ZeroUHasOrderTwo(c, Mul(c.group, k, generator));
    }
  }

  // Multiples with different small absolute values are neither equal nor opposite.
  lemma DifferentMultiples<P(!new)>(g: Group<P>, generator: P, k: int, l: int)
    requires IsGroup(g) && HasOrderR(g, generator)
    requires Abs(k) != Abs(l) && Abs(k) + Abs(l) < JUBJUB_ORDER
    ensures Mul(g, k, generator) != Mul(g, l, generator)
    ensures Mul(g, k, generator) != g.neg(Mul(g, l, generator))
  {
    MulSub(g, k, l, generator);
    MulAdd(g, k, l, generator);
    assert OrderAt(g, generator, k - l) && OrderAt(g, generator, k + l);
    SmallNotCongruent(k - l);
    SmallNotCongruent(k + l);
    Neutral(g, Mul(g, l, generator));
  }

  // The term of chunk w against the running sum of the chunks before it.
  lemma ChunkAgainstSum(bits: seq<bool>, w: nat)
    requires 0 < w < CHUNKS_PER_GENERATOR
    ensures
      var s, t := SegmentScalar(bits, w), ChunkAt(bits, w) * Pow(16, w);
      && 0 < 2 * Abs(s) < JUBJUB_ORDER && 0 < 2 * Abs(t) < JUBJUB_ORDER && 0 < 2 * Abs(t + s) < JUBJUB_ORDER
      && Abs(t) != Abs(s) && Abs(t) + Abs(s) < JUBJUB_ORDER
  {
    var s, t, x := SegmentScalar(bits, w), ChunkAt(bits, w) * Pow(16, w), Pow(16, w);
    SegmentBound(bits, w);
    SegmentBound(bits, w + 1);
    TermRange(bits, w);
    WeightBound(w);
    assert t + s == SegmentScalar(bits, w + 1);
    TermAboveSum(s, t, x);
  }

  lemma TermRange(bits: seq<bool>, w: nat)
    ensures Pow(16, w) <= Abs(ChunkAt(bits, w) * Pow(16, w)) <= 4 * Pow(16, w)
  {
    ChunkScalarRange(BitAt(bits, 3 * w), BitAt(bits, 3 * w + 1), BitAt(bits, 3 * w + 2));
    ScaledChunk(ChunkAt(bits, w), Pow(16, w));
  }

  lemma WeightBound(w: nat)
    requires w < CHUNKS_PER_GENERATOR
    ensures 256 * Pow(16, w) <= 0x1_0000_0000_0000_0000_0000_0000_0000_0000_0000_0000_0000_0000_0000_0000_0000_0000
  {
    PowMonotone(16, w + 1, CHUNKS_PER_GENERATOR);
    SixteenTo63();
  }

  // |s| < x <= |t| <= 4x, with all of it below half the order.
  lemma TermAboveSum(s: int, t: int, x: nat)
    requires x > 0 && 15 * Abs(s) <= 4 * (x - 1) && x <= Abs(t) <= 4 * x
    requires s != 0 && t + s != 0 && 256 * x <= 0x1_0000_0000_0000_0000_0000_0000_0000_0000_0000_0000_0000_0000_0000_0000_0000_0000
    ensures 0 < 2 * Abs(s) < JUBJUB_ORDER && 0 < 2 * Abs(t) < JUBJUB_ORDER && 0 < 2 * Abs(t + s) < JUBJUB_ORDER
    ensures Abs(t) != Abs(s) && Abs(t) + Abs(s) < JUBJUB_ORDER
  {
  }

  // --- the lookup tables ---

  // Entry i of window w stands for [(i + 1) * 16^w] generator.
  ghost predicate IsLookupWindow<P>(c: Curve<P>, generator: P, window: seq<Mont>, w: nat) {
    && |window| == 4
    && forall i: nat | i < 4 :: MontAt(c, window[i], Mul(c.group, (i + 1) * Pow(16, w), generator))
  }

  ghost predicate IsLookupTable<P>(c: Curve<P>, generator: P, windows: seq<seq<Mont>>) {
    && |windows| == CHUNKS_PER_GENERATOR
    && forall w: nat | w < CHUNKS_PER_GENERATOR :: IsLookupWindow(c, generator, windows[w], w)
  }

  lemma LookupMultiple(w: nat, i: nat)
    requires w < CHUNKS_PER_GENERATOR && 1 <= i <= 4
    ensures 0 < 2 * (i * Pow(16, w)) < JUBJUB_ORDER
  {
    PowPositive(16, w);
    PowMonotone(16, w, 62);
    SixteenTo63();
    assert Pow(16, 63) == 16 * Pow(16, 62);
    BoundedMultiple(i, Pow(16, w));
  }

  lemma BoundedMultiple(i: int, x: nat)
    requires 1 <= i <= 4 && 0 < x
    requires 256 * x <= 0x1_0000_0000_0000_0000_0000_0000_0000_0000_0000_0000_0000_0000_0000_0000_0000_0000
    ensures 0 < 2 * (i * x) < JUBJUB_ORDER
  {
    ScaledChunk(i, x);
  }

  // None stands for the panic on a point at infinity; for a generator of order r_J it never happens.
  method GeneratePedersenGenerators<P(!new)>(c: Curve<P>, generator: P) returns (r: Option<seq<seq<Mont>>>)
    requires IsCurve(c)
    ensures HasOrderR(c.group, generator) ==> r.Some? && IsLookupTable(c, generator, r.value)
  {
    var windows: seq<seq<Mont>> := [];
    var gen := generator;
    MulOne(c.group, generator);
    while |windows| < CHUNKS_PER_GENERATOR
      invariant |windows| <= CHUNKS_PER_GENERATOR
      invariant gen == Mul(c.group, Pow(16, |windows|), generator)
      invariant HasOrderR(c.group, generator) ==>
                  forall w: nat | w < |windows| :: IsLookupWindow(c, generator, windows[w], w)
      decreases CHUNKS_PER_GENERATOR - |windows|
    {
      var coeffs := LookupWindow(c, generator, gen, |windows|);
      if coeffs.None? { return None; }
      NextLookupBase(c.group, generator, |windows|);
      gen := DoubleFourTimes(c.group, gen);
      windows := windows + [coeffs.value];
    }
    r := Some(windows);
  }

  lemma NextLookupBase<P(!new)>(g: Group<P>, generator: P, w: nat)
    requires IsGroup(g)
    ensures Mul(g, 16, Mul(g, Pow(16, w), generator)) == Mul(g, Pow(16, w + 1), generator)
  {
    MulMul(g, 16, Pow(16, w), generator);
  }

  method DoubleFourTimes<P(!new)>(g: Group<P>, p: P) returns (r: P)
    requires IsGroup(g)
    ensures r == Mul(g, 16, p)
  {
    r := p;
    MulOne(g, p);
    for i := 0 to 4
      invariant r == Mul(g, Pow(2, i), p)
    {
      MulAdd(g, Pow(2, i), Pow(2, i), p);
      r := g.add(r, r);
    }
    assert Pow(2, 4) == 2 * Pow(2, 3) == 4 * Pow(2, 2) == 8 * Pow(2, 1) == 16 * Pow(2, 0) == 16;
  }

  method LookupWindow<P(!new)>(c: Curve<P>, ghost generator: P, gen: P, ghost w: nat) returns (r: Option<seq<Mont>>)
    requires IsCurve(c) && w < CHUNKS_PER_GENERATOR && gen == Mul(c.group, Pow(16, w), generator)
    ensures HasOrderR(c.group, generator) ==> r.Some? && IsLookupWindow(c, generator, r.value, w)
  {
    var coeffs: seq<Mont> := [];
    var g := gen;
    MulOne(c.group, gen);
    for i := 0 to 4
      invariant |coeffs| == i && g == Mul(c.group, i + 1, gen)
      invariant HasOrderR(c.group, generator) ==>
                  forall k: nat | k < i :: MontAt(c, coeffs[k], Mul(c.group, (k + 1) * Pow(16, w), generator))
    {
      MulMul(c.group, i + 1, Pow(16, w), generator);
      LookupMultiple(w, i + 1);
      if HasOrderR(c.group, generator) { SmallMultiple(c, generator, (i + 1) * Pow(16, w)); }
      ToMontgomeryCorrect(c, g);
      var coords := ToMontgomery(c.params, c.Affine(g));
      if coords.None? { return None; }
      coeffs := coeffs + [coords.value];
      g := c.group.add(g, gen);
    }
    r := Some(coeffs);
  }

  // --- the gadget ---

  function LookupConditionalNegation(window: seq<Mont>, a: bool, b: bool, c: bool): Mont
    requires |window| == 4
  {
    var m := window[Bit(a) + 2 * Bit(b)];
    if c then Mont(m.x, -m.y) else m
  }

  lemma NegatedMont<P(!new)>(c: Curve<P>, m: Mont, p: P)
    requires IsCurve(c) && MontAt(c, m, p)
    ensures MontAt(c, Mont(m.x, -m.y), c.group.neg(p))
  {
    var f := c.params.field;
    var u, v := c.u(c.group.neg(p)), c.v(c.group.neg(p));
    assert c.OnCurveAt(p);
    if f.Eq(u, 0) {
      CongSym(f.q, u, -c.u(p));
      CongTrans(f.q, -c.u(p), u, 0);
      CongScale(f.q, -1, -c.u(p), 0);
    }
    NegatedX(f.q, v, c.v(p), m.x);
    CongScale(f.q, -m.y, u, -c.u(p));
    NegatedY(c.u(p), m.y, u);
    CongTrans(f.q, u * -m.y, c.u(p) * m.y, c.params.scale * m.x);
  }

  lemma NegatedX(q: int, v': int, v: int, x: int)
    requires Cong(q, v', v) && Cong(q, (1 - v) * x, 1 + v)
    ensures Cong(q, (1 - v') * x, 1 + v')
  {
    ReplaceV(v', v, x);
    Combine2(q, (1 - v') * x, 1 + v', -(x + 1), v', v, 1, (1 - v) * x, 1 + v);
  }

  lemma NegatedY(u: int, y: int, u': int)
    ensures -y * u' == u' * -y && -y * -u == u * y
  {
  }

  // Entry i of a window, negated or not.
  lemma SignedEntry<P(!new)>(c: Curve<P>, generator: P, window: seq<Mont>, w: nat, i: nat, neg: bool, k: int)
    requires IsCurve(c) && IsLookupWindow(c, generator, window, w) && i < 4
    requires k == if neg then -((i + 1) * Pow(16, w)) else (i + 1) * Pow(16, w)
    ensures MontAt(c, if neg then Mont(window[i].x, -window[i].y) else window[i], Mul(c.group, k, generator))
  {
    if neg { NegatedMultiple(c, generator, window[i], -k); }
  }

  // The lookup yields the chunk's signed multiple.
  lemma LookupIsChunk<P(!new)>(c: Curve<P>, generator: P, window: seq<Mont>, w: nat, a: bool, b: bool, neg: bool)
    requires IsCurve(c) && IsLookupWindow(c, generator, window, w)
    ensures MontAt(c, LookupConditionalNegation(window, a, b, neg),
                   Mul(c.group, ChunkScalar(a, b, neg) * Pow(16, w), generator))
  {
    var i: nat := Bit(a) + 2 * Bit(b);
    SignedScalar(a, b, neg, i, Pow(16, w));
    SignedEntry(c, generator, window, w, i, neg, ChunkScalar(a, b, neg) * Pow(16, w));
  }

  lemma NegatedMultiple<P(!new)>(c: Curve<P>, generator: P, m: Mont, k: int)
    requires IsCurve(c) && MontAt(c, m, Mul(c.group, k, generator))
    ensures MontAt(c, Mont(m.x, -m.y), Mul(c.group, -k, generator))
  {
    NegatedMont(c, m, Mul(c.group, k, generator));
    MulNeg(c.group, k, generator);
  }

  lemma SignedScalar(a: bool, b: bool, neg: bool, i: nat, t: int)
    requires i == Bit(a) + 2 * Bit(b)
    ensures ChunkScalar(a, b, neg) * t == if neg then -((i + 1) * t) else (i + 1) * t
  {
    assert ChunkScalar(a, b, neg) == if neg then -(i + 1) else i + 1;
    NegatedProduct(i + 1, t);
  }

  lemma NegatedProduct(k: int, t: int)
    ensures -k * t == -(k * t)
  {
  }

  // One Montgomery addition of the chain: its operands never share an x-coordinate.
  lemma ChainStep<P(!new)>(c: Curve<P>, generator: P, bits: seq<bool>, w: nat, tmp: Mont, running: Mont)
    requires IsCurve(c) && HasOrderR(c.group, generator) && 0 < w < CHUNKS_PER_GENERATOR
    requires MontAt(c, tmp, Mul(c.group, ChunkAt(bits, w) * Pow(16, w), generator))
    requires MontAt(c, running, Mul(c.group, SegmentScalar(bits, w), generator))
    ensures !c.params.field.Eq(tmp.x, running.x)
    ensures MontgomeryAdd(c.params, tmp, running).Ok?
    ensures MontAt(c, MontgomeryAdd(c.params, tmp, running).value, Mul(c.group, SegmentScalar(bits, w + 1), generator))
  {
    var g, s, t := c.group, SegmentScalar(bits, w), ChunkAt(bits, w) * Pow(16, w);
    ChunkAgainstSum(bits, w);
    DifferentMultiples(g, generator, t, s);
    MulAdd(g, t, s, generator);
    SmallMultiple(c, generator, t + s);
    MontSameX(c, tmp, Mul(g, t, generator), running, Mul(g, s, generator));
    MontgomeryAddCorrect(c, tmp, Mul(g, t, generator), running, Mul(g, s, generator));
  }

  // The looked-up term of chunk w of the segment that starts at `start`.
  method LookupTerm<P(!new)>(ghost c: Curve<P>, ghost generator: P, segmentWindows: seq<seq<Mont>>, bits: seq<bool>, start: nat, w: nat)
    returns (tmp: Mont)
    requires IsCurve(c) && IsLookupTable(c, generator, segmentWindows) && start + 3 * w < |bits| && w < CHUNKS_PER_GENERATOR
    ensures MontAt(c, tmp, Mul(c.group, ChunkAt(FirstSegment(bits[start..]), w) * Pow(16, w), generator))
  {
    var a, b, d := bits[start + 3 * w], BitAt(bits, start + 3 * w + 1), BitAt(bits, start + 3 * w + 2);
    ChunkInSegment(bits, start, w);
    assert IsLookupWindow(c, generator, segmentWindows[w], w);
    LookupIsChunk(c, generator, segmentWindows[w], w, a, b, d);
    tmp := LookupConditionalNegation(segmentWindows[w], a, b, d);
  }

  // The first term of a segment starts the chain; every other is added to it.
  method AddWindowTerm<P(!new)>(g: Jubjub, ghost c: Curve<P>, ghost generator: P, ghost segment: seq<bool>, ghost w: nat,
                                tmp: Mont, running: Option<Mont>) returns (r: Result<Mont, SynthesisError>)
    requires IsCurve(c) && c.params == g && HasOrderR(c.group, generator) && w < CHUNKS_PER_GENERATOR
    requires MontAt(c, tmp, Mul(c.group, ChunkAt(segment, w) * Pow(16, w), generator))
    requires running.None? <==> w == 0
    requires running.Some? ==> MontAt(c, running.value, Mul(c.group, SegmentScalar(segment, w), generator))
    ensures r.Ok? && MontAt(c, r.value, Mul(c.group, SegmentScalar(segment, w + 1), generator))
  {
    match running {
      case None =>
        assert SegmentScalar(segment, 1) == ChunkAt(segment, 0) * Pow(16, 0);
        return Ok(tmp);
      case Some(sum) =>
        ChainStep(c, generator, segment, w, tmp, sum);
        return MontgomeryAdd(g, tmp, sum);
    }
  }

  // Where the loop stops, the segment ends.
  lemma SegmentEnds(bits: seq<bool>, start: nat, window: nat, pos: nat)
    requires start < |bits| && 0 < window <= CHUNKS_PER_GENERATOR
    requires pos == if start + 3 * window < |bits| then start + 3 * window else |bits|
    requires pos == |bits| || window == CHUNKS_PER_GENERATOR
    requires 3 * window < |FirstSegment(bits[start..])| + 3
    ensures window == Chunks(|FirstSegment(bits[start..])|) && bits[pos..] == RestSegments(bits[start..])
  {
  }

  // One segment of the gadget, up to the conversion into Edwards form.
  method HashSegment<P(!new)>(g: Jubjub, ghost c: Curve<P>, ghost generator: P, segmentWindows: seq<seq<Mont>>,
                              bits: seq<bool>, start: nat)
    returns (r: Result<Coords, SynthesisError>, pos: nat)
    requires IsCurve(c) && c.params == g && HasOrderR(c.group, generator)
    requires IsLookupTable(c, generator, segmentWindows) && start < |bits|
    ensures start < pos <= |bits| && bits[pos..] == RestSegments(bits[start..])
    ensures r.Ok? && At(c, r.value, Mul(c.group, SegmentValue(FirstSegment(bits[start..])), generator))
  {
    ghost var segment := FirstSegment(bits[start..]);
    var segmentResult: Option<Mont> := None;
    var window := 0;
    pos := start;
    while pos < |bits|
      invariant 0 <= window < CHUNKS_PER_GENERATOR
      invariant pos == if start + 3 * window < |bits| then start + 3 * window else |bits|
      invariant segmentResult.None? <==> window == 0
      invariant window > 0 ==> MontAt(c, segmentResult.value, Mul(c.group, SegmentScalar(segment, window), generator))
      invariant 3 * window < |segment| + 3
      decreases |bits| - pos
    {
      var tmp := LookupTerm(c, generator, segmentWindows, bits, start, window);
      pos := if pos + 3 < |bits| then pos + 3 else |bits|;
      var next := AddWindowTerm(g, c, generator, segment, window, tmp, segmentResult);
      match next {
        case Err(e) => return Err(e), pos;
        case Ok(m) => segmentResult := Some(m);
      }
      window := window + 1;
      if window == |segmentWindows| { break; }
    }
    SegmentEnds(bits, start, window, pos);
    IntoEdwardsCorrect(c, segmentResult.value, Mul(c.group, SegmentScalar(segment, window), generator));
    r := IntoEdwards(g, segmentResult.value);
  }

  /** The gadget.  None stands for the panic when the segment generators run out. */
  method PedersenHash<P(!new)>(g: Jubjub, ghost c: Curve<P>, ghost generators: seq<P>, tables: seq<seq<seq<Mont>>>,
                               personalization: Personalization, input: seq<bool>)
    returns (r: Option<Result<Coords, SynthesisError>>)
    requires IsCurve(c) && c.params == g && |tables| == |generators|
    requires forall k: nat | k < |generators| ::
               HasOrderR(c.group, generators[k]) && IsLookupTable(c, generators[k], tables[k])
    requires personalization.MerkleTree? ==> personalization.depth < 63
    ensures r.Some? <==> Fits(generators, personalization.GetBits() + input)
    ensures r.Some? ==> r.value.Ok? && At(c, r.value.value, HashPoint(c.group, generators, personalization.GetBits() + input))
  {
    var bits := personalization.GetBits() + input;
    var edwardsResult: Option<Coords> := None;
    ghost var result := c.group.zero;
    var pos := 0;
    var segment := 0;
    assert bits[0..] == bits && generators[0..] == generators;
    if Fits(generators, bits) { Neutral(c.group, HashPoint(c.group, generators, bits)); }
    while pos < |bits|
      invariant 0 <= pos <= |bits| && segment <= |generators|
      invariant edwardsResult.None? ==> pos == 0 && result == c.group.zero
      invariant edwardsResult.Some? ==> At(c, edwardsResult.value, result)
      invariant Fits(generators, bits) <==> Fits(generators[segment..], bits[pos..])
      invariant Fits(generators, bits) ==>
                  HashPoint(c.group, generators, bits) == c.group.add(result, HashPoint(c.group, generators[segment..], bits[pos..]))
      decreases |bits| - pos
    {
      if segment == |tables| { return None; }
      ghost var rest := bits[pos..];
      ghost var term := Mul(c.group, SegmentValue(FirstSegment(rest)), generators[segment]);
      var segmentResult, next := HashSegment(g, c, generators[segment], tables[segment], bits, pos);
      assert generators[segment..][1..] == generators[segment + 1..];
      if Fits(generators, bits) {
        Assoc(c.group, result, term, HashPoint(c.group, generators[segment + 1..], RestSegments(rest)));
      }
      match edwardsResult {
        case Some(sum) =>
          EdwardsAddCorrect(c, segmentResult.value, term, sum, result);
          Comm(c.group, term, result);
          var added := EdwardsAdd(g, segmentResult.value, sum);
          if added.Err? { return Some(added); }
          edwardsResult := Some(added.value);
        case None =>
          Neutral(c.group, term);
          edwardsResult := Some(segmentResult.value);
      }
      result := c.group.add(result, term);
      pos := next;
      segment := segment + 1;
    }
    Neutral(c.group, result);
    r := Some(Ok(edwardsResult.value));
  }
}
