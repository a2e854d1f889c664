/** Soundness of the Pedersen hash circuit: whatever values a prover puts on the wires, the enforced
equations leave only the hash as the result. */
module PedersenWires {
  import opened Residues
  import opened EdwardsCurve
  import opened MontgomeryCurve
  import opened Groups
  import opened JubjubGroup
  import opened EccGadgets
  import opened Scalars
  import opened PedersenSpec
  import opened PedersenCircuit
  import opened Powers

  ghost predicate SameMont(g: Jubjub, m: Mont, n: Mont) {
    g.field.Eq(m.x, n.x) && g.field.Eq(m.y, n.y)
  }

  /** The wires of one segment: looked-up points, slopes, running sums, the Edwards result. */
  datatype SegmentWires = SegmentWires(terms: seq<Mont>, slopes: seq<int>, sums: seq<Mont>, edwards: Coords)

  /** The wires of the addition that joins a segment to the accumulator. */
  datatype JoinWires = JoinWires(bigU: int, a: int, b: int, cross: int, sum: Coords)

  ghost predicate LookupConstraint(g: Jubjub, table: seq<seq<Mont>>, segment: seq<bool>, w: nat, term: Mont)
    requires w < |table| && |table[w]| == 4
  {
    SameMont(g, term, LookupConditionalNegation(table[w], BitAt(segment, 3 * w), BitAt(segment, 3 * w + 1), BitAt(segment, 3 * w + 2)))
  }

  ghost predicate WindowConstraints(g: Jubjub, table: seq<seq<Mont>>, segment: seq<bool>, wires: SegmentWires, w: nat)
    requires w < |table| && |table[w]| == 4
    requires w < |wires.terms| == |wires.slopes| == |wires.sums|
  {
    && LookupConstraint(g, table, segment, w, wires.terms[w])
    && if w == 0 then wires.sums[0] == wires.terms[0]
       else ChordConstraints(g, wires.terms[w], wires.sums[w - 1], wires.slopes[w], wires.sums[w])
  }

  ghost predicate SegmentConstraints(g: Jubjub, table: seq<seq<Mont>>, segment: seq<bool>, wires: SegmentWires)
    requires 0 < |segment| <= SEGMENT_BITS
  {
    var n := Chunks(|segment|);
    && |table| == CHUNKS_PER_GENERATOR
    && |wires.terms| == |wires.slopes| == |wires.sums| == n
    && (forall w: nat | w < n :: |table[w]| == 4 && WindowConstraints(g, table, segment, wires, w))
    && IntoEdwardsConstraints(g, wires.sums[n - 1], wires.edwards)
  }

  lemma MontAtSame<P(!new)>(c: Curve<P>, m: Mont, n: Mont, p: P)
    requires MontAt(c, m, p) && SameMont(c.params, n, m)
    ensures MontAt(c, n, p)
  {
    var q, u, v := c.params.field.q, c.u(p), c.v(p);
    CongScale(q, 1 - v, n.x, m.x);
    CongTrans(q, (1 - v) * n.x, (1 - v) * m.x, 1 + v);
    CongScale(q, u, n.y, m.y);
    CongTrans(q, u * n.y, u * m.y, c.params.scale * m.x);
    CongScale(q, c.params.scale, n.x, m.x);
    CongSym(q, c.params.scale * n.x, c.params.scale * m.x);
    CongTrans(q, u * n.y, c.params.scale * m.x, c.params.scale * n.x);
  }

  // One link of the chain: the running-sum wire holds the scalar of the chunks read so far.
  lemma ChainLink<P(!new)>(c: Curve<P>, generator: P, segment: seq<bool>, w: nat, term: Mont, running: Mont,
                           slope: int, next: Mont)
    requires IsCurve(c) && HasOrderR(c.group, generator) && 0 < w < CHUNKS_PER_GENERATOR
    requires MontAt(c, term, Mul(c.group, ChunkAt(segment, w) * Pow(16, w), generator))
    requires MontAt(c, running, Mul(c.group, SegmentScalar(segment, w), generator))
    requires ChordConstraints(c.params, term, running, slope, next)
    ensures MontAt(c, next, Mul(c.group, SegmentScalar(segment, w + 1), generator))
  {
    var s, t := SegmentScalar(segment, w), ChunkAt(segment, w) * Pow(16, w);
    ChunkAgainstSum(segment, w);
    DifferentMultiples(c.group, generator, t, s);
    MulAdd(c.group, t, s, generator);
    SmallMultiple(c, generator, t + s);
    MontgomeryAddSound(c, term, Mul(c.group, t, generator), running, Mul(c.group, s, generator), slope, next);
  }

  lemma {:induction false} RunningSum<P(!new)>(c: Curve<P>, generator: P, table: seq<seq<Mont>>, segment: seq<bool>,
                                               wires: SegmentWires, w: nat)
    requires IsCurve(c) && HasOrderR(c.group, generator) && IsLookupTable(c, generator, table)
    requires 0 < |segment| <= SEGMENT_BITS && SegmentConstraints(c.params, table, segment, wires)
    requires w < Chunks(|segment|)
    ensures MontAt(c, wires.sums[w], Mul(c.group, SegmentScalar(segment, w + 1), generator))
  {
    var a, b, d := BitAt(segment, 3 * w), BitAt(segment, 3 * w + 1), BitAt(segment, 3 * w + 2);
    assert WindowConstraints(c.params, table, segment, wires, w);
    assert IsLookupWindow(c, generator, table[w], w);
    LookupIsChunk(c, generator, table[w], w, a, b, d);
    MontAtSame(c, LookupConditionalNegation(table[w], a, b, d), wires.terms[w],
               Mul(c.group, ChunkAt(segment, w) * Pow(16, w), generator));
    if w == 0 {
      assert SegmentScalar(segment, 1) == ChunkAt(segment, 0) * Pow(16, 0);
    } else {
      RunningSum(c, generator, table, segment, wires, w - 1);
      ChainLink(c, generator, segment, w, wires.terms[w], wires.sums[w - 1], wires.slopes[w], wires.sums[w]);
    }
  }

  // The wires of a segment can only hold that segment's multiple of its generator.
  lemma SegmentSound<P(!new)>(c: Curve<P>, generator: P, table: seq<seq<Mont>>, segment: seq<bool>, wires: SegmentWires)
    requires IsCurve(c) && HasOrderR(c.group, generator) && IsLookupTable(c, generator, table)
    requires 0 < |segment| <= SEGMENT_BITS && SegmentConstraints(c.params, table, segment, wires)
    ensures At(c, wires.edwards, Mul(c.group, SegmentValue(segment), generator))
  {
    var n := Chunks(|segment|);
    RunningSum(c, generator, table, segment, wires, n - 1);
    IntoEdwardsCorrect(c, wires.sums[n - 1], Mul(c.group, SegmentValue(segment), generator));
  }

  /** The equations of the segments after the first, each joined to the accumulator so far. */
  ghost predicate JoinConstraints(g: Jubjub, tables: seq<seq<seq<Mont>>>, bits: seq<bool>, segments: seq<SegmentWires>,
                                  joins: seq<JoinWires>, accumulator: Coords, output: Coords)
    decreases |bits|
  {
    if bits == [] then |segments| == |joins| == 0 && output == accumulator
    else
      && 0 < |tables| && |segments| == |joins| > 0
      && SegmentConstraints(g, tables[0], FirstSegment(bits), segments[0])
      && g.AddConstraints(segments[0].edwards, accumulator, joins[0].bigU, joins[0].a, joins[0].b, joins[0].cross, joins[0].sum)
      && JoinConstraints(g, tables[1..], RestSegments(bits), segments[1..], joins[1..], joins[0].sum, output)
  }

  /** All equations of the hash gadget over the bits, personalization included. */
  ghost predicate HashConstraints(g: Jubjub, tables: seq<seq<seq<Mont>>>, bits: seq<bool>, segments: seq<SegmentWires>,
                                  joins: seq<JoinWires>, output: Coords)
    requires bits != []
  {
    && 0 < |tables| && 0 < |segments|
    && SegmentConstraints(g, tables[0], FirstSegment(bits), segments[0])
    && JoinConstraints(g, tables[1..], RestSegments(bits), segments[1..], joins, segments[0].edwards, output)
  }

  ghost predicate AreTables<P>(c: Curve<P>, generators: seq<P>, tables: seq<seq<seq<Mont>>>) {
    && |tables| == |generators|
    && forall k: nat | k < |generators| :: HasOrderR(c.group, generators[k]) && IsLookupTable(c, generators[k], tables[k])
  }

  lemma {:induction false} JoinSound<P(!new)>(c: Curve<P>, generators: seq<P>, tables: seq<seq<seq<Mont>>>, bits: seq<bool>,
                                              segments: seq<SegmentWires>, joins: seq<JoinWires>,
                                              accumulator: Coords, p: P, output: Coords)
    requires IsCurve(c) && AreTables(c, generators, tables)
    requires JoinConstraints(c.params, tables, bits, segments, joins, accumulator, output)
    requires At(c, accumulator, p)
    ensures Fits(generators, bits)
    ensures At(c, output, c.group.add(p, HashPoint(c.group, generators, bits)))
    decreases |bits|
  {
    if bits == [] {
      Neutral(c.group, p);
    } else {
      var j, term := joins[0], Mul(c.group, SegmentValue(FirstSegment(bits)), generators[0]);
      SegmentSound(c, generators[0], tables[0], FirstSegment(bits), segments[0]);
      EdwardsAddSound(c, segments[0].edwards, term, accumulator, p, j.bigU, j.a, j.b, j.cross, j.sum);
      JoinSound(c, generators[1..], tables[1..], RestSegments(bits), segments[1..], joins[1..], j.sum,
                c.group.add(term, p), output);
      Comm(c.group, term, p);
      Assoc(c.group, p, term, HashPoint(c.group, generators[1..], RestSegments(bits)));
    }
  }

  /** Any assignment that satisfies the circuit carries the hash on its output wires. */
  lemma HashSound<P(!new)>(c: Curve<P>, generators: seq<P>, tables: seq<seq<seq<Mont>>>, bits: seq<bool>,
                           segments: seq<SegmentWires>, joins: seq<JoinWires>, output: Coords)
    requires IsCurve(c) && AreTables(c, generators, tables) && bits != []
    requires HashConstraints(c.params, tables, bits, segments, joins, output)
    ensures Fits(generators, bits)
    ensures At(c, output, HashPoint(c.group, generators, bits))
  {
    var term := Mul(c.group, SegmentValue(FirstSegment(bits)), generators[0]);
    SegmentSound(c, generators[0], tables[0], FirstSegment(bits), segments[0]);
    JoinSound(c, generators[1..], tables[1..], RestSegments(bits), segments[1..], joins, segments[0].edwards, term, output);
  }
}
