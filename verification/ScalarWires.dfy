/** Soundness of the two scalar multiplication circuits: any wires that satisfy their equations hold
the multiple that the bits denote. */
module ScalarWires {
  import opened Powers
  import opened EdwardsCurve
  import opened Groups
  import opened JubjubGroup
  import opened EccGadgets
  import opened ScalarMultiplication
  import opened PedersenWires

  // The running sum after term i: the first term, then the outputs of the additions.
  ghost function SumWire(terms: seq<Coords>, joins: seq<JoinWires>, i: nat): Coords
    requires i < |terms| == |joins|
  {
    if i == 0 then terms[0] else joins[i].sum
  }

  ghost predicate SumConstraint(g: Jubjub, terms: seq<Coords>, joins: seq<JoinWires>, i: nat)
    requires i < |terms| == |joins|
  {
    i > 0 ==>
      var j := joins[i];
      g.AddConstraints(SumWire(terms, joins, i - 1), terms[i], j.bigU, j.a, j.b, j.cross, j.sum)
  }

  // --- window tables ---

  ghost predicate FixedBaseConstraints(g: Jubjub, base: seq<seq<Coords>>, bits: seq<bool>, terms: seq<Coords>, joins: seq<JoinWires>) {
    && |terms| == |joins| <= |base|
    && forall i: nat | i < |terms| ::
         && |base[i]| == 8 && g.Same(terms[i], base[i][ChunkIndex(bits, i)]) && SumConstraint(g, terms, joins, i)
  }

  lemma {:induction false} FixedBaseSound<P(!new)>(c: Curve<P>, generator: P, base: seq<seq<Coords>>, bits: seq<bool>,
                                                   terms: seq<Coords>, joins: seq<JoinWires>, i: nat)
    requires IsCurve(c) && IsWindowTable(c, generator, base)
    requires FixedBaseConstraints(c.params, base, bits, terms, joins) && i < |terms|
    ensures At(c, SumWire(terms, joins, i), Mul(c.group, BitsValue(bits[..Min(3 * i + 3, |bits|)]), generator))
  {
    var chunk := ChunkIndex(bits, i) * Pow(8, i);
    ChunkValue(bits, i);
    assert IsWindow(c, generator, base[i], i);
    SameTrans(c.params, terms[i], base[i][ChunkIndex(bits, i)], c.Affine(Mul(c.group, chunk, generator)));
    if i == 0 {
      assert bits[..0] == [];
    } else {
      FixedBaseSound(c, generator, base, bits, terms, joins, i - 1);
      JoinMultiple(c, generator, terms, joins, i, BitsValue(bits[..Min(3 * i, |bits|)]), chunk);
    }
  }

  // One addition of the chain, on multiples of one point.
  lemma JoinMultiple<P(!new)>(c: Curve<P>, p: P, terms: seq<Coords>, joins: seq<JoinWires>, i: nat, k: int, l: int)
    requires IsCurve(c) && 0 < i < |terms| == |joins| && SumConstraint(c.params, terms, joins, i)
    requires At(c, SumWire(terms, joins, i - 1), Mul(c.group, k, p)) && At(c, terms[i], Mul(c.group, l, p))
    ensures At(c, SumWire(terms, joins, i), Mul(c.group, k + l, p))
  {
    var j := joins[i];
    EdwardsAddSound(c, SumWire(terms, joins, i - 1), Mul(c.group, k, p), terms[i], Mul(c.group, l, p),
                    j.bigU, j.a, j.b, j.cross, j.sum);
    MulAdd(c.group, k, l, p);
  }

  // --- double and add ---

  datatype DoubleWires = DoubleWires(t: int, a: int, cross: int, point: Coords)

  ghost function BaseWire(self: Coords, doubles: seq<DoubleWires>, i: nat): Coords
    requires i < |doubles|
  {
    if i == 0 then self else doubles[i].point
  }

  ghost predicate DoubleConstraint(g: Jubjub, self: Coords, doubles: seq<DoubleWires>, i: nat)
    requires i < |doubles|
  {
    i > 0 ==> g.DoubleConstraints(BaseWire(self, doubles, i - 1), doubles[i].t, doubles[i].a, doubles[i].cross, doubles[i].point)
  }

  ghost predicate DoublingConstraints(g: Jubjub, self: Coords, doubles: seq<DoubleWires>) {
    forall i: nat | i < |doubles| :: DoubleConstraint(g, self, doubles, i)
  }

  // The selected base of bit i, and its addition to the running sum.
  ghost predicate BitConstraints(g: Jubjub, self: Coords, bits: seq<bool>, doubles: seq<DoubleWires>, selected: seq<Coords>,
                                 joins: seq<JoinWires>, i: nat)
    requires i < |bits| == |doubles| == |selected| == |joins|
  {
    SelectConstraints(g, BaseWire(self, doubles, i), bits[i], selected[i]) && SumConstraint(g, selected, joins, i)
  }

  ghost predicate MulConstraints(g: Jubjub, self: Coords, bits: seq<bool>, doubles: seq<DoubleWires>, selected: seq<Coords>, joins: seq<JoinWires>) {
    && |bits| == |doubles| == |selected| == |joins|
    && DoublingConstraints(g, self, doubles)
    && forall i: nat | i < |bits| :: BitConstraints(g, self, bits, doubles, selected, joins, i)
  }

  lemma {:induction false} DoublingSound<P(!new)>(c: Curve<P>, p: P, self: Coords, doubles: seq<DoubleWires>, i: nat)
    requires IsCurve(c) && At(c, self, p) && i < |doubles| && DoublingConstraints(c.params, self, doubles)
    ensures At(c, BaseWire(self, doubles, i), Mul(c.group, Pow(2, i), p))
  {
    if i == 0 {
      MulOne(c.group, p);
    } else {
      DoublingSound(c, p, self, doubles, i - 1);
      var before := Mul(c.group, Pow(2, i - 1), p);
      assert DoubleConstraint(c.params, self, doubles, i);
      EdwardsDoubleSound(c, BaseWire(self, doubles, i - 1), before, doubles[i].t, doubles[i].a, doubles[i].cross, doubles[i].point);
      MulAdd(c.group, Pow(2, i - 1), Pow(2, i - 1), p);
    }
  }

  lemma SelectedSound<P(!new)>(c: Curve<P>, p: P, base: Coords, bit: bool, selected: Coords, weight: int)
    requires IsCurve(c) && At(c, base, Mul(c.group, weight, p)) && SelectConstraints(c.params, base, bit, selected)
    ensures At(c, selected, Mul(c.group, Bit(bit) * weight, p))
  {
    SelectSound(c.params, base, bit, selected);
    SelectMultiple(c, base, bit, weight, p);
    SameTrans(c.params, selected, ConditionallySelect(base, bit), c.Affine(Mul(c.group, Bit(bit) * weight, p)));
  }

  lemma BitsStep(bits: seq<bool>, i: nat)
    requires i < |bits|
    ensures BitsValue(bits[..i + 1]) == BitsValue(bits[..i]) + Bit(bits[i]) * Pow(2, i)
    ensures BitsValue(bits[..0]) == 0
  {
    BitsValueStep(bits, i);
    assert bits[..0] == [];
  }

  lemma BitSound<P(!new)>(c: Curve<P>, p: P, self: Coords, bits: seq<bool>, doubles: seq<DoubleWires>,
                          selected: seq<Coords>, joins: seq<JoinWires>, i: nat)
    requires IsCurve(c) && At(c, self, p) && MulConstraints(c.params, self, bits, doubles, selected, joins) && i < |bits|
    ensures At(c, selected[i], Mul(c.group, Bit(bits[i]) * Pow(2, i), p)) && SumConstraint(c.params, selected, joins, i)
  {
    assert BitConstraints(c.params, self, bits, doubles, selected, joins, i);
    DoublingSound(c, p, self, doubles, i);
    SelectedSound(c, p, BaseWire(self, doubles, i), bits[i], selected[i], Pow(2, i));
  }

  lemma {:induction false} MulSound<P(!new)>(c: Curve<P>, p: P, self: Coords, bits: seq<bool>, doubles: seq<DoubleWires>,
                                             selected: seq<Coords>, joins: seq<JoinWires>, i: nat)
    requires IsCurve(c) && At(c, self, p) && MulConstraints(c.params, self, bits, doubles, selected, joins) && i < |bits|
    ensures At(c, SumWire(selected, joins, i), Mul(c.group, BitsValue(bits[..i + 1]), p))
  {
    BitSound(c, p, self, bits, doubles, selected, joins, i);
    BitsStep(bits, i);
    if i > 0 {
      MulSound(c, p, self, bits, doubles, selected, joins, i - 1);
      JoinMultiple(c, p, selected, joins, i, BitsValue(bits[..i]), Bit(bits[i]) * Pow(2, i));
    }
  }
}
