/** The scalar multiplication loops of the circuit: fixed-base by window tables, variable-base by
double-and-add, and the small-order check. */
module ScalarMultiplication {
  import opened Residues
  import opened Wrappers
  import opened Powers
  import opened EdwardsCurve
  import opened Groups
  import opened JubjubGroup
  import opened EccGadgets

  // Entry i of window j stands for [i * 8^j] gen.
  ghost predicate IsWindow<P>(c: Curve<P>, gen: P, window: seq<Coords>, j: nat) {
    && |window| == 8
    && forall i: nat | i < 8 :: At(c, window[i], Mul(c.group, i * Pow(8, j), gen))
  }

  ghost predicate IsWindowTable<P>(c: Curve<P>, gen: P, windows: seq<seq<Coords>>) {
    forall j: nat | j < |windows| :: IsWindow(c, gen, windows[j], j)
  }

  method GenerateCircuitGenerator<P(!new)>(c: Curve<P>, generator: P) returns (windows: seq<seq<Coords>>)
    requires IsCurve(c)
    ensures |windows| == FIXED_BASE_CHUNKS && IsWindowTable(c, generator, windows)
  {
    windows := GenerateWindows(c, generator, FIXED_BASE_CHUNKS);
  }

  method GenerateWindows<P(!new)>(c: Curve<P>, generator: P, chunks: nat) returns (windows: seq<seq<Coords>>)
    requires IsCurve(c)
    ensures |windows| == chunks && IsWindowTable(c, generator, windows)
  {
    windows := [];
    var gen := generator;
    MulOne(c.group, generator);
    for j := 0 to chunks
      invariant |windows| == j && IsWindowTable(c, generator, windows)
      invariant gen == Mul(c.group, Pow(8, j), generator)
    {
      var coeffs, next := GenerateWindow(c, gen);
      RescaleWindow(c, generator, coeffs, j);
      AppendWindow(c, generator, windows, coeffs);
      windows := windows + [coeffs];
      NextBase(c.group, generator, j);
      gen := next;
    }
  }

  lemma NextBase<P(!new)>(g: Group<P>, generator: P, j: nat)
    requires IsGroup(g)
    ensures Mul(g, 8, Mul(g, Pow(8, j), generator)) == Mul(g, Pow(8, j + 1), generator)
  {
    MulMul(g, 8, Pow(8, j), generator);
  }

  lemma AppendWindow<P(!new)>(c: Curve<P>, generator: P, windows: seq<seq<Coords>>, window: seq<Coords>)
    requires IsWindowTable(c, generator, windows) && IsWindow(c, generator, window, |windows|)
    ensures IsWindowTable(c, generator, windows + [window])
  {
  }

  // One window: the identity, then seven multiples; the eighth is the base of the next window.
  method GenerateWindow<P(!new)>(c: Curve<P>, gen: P) returns (coeffs: seq<Coords>, g: P)
    requires IsCurve(c)
    ensures |coeffs| == 8 && g == Mul(c.group, 8, gen)
    ensures forall k: nat | k < 8 :: At(c, coeffs[k], Mul(c.group, k, gen))
  {
    coeffs := [Coords(0, 1)];
    g := gen;
    SameSym(c.params, c.Affine(c.group.zero), Coords(0, 1));
    MulOne(c.group, gen);
    for i := 0 to 7
      invariant |coeffs| == i + 1
      invariant forall k: nat | k <= i :: At(c, coeffs[k], Mul(c.group, k, gen))
      invariant g == Mul(c.group, i + 1, gen)
    {
      AffineAt(c, g);
      coeffs := coeffs + [c.Affine(g)];
      MulSucc(c.group, i + 1, gen);
      g := c.group.add(g, gen);
    }
  }

  lemma RescaleWindow<P(!new)>(c: Curve<P>, generator: P, coeffs: seq<Coords>, j: nat)
    requires IsCurve(c) && |coeffs| == 8
    requires forall k: nat | k < 8 :: At(c, coeffs[k], Mul(c.group, k, Mul(c.group, Pow(8, j), generator)))
    ensures IsWindow(c, generator, coeffs, j)
  {
    forall k: nat | k < 8
      ensures At(c, coeffs[k], Mul(c.group, k * Pow(8, j), generator))
    {
      MulMul(c.group, k, Pow(8, j), generator);
    }
  }

  function Min(a: nat, b: nat): nat {
    if a < b then a else b
  }

  // The index that the three lookup bits of chunk i select.
  function ChunkIndex(bits: seq<bool>, i: nat): (r: nat)
    ensures r < 8
  {
    Bit(BitAt(bits, 3 * i)) + 2 * Bit(BitAt(bits, 3 * i + 1)) + 4 * Bit(BitAt(bits, 3 * i + 2))
  }

  lemma ChunkValue(bits: seq<bool>, i: nat)
    ensures BitsValue(bits[..Min(3 * i + 3, |bits|)])
         == BitsValue(bits[..Min(3 * i, |bits|)]) + ChunkIndex(bits, i) * Pow(8, i)
  {
    EightIsTwoCubed(i);
    ThreeBits(bits, 3 * i, Pow(8, i));
  }

  lemma ThreeBits(bits: seq<bool>, k: nat, w: nat)
    requires Pow(2, k) == w && Pow(2, k + 1) == 2 * w && Pow(2, k + 2) == 2 * (2 * w)
    ensures BitsValue(bits[..Min(k + 3, |bits|)])
         == BitsValue(bits[..Min(k, |bits|)]) + (Bit(BitAt(bits, k)) + 2 * Bit(BitAt(bits, k + 1)) + 4 * Bit(BitAt(bits, k + 2))) * w
  {
    BitsValueStep(bits, k);
    BitsValueStep(bits, k + 1);
    BitsValueStep(bits, k + 2);
    ChunkSum(Bit(BitAt(bits, k)), Bit(BitAt(bits, k + 1)), Bit(BitAt(bits, k + 2)), w);
  }

  lemma PowThree()
    ensures Pow(2, 3) == 8
  {
    assert Pow(2, 3) == 2 * Pow(2, 2) == 4 * Pow(2, 1) == 8 * Pow(2, 0) == 8;
  }

  lemma EightIsTwoCubed(i: nat)
    ensures Pow(2, 3 * i) == Pow(8, i) && Pow(2, 3 * i + 1) == 2 * Pow(8, i) && Pow(2, 3 * i + 2) == 2 * (2 * Pow(8, i))
  {
    PowThree();
    PowPow(2, 3, i);
  }

  lemma ChunkSum(a: nat, b: nat, c: nat, w: nat)
    ensures a * w + b * (2 * w) + c * (2 * (2 * w)) == (a + 2 * b + 4 * c) * w
  {
  }

  // Adding represented multiples of one point.
  lemma AddMultiples<P(!new)>(c: Curve<P>, e1: Coords, k: int, e2: Coords, l: int, p: P)
    requires IsCurve(c) && At(c, e1, Mul(c.group, k, p)) && At(c, e2, Mul(c.group, l, p))
    ensures EdwardsAdd(c.params, e1, e2).Ok?
    ensures At(c, EdwardsAdd(c.params, e1, e2).value, Mul(c.group, k + l, p))
  {
    EdwardsAddCorrect(c, e1, Mul(c.group, k, p), e2, Mul(c.group, l, p));
    MulAdd(c.group, k, l, p);
  }

  lemma DoubleMultiple<P(!new)>(c: Curve<P>, e: Coords, k: int, p: P)
    requires IsCurve(c) && At(c, e, Mul(c.group, k, p))
    ensures EdwardsDouble(c.params, e).Ok?
    ensures At(c, EdwardsDouble(c.params, e).value, Mul(c.group, 2 * k, p))
  {
    EdwardsDoubleCorrect(c, e, Mul(c.group, k, p));
    MulAdd(c.group, k, k, p);
  }

  lemma SelectMultiple<P(!new)>(c: Curve<P>, e: Coords, condition: bool, k: int, p: P)
    requires IsCurve(c) && At(c, e, Mul(c.group, k, p))
    ensures At(c, ConditionallySelect(e, condition), Mul(c.group, Bit(condition) * k, p))
  {
    SameSym(c.params, c.Affine(c.group.zero), Coords(0, 1));
  }

  // The first looked-up multiple starts the sum; every other is added to it.
  method AddChunk<P(!new)>(g: Jubjub, ghost c: Curve<P>, ghost generator: P, ghost bits: seq<bool>, ghost i: nat,
                           p: Coords, running: Option<Coords>) returns (r: Result<Coords, SynthesisError>)
    requires IsCurve(c) && c.params == g && (running.None? <==> i == 0)
    requires At(c, p, Mul(c.group, ChunkIndex(bits, i) * Pow(8, i), generator))
    requires running.Some? ==> At(c, running.value, Mul(c.group, BitsValue(bits[..Min(3 * i, |bits|)]), generator))
    ensures r.Ok? && At(c, r.value, Mul(c.group, BitsValue(bits[..Min(3 * i + 3, |bits|)]), generator))
  {
    ChunkValue(bits, i);
    match running {
      case None =>
        assert bits[..0] == [];
        return Ok(p);
      case Some(sum) =>
        AddMultiples(c, sum, BitsValue(bits[..Min(3 * i, |bits|)]), p, ChunkIndex(bits, i) * Pow(8, i), generator);
        return EdwardsAdd(g, sum, p);
    }
  }

  // At most three bits per window are read: bits beyond the last window do not count.
  method FixedBaseMultiplication<P(!new)>(g: Jubjub, ghost c: Curve<P>, ghost generator: P,
                                          base: seq<seq<Coords>>, bits: seq<bool>)
    returns (r: Result<Coords, SynthesisError>)
    requires IsCurve(c) && c.params == g
    requires |base| > 0 && IsWindowTable(c, generator, base)
    ensures bits == [] ==> r == Err(AssignmentMissing)
    ensures bits != [] ==>
              && r.Ok?
              && At(c, r.value, Mul(c.group, BitsValue(bits[..Min(3 * |base|, |bits|)]), generator))
  {
    var result: Option<Coords> := None;
    var i := 0;
    while 3 * i < |bits| && i < |base|
      invariant 0 <= i <= |base| && 3 * i < |bits| + 3
      invariant i == 0 <==> result.None?
      invariant i > 0 ==> At(c, result.value, Mul(c.group, BitsValue(bits[..Min(3 * i, |bits|)]), generator))
      decreases |base| - i
    {
      var p := base[i][ChunkIndex(bits, i)];
      assert IsWindow(c, generator, base[i], i);
      var next := AddChunk(g, c, generator, bits, i, p, result);
      match next {
        case Err(_) => return next;
        case Ok(sum) => result := Some(sum);
      }
      i := i + 1;
    }
    if result.None? { return Err(AssignmentMissing); }
    r := Ok(result.value);
  }

  // The base of bit i: the point itself, then the double of the previous base.
  method BaseOfBit<P(!new)>(g: Jubjub, ghost c: Curve<P>, ghost p: P, self: Coords, ghost i: nat, curbase: Option<Coords>)
    returns (r: Result<Coords, SynthesisError>)
    requires IsCurve(c) && c.params == g && At(c, self, p) && (curbase.None? <==> i == 0)
    requires i > 0 ==> At(c, curbase.value, Mul(c.group, Pow(2, i - 1), p))
    ensures r.Ok? && At(c, r.value, Mul(c.group, Pow(2, i), p))
  {
    if curbase.None? {
      MulOne(c.group, p);
      return Ok(self);
    }
    DoubleMultiple(c, curbase.value, Pow(2, i - 1), p);
    return EdwardsDouble(g, curbase.value);
  }

  // The first selected base starts the sum; every other is added to it.
  method AddSelected<P(!new)>(g: Jubjub, ghost c: Curve<P>, ghost p: P, bits: seq<bool>, i: nat, curbase: Coords, running: Option<Coords>)
    returns (r: Result<Coords, SynthesisError>)
    requires IsCurve(c) && c.params == g && i < |bits| && (running.None? <==> i == 0)
    requires At(c, curbase, Mul(c.group, Pow(2, i), p))
    requires i > 0 ==> At(c, running.value, Mul(c.group, BitsValue(bits[..i]), p))
    ensures r.Ok? && At(c, r.value, Mul(c.group, BitsValue(bits[..i + 1]), p))
  {
    var thisbase := ConditionallySelect(curbase, bits[i]);
    SelectMultiple(c, curbase, bits[i], Pow(2, i), p);
    BitsValueStep(bits, i);
    if running.None? {
      assert bits[..0] == [];
      return Ok(thisbase);
    }
    AddMultiples(c, running.value, BitsValue(bits[..i]), thisbase, Bit(bits[i]) * Pow(2, i), p);
    return EdwardsAdd(g, running.value, thisbase);
  }

  // Double-and-add over little-endian bits of any non-zero length.
  method EdwardsMultiplication<P(!new)>(g: Jubjub, ghost c: Curve<P>, ghost p: P, self: Coords, bits: seq<bool>)
    returns (r: Result<Coords, SynthesisError>)
    requires IsCurve(c) && c.params == g && At(c, self, p)
    ensures bits == [] ==> r == Err(AssignmentMissing)
    ensures bits != [] ==> r.Ok? && At(c, r.value, Mul(c.group, BitsValue(bits), p))
  {
    var curbase: Option<Coords> := None;
    var result: Option<Coords> := None;
    for i := 0 to |bits|
      invariant i == 0 <==> curbase.None?
      invariant i == 0 <==> result.None?
      invariant i > 0 ==> At(c, curbase.value, Mul(c.group, Pow(2, i - 1), p))
      invariant i > 0 ==> At(c, result.value, Mul(c.group, BitsValue(bits[..i]), p))
    {
      var base := BaseOfBit(g, c, p, self, i, curbase);
      if base.Err? { return base; }
      curbase := Some(base.value);
      var sum := AddSelected(g, c, p, bits, i, base.value, result);
      if sum.Err? { return sum; }
      result := Some(sum.value);
    }
    assert bits[..|bits|] == bits;
    if result.None? { return Err(AssignmentMissing); }
    r := Ok(result.value);
  }

  // Three doublings, then u must be invertible.
  function AssertNotSmallOrder(g: Jubjub, e: Coords): Result<(), SynthesisError> {
    var d1 := EdwardsDouble(g, e);
    if d1.Err? then Err(d1.error) else
    var d2 := EdwardsDouble(g, d1.value);
    if d2.Err? then Err(d2.error) else
    var d3 := EdwardsDouble(g, d2.value);
    if d3.Err? then Err(d3.error) else
    if g.field.invert(d3.value.u).None? then Err(DivisionByZero) else Ok(())
  }

  // On a curve whose group has order eight times an odd number, the check rejects exactly the
  // points of small order.
  lemma NotSmallOrderIff<P(!new)>(c: Curve<P>, e: Coords, p: P, half: int)
    requires IsCurve(c) && At(c, e, p)
    requires Mul(c.group, 2 * half + 1, Mul(c.group, 8, p)) == c.group.zero
    ensures AssertNotSmallOrder(c.params, e).Ok? <==> Mul(c.group, 8, p) != c.group.zero
  {
    var grp, f := c.group, c.params.field;
    var p2 := grp.add(p, p);
    var p4 := grp.add(p2, p2);
    var p8 := grp.add(p4, p4);
    EdwardsDoubleCorrect(c, e, p);
    var e2 := EdwardsDouble(c.params, e).value;
    EdwardsDoubleCorrect(c, e2, p2);
    var e4 := EdwardsDouble(c.params, e2).value;
    EdwardsDoubleCorrect(c, e4, p4);
    var e8 := EdwardsDouble(c.params, e4).value;
    MulOne(grp, p);
    MulAdd(grp, 2, 2, p);
    MulAdd(grp, 4, 4, p);
    f.InvertFails(e8.u);
    CongSym(f.q, e8.u, c.u(p8));
    if f.Eq(e8.u, 0) {
      CongTrans(f.q, c.u(p8), e8.u, 0);
      ZeroUHasOrderTwo(c, p8);
      OddOrder(grp, half, p8);
    }
    if p8 == grp.zero {
      CongTrans(f.q, e8.u, c.u(p8), 0);
    }
  }

  // A point killed by two and by an odd number is the identity.
  lemma OddOrder<P(!new)>(g: Group<P>, half: int, p: P)
    requires IsGroup(g) && Mul(g, 2, p) == g.zero && Mul(g, 2 * half + 1, p) == g.zero
    ensures p == g.zero
  {
    MulModulo(g, 2 * half + 1, 1, 2, half, p);
    MulOne(g, p);
  }
}
