/** Powers, and the value of a little-endian bit string. */
module Powers {

  function Pow(b: nat, e: nat): nat {
    if e == 0 then 1 else b * Pow(b, e - 1)
  }

  lemma {:induction false} PowAdd(b: nat, e: nat, f: nat)
    ensures Pow(b, e + f) == Pow(b, e) * Pow(b, f)
  {
    if e > 0 {
      PowAdd(b, e - 1, f);
      Associate(b, Pow(b, e - 1), Pow(b, f));
    }
  }

  lemma Associate(a: int, b: int, c: int)
    ensures a * (b * c) == (a * b) * c
  {
  }

  lemma {:induction false} PowPositive(b: nat, e: nat)
    requires b > 0
    ensures Pow(b, e) > 0
  {
    if e > 0 {
      PowPositive(b, e - 1);
    }
  }

  lemma {:induction false} PowPow(b: nat, e: nat, f: nat)
    ensures Pow(Pow(b, e), f) == Pow(b, e * f)
  {
    if f > 0 {
      PowPow(b, e, f - 1);
      assert e * f == e + e * (f - 1);
      PowAdd(b, e, e * (f - 1));
    } else {
      assert e * f == 0;
    }
  }

  function Bit(b: bool): nat {
    if b then 1 else 0
  }

  // The bit at position k, false beyond the end.
  function BitAt(bits: seq<bool>, k: nat): bool {
    k < |bits| && bits[k]
  }

  /** The number whose k-th least significant bit is bits[k]. */
  function BitsValue(bits: seq<bool>): nat {
    if |bits| == 0 then 0
    else BitsValue(bits[..|bits| - 1]) + Bit(bits[|bits| - 1]) * Pow(2, |bits| - 1)
  }

  // Reading one more bit, where reading past the end adds nothing.
  lemma BitsValueStep(bits: seq<bool>, k: nat)
    ensures
      var lo := if k < |bits| then k else |bits|;
      var hi := if k + 1 < |bits| then k + 1 else |bits|;
      BitsValue(bits[..hi]) == BitsValue(bits[..lo]) + Bit(BitAt(bits, k)) * Pow(2, k)
  {
    if k < |bits| {
      LastBit(bits[..k + 1]);
      assert bits[..k + 1][..k] == bits[..k];
    } else {
      NoBit(Pow(2, k));
    }
  }

  lemma LastBit(bits: seq<bool>)
    requires |bits| > 0
    ensures BitsValue(bits) == BitsValue(bits[..|bits| - 1]) + Bit(bits[|bits| - 1]) * Pow(2, |bits| - 1)
  {
  }

  lemma NoBit(m: nat)
    ensures Bit(false) * m == 0
  {
  }

  lemma {:induction false} BitsValueBound(bits: seq<bool>)
    ensures BitsValue(bits) < Pow(2, |bits|)
  {
    if |bits| > 0 {
      BitsValueBound(bits[..|bits| - 1]);
    }
  }

  lemma DivModUnique(n: int, m: int, k: int, r: int)
    requires n == m * k + r && 0 <= r < m
    ensures n / m == k && n % m == r
  {
    var k', r' := n / m, n % m;
    assert n == m * k' + r';
    MulDifference(m, k, k');
    if k > k' {
      AtLeastMultiple(m, k - k');
    } else if k < k' {
      AtLeastMultiple(m, k' - k);
      MulDifference(m, k', k);
    }
  }

  lemma MulDifference(m: int, k: int, l: int)
    ensures m * (k - l) == m * k - m * l
  {
  }

  lemma AtLeastMultiple(m: int, k: int)
    requires m > 0 && k >= 1
    ensures m * k >= m
  {
  }

  // One more digit of n in base b: the digit at weight m.
  lemma DigitStep(n: nat, m: nat, b: nat)
    requires m > 0 && b > 0
    ensures b * m > 0 && n % (b * m) == n % m + m * ((n / m) % b)
    ensures n / (b * m) == (n / m) / b
  {
    var q, r := n / m, n % m;
    var t, d := q / b, q % b;
    AtLeastMultiple(m, b);
    assert b * m == m * b;
    assert n == m * q + r;
    assert q == b * t + d;
    DigitProduct(m, b, t, d);
    DigitBound(m, b, d, r);
    DivModUnique(n, b * m, t, m * d + r);
  }

  lemma DigitProduct(m: nat, b: nat, t: int, d: int)
    ensures m * (b * t + d) == (b * m) * t + m * d
  {
  }

  lemma DigitBound(m: nat, b: nat, d: nat, r: nat)
    requires d < b && r < m
    ensures m * d + r < b * m
  {
    assert m * (d + 1) <= m * b;
    assert m * (d + 1) == m * d + m;
  }

  // (n >> i) & 1 == 1
  function BitOf(n: nat, i: nat): bool {
    PowPositive(2, i);
    (n / Pow(2, i)) % 2 == 1
  }

  /** The low bits of n, least significant first. */
  function ToBits(n: nat, len: nat): (bits: seq<bool>)
    ensures |bits| == len
  {
    seq(len, i requires 0 <= i < len => BitOf(n, i))
  }

  lemma BitOfNumber(x: nat, m: nat)
    ensures Bit(x % 2 == 1) * m == m * (x % 2)
  {
  }

  lemma {:induction false} ToBitsValue(n: nat, len: nat)
    ensures Pow(2, len) > 0 && BitsValue(ToBits(n, len)) == n % Pow(2, len)
  {
    if len > 0 {
      ToBitsValue(n, len - 1);
      ToBitsStep(n, ToBits(n, len - 1), Pow(2, len - 1));
      assert ToBits(n, len) == ToBits(n, len - 1) + [BitOf(n, len - 1)];
    }
  }

  lemma ToBitsStep(n: nat, bits: seq<bool>, m: nat)
    requires m == Pow(2, |bits|) && m > 0 && BitsValue(bits) == n % m
    ensures BitsValue(bits + [(n / m) % 2 == 1]) == n % (2 * m)
  {
    BitStep(n, m);
    BitsValueAppend(bits, (n / m) % 2 == 1);
  }

  lemma BitsValueAppend(bits: seq<bool>, b: bool)
    ensures BitsValue(bits + [b]) == BitsValue(bits) + Bit(b) * Pow(2, |bits|)
  {
    assert (bits + [b])[..|bits|] == bits;
  }

  lemma BitStep(n: nat, m: nat)
    requires m > 0
    ensures n % (2 * m) == n % m + Bit((n / m) % 2 == 1) * m
  {
    DigitStep(n, m, 2);
    BitOfNumber(n / m, m);
  }

  lemma TopBits(a: nat, b: nat, m: nat, x: bool, y: bool)
    requires a < m && b < m && a + Bit(x) * m == b + Bit(y) * m
    ensures a == b && x == y
  {
  }

  // Strings of one length with one value are equal.
  lemma {:induction false} BitsInjective(s: seq<bool>, t: seq<bool>)
    requires |s| == |t| && BitsValue(s) == BitsValue(t)
    ensures s == t
  {
    if |s| > 0 {
      var n := |s| - 1;
      BitsValueBound(s[..n]);
      BitsValueBound(t[..n]);
      TopBits(BitsValue(s[..n]), BitsValue(t[..n]), Pow(2, n), s[n], t[n]);
      BitsInjective(s[..n], t[..n]);
      assert s == s[..n] + [s[n]] && t == t[..n] + [t[n]];
    }
  }

  // The bits of the value of some bits are those bits.
  lemma ToBitsOfBits(bits: seq<bool>)
    ensures ToBits(BitsValue(bits), |bits|) == bits
  {
    var n := BitsValue(bits);
    BitsValueBound(bits);
    ToBitsValue(n, |bits|);
    DivModUnique(n, Pow(2, |bits|), 0, n);
    BitsInjective(ToBits(n, |bits|), bits);
  }
}
