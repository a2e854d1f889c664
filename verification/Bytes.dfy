/** Little-endian byte strings. */
module Bytes {
  import opened Powers

  type byte = x: int | 0 <= x < 256

  function LeBytes(n: nat, len: nat): (bytes: seq<byte>)
    ensures |bytes| == len
  {
    if len == 0 then [] else [n % 256] + LeBytes(n / 256, len - 1)
  }

  function LeValue(bytes: seq<byte>): nat {
    if |bytes| == 0 then 0 else bytes[0] + 256 * LeValue(bytes[1..])
  }

  lemma {:induction false} LeValueOfBytes(n: nat, len: nat)
    requires n < Pow(256, len)
    ensures LeValue(LeBytes(n, len)) == n
  {
    if len > 0 {
      LeValueOfBytes(n / 256, len - 1);
    }
  }

  lemma {:induction false} LeBytesOfValue(bytes: seq<byte>)
    ensures LeBytes(LeValue(bytes), |bytes|) == bytes && LeValue(bytes) < Pow(256, |bytes|)
  {
    if |bytes| > 0 {
      LeBytesOfValue(bytes[1..]);
      LowByte(bytes[0], LeValue(bytes[1..]), Pow(256, |bytes| - 1));
    }
  }

  lemma LowByte(b: byte, v: nat, bound: nat)
    requires v < bound
    ensures (b + 256 * v) % 256 == b && (b + 256 * v) / 256 == v && b + 256 * v < 256 * bound
  {
  }

  // Byte k of a number is its digit of weight 256^k.
  lemma {:induction false} LeBytesAt(n: nat, len: nat, k: nat)
    requires k < len
    ensures Pow(256, k) > 0 && LeBytes(n, len)[k] == (n / Pow(256, k)) % 256
  {
    PowPositive(256, k);
    if k > 0 {
      LeBytesAt(n / 256, len - 1, k - 1);
      PowPositive(256, k - 1);
      DivideTwice(n, 256, Pow(256, k - 1));
    }
  }

  lemma DivideTwice(n: nat, a: nat, b: nat)
    requires a > 0 && b > 0
    ensures a * b > 0 && n / (a * b) == (n / a) / b
  {
    DigitStep(n, a, b);
    assert b * a == a * b;
  }

  // A little-endian word is its first k bytes, and the rest shifted up.
  lemma {:induction false} LeSplit(bytes: seq<byte>, k: nat)
    requires k <= |bytes|
    ensures LeValue(bytes) == LeValue(bytes[..k]) + Pow(256, k) * LeValue(bytes[k..])
    ensures LeValue(bytes[..k]) < Pow(256, k)
  {
    if k > 0 {
      var m := Pow(256, k - 1);
      LeSplit(bytes[1..], k - 1);
      assert bytes[1..][k - 1..] == bytes[k..];
      assert bytes[1..][..k - 1] == bytes[..k][1..];
      Associate(256, m, LeValue(bytes[k..]));
    } else {
      assert bytes[0..] == bytes;
    }
  }

  // --- machine words: shifts and unions of 64-bit values; a mask 2^k - 1 is a remainder modulo 2^k ---

  const WORD: nat := 0x1_0000_0000_0000_0000

  function BitOr(a: nat, b: nat): nat {
    if a == 0 then b
    else if b == 0 then a
    else (if a % 2 == 1 || b % 2 == 1 then 1 else 0) + 2 * BitOr(a / 2, b / 2)
  }

  function ShiftRight(a: nat, k: nat): nat {
    PowPositive(2, k);
    a / Pow(2, k)
  }

  function ShiftLeftWord(a: nat, k: nat): nat {
    (a * Pow(2, k)) % WORD
  }

  // A union below 2^k on the left and a multiple of 2^k on the right is their sum.
  lemma {:induction false} OrDisjoint(a: nat, b: nat, k: nat)
    requires a < Pow(2, k)
    ensures BitOr(a, Pow(2, k) * b) == a + Pow(2, k) * b
  {
    if k > 0 {
      OrDisjoint(a / 2, b, k - 1);
      OrStep(a, b, Pow(2, k - 1));
    }
  }

  lemma OrStep(a: nat, b: nat, m: nat)
    ensures (2 * m) * b == 2 * (m * b)
    ensures ((2 * m) * b) % 2 == 0 && ((2 * m) * b) / 2 == m * b
  {
    assert (2 * m) * b == 2 * (m * b);
  }
}
