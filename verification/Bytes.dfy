/** Bytes, big-endian integers and concatenation: what every codec of the tunnel shares. */
module Bytes {

  type byte = x: int | 0 <= x < 256

  const TWO_16: nat := 0x1_0000
  const TWO_32: nat := 0x1_0000_0000
  const TWO_64: nat := 0x1_0000_0000_0000_0000

  function Pow256(k: nat): (p: nat)
    ensures p > 0
  {
    if k == 0 then 1 else 256 * Pow256(k - 1)
  }

  lemma Pow256Widths()
    ensures Pow256(2) == TWO_16 && Pow256(4) == TWO_32 && Pow256(8) == TWO_64
  {
    assert Pow256(4) == 256 * 256 * Pow256(2);
    assert Pow256(8) == 256 * 256 * 256 * 256 * Pow256(4);
  }

  /** Truncation to eight bits. */
  function LowByte(n: nat): byte
  {
    n % 256
  }

  /** The low k bytes of n, most significant first (binary.BigEndian.PutUintN). */
  function BigEndian(n: nat, k: nat): (s: seq<byte>)
    ensures |s| == k
  {
    if k == 0 then [] else BigEndian(n / 256, k - 1) + [LowByte(n)]
  }

  /** Only the low 64 bits matter to eight bytes. */
  lemma BigEndianTruncates(n: nat)
    ensures BigEndian(n % 0x1_0000_0000_0000_0000, 8) == BigEndian(n, 8)
  {
    Pow256Widths();
    BigEndianPeriodic(n % 0x1_0000_0000_0000_0000, n / 0x1_0000_0000_0000_0000, 8);
  }

  lemma {:induction false} BigEndianPeriodic(r: nat, t: nat, k: nat)
    ensures BigEndian(r + Pow256(k) * t, k) == BigEndian(r, k)
  {
    if k > 0 {
      var z := Pow256(k - 1) * t;
      assert Pow256(k) * t == 256 * z;
      assert (r + 256 * z) / 256 == r / 256 + z;
      BigEndianPeriodic(r / 256, t, k - 1);
    }
  }

  /** Reducing before adding changes nothing. */
  lemma SumTruncates(a: nat, b: nat)
    ensures (a % 0x1_0000_0000_0000_0000 + b) % 0x1_0000_0000_0000_0000 == (a + b) % 0x1_0000_0000_0000_0000
  {
  }

  /** n >> (8 * bytes). */
  function ShiftRight(n: nat, bytes: nat): nat
    decreases bytes
  {
    if bytes == 0 then n else ShiftRight(n / 256, bytes - 1)
  }

  lemma {:induction false} BigEndianAt(n: nat, k: nat, i: nat)
    requires i < k
    ensures BigEndian(n, k)[k - 1 - i] == LowByte(ShiftRight(n, i))
  {
    if i > 0 {
      BigEndianAt(n / 256, k - 1, i - 1);
    }
  }

  /** The number that a big-endian string of bytes spells (binary.BigEndian.UintN). */
  function Value(s: seq<byte>): (n: nat)
  {
    if s == [] then 0 else 256 * Value(s[..|s| - 1]) + s[|s| - 1]
  }

  lemma {:induction false} ValueOfBigEndian(n: nat, k: nat)
    requires n < Pow256(k)
    ensures Value(BigEndian(n, k)) == n
  {
    if k > 0 {
      ValueOfBigEndian(n / 256, k - 1);
      assert BigEndian(n, k)[..k - 1] == BigEndian(n / 256, k - 1);
    }
  }

  lemma {:induction false} BigEndianOfValue(s: seq<byte>)
    ensures Value(s) < Pow256(|s|)
    ensures BigEndian(Value(s), |s|) == s
  {
    if s != [] {
      var init, last := s[..|s| - 1], s[|s| - 1];
      BigEndianOfValue(init);
      assert Value(s) / 256 == Value(init) && Value(s) % 256 == last;
      assert s == init + [last];
    }
  }

  /** A number below 2^64 is determined by its eight bytes. */
  lemma BigEndianInjective(m: nat, n: nat)
    requires m < TWO_64 && n < TWO_64
    requires BigEndian(m, 8) == BigEndian(n, 8)
    ensures m == n
  {
    Pow256Widths();
    ValueOfBigEndian(m, 8);
    ValueOfBigEndian(n, 8);
  }

  // Bits.

  function Pow2(n: nat): nat
  {
    if n == 0 then 1 else 2 * Pow2(n - 1)
  }

  /** Exclusive or of the low bits. */
  function XorBits(a: nat, b: nat, bits: nat): (r: nat)
    ensures r < Pow2(bits)
  {
    if bits == 0 then 0 else (a % 2 + b % 2) % 2 + 2 * XorBits(a / 2, b / 2, bits - 1)
  }

  /** Inclusive or of the low bits. */
  function OrBits(a: nat, b: nat, bits: nat): (r: nat)
    ensures r < Pow2(bits)
  {
    if bits == 0 then 0 else (if a % 2 + b % 2 == 0 then 0 else 1) + 2 * OrBits(a / 2, b / 2, bits - 1)
  }

  lemma {:induction false} XorBitsZero(a: nat, b: nat, bits: nat)
    requires a < Pow2(bits) && b < Pow2(bits)
    ensures XorBits(a, b, bits) == 0 <==> a == b
  {
    if bits > 0 {
      XorBitsZero(a / 2, b / 2, bits - 1);
    }
  }

  lemma {:induction false} XorBitsNothing(a: nat, bits: nat)
    requires a < Pow2(bits)
    ensures XorBits(a, 0, bits) == a
  {
    if bits > 0 {
      XorBitsNothing(a / 2, bits - 1);
    }
  }

  lemma {:induction false} OrBitsZero(a: nat, b: nat, bits: nat)
    requires a < Pow2(bits) && b < Pow2(bits)
    ensures OrBits(a, b, bits) == 0 <==> a == 0 && b == 0
  {
    if bits > 0 {
      OrBitsZero(a / 2, b / 2, bits - 1);
    }
  }

  /** a << shift. */
  function ShiftLeft(a: nat, shift: nat): nat
  {
    if shift == 0 then a else 2 * ShiftLeft(a, shift - 1)
  }

  /** Strings of bits that do not overlap: or is addition. */
  lemma {:induction false} OrBitsDisjoint(a: nat, b: nat, shift: nat, bits: nat)
    requires shift <= bits && a < Pow2(bits - shift) && b < Pow2(shift)
    ensures OrBits(ShiftLeft(a, shift), b, bits) == ShiftLeft(a, shift) + b
  {
    if shift == 0 {
      OrBitsNothing(a, bits);
    } else {
      OrBitsStep(ShiftLeft(a, shift - 1), b, bits);
      hide OrBits;
      OrBitsDisjoint(a, b / 2, shift - 1, bits - 1);
    }
  }

  lemma OrBitsStep(z: nat, b: nat, bits: nat)
    requires bits > 0
    ensures OrBits(2 * z, b, bits) == b % 2 + 2 * OrBits(z, b / 2, bits - 1)
  {
    assert 2 * z / 2 == z && 2 * z % 2 == 0;
  }

  lemma ShiftLeftByte(a: nat, shift: nat)
    ensures ShiftLeft(a, shift + 8) == 0x100 * ShiftLeft(a, shift)
  {
    assert ShiftLeft(a, shift + 2) == 4 * ShiftLeft(a, shift);
    assert ShiftLeft(a, shift + 4) == 4 * ShiftLeft(a, shift + 2);
    assert ShiftLeft(a, shift + 6) == 4 * ShiftLeft(a, shift + 4);
  }

  lemma ShiftLeftWidths(a: nat)
    ensures ShiftLeft(a, 8) == 0x100 * a && ShiftLeft(a, 16) == 0x1_0000 * a && ShiftLeft(a, 24) == 0x100_0000 * a
  {
    ShiftLeftByte(a, 0);
    ShiftLeftByte(a, 8);
    ShiftLeftByte(a, 16);
  }

  lemma {:induction false} OrBitsNothing(a: nat, bits: nat)
    requires a < Pow2(bits)
    ensures OrBits(a, 0, bits) == a
  {
    if bits > 0 {
      OrBitsNothing(a / 2, bits - 1);
    }
  }

  lemma ByteIsEightBits()
    ensures Pow2(8) == 256
  {
    assert Pow2(8) == 16 * Pow2(4);
  }

  lemma Pow2Widths()
    ensures Pow2(16) == 0x1_0000 && Pow2(24) == 0x100_0000
  {
    ByteIsEightBits();
    assert Pow2(12) == 16 * Pow2(8) && Pow2(16) == 16 * Pow2(12);
    assert Pow2(20) == 16 * Pow2(16) && Pow2(24) == 16 * Pow2(20);
  }

  lemma Assoc(a: seq<byte>, b: seq<byte>, c: seq<byte>)
    ensures a + (b + c) == (a + b) + c
    ensures b == [] ==> a + b == a
  {
  }

  lemma Thirds(s: seq<byte>, i: nat, j: nat)
    requires i <= j <= |s|
    ensures s == s[..i] + s[i..j] + s[j..]
  {
  }

  lemma Halves(s: seq<byte>, i: nat)
    requires i <= |s|
    ensures s == s[..i] + s[i..]
  {
  }

  /** A part of a part. */
  lemma Slices(s: seq<byte>, a: nat, b: nat, i: nat, j: nat)
    requires i <= j <= b - a && b <= |s|
    ensures s[a..b][..i] == s[a..a + i] && s[a..b][i..j] == s[a + i..a + j] && s[a..b][j..] == s[a + j..b]
  {
    var t := s[a..b];
    forall k | 0 <= k < |t|
      ensures t[k] == s[a + k]
    {
    }
    assert t[..i] == s[a..a + i];
    assert t[i..j] == s[a + i..a + j];
    assert t[j..] == s[a + j..b];
  }

  /** All the parts, one after the other. */
  function Concat(parts: seq<seq<byte>>): (s: seq<byte>)
  {
    if parts == [] then [] else parts[0] + Concat(parts[1..])
  }

  lemma {:induction false} ConcatSnoc(parts: seq<seq<byte>>, last: seq<byte>)
    ensures Concat(parts + [last]) == Concat(parts) + last
  {
    if parts == [] {
      assert [last][1..] == [];
    } else {
      assert (parts + [last])[1..] == parts[1..] + [last];
      ConcatSnoc(parts[1..], last);
    }
  }
}
