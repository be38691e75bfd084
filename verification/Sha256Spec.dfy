/** SHA-256 as FIPS 180-4 defines it, for messages that are a whole number of bytes. */
module Sha256Spec {
  import opened Bytes

  /** A 32-bit word. The logical functions convert to bit vectors and back. */
  type word = x: int | 0 <= x < 0x1_0000_0000

  /** Section 4.2.2: the 64 round constants, eight to a row. */
  function RoundConstant(t: nat): word
    requires t < 64
  {
    if t < 8 then Row0(t) else if t < 16 then Row1(t - 8)
    else if t < 24 then Row2(t - 16) else if t < 32 then Row3(t - 24)
    else if t < 40 then Row4(t - 32) else if t < 48 then Row5(t - 40)
    else if t < 56 then Row6(t - 48) else Row7(t - 56)
  }

  function Row0(i: nat): word
    requires i < 8
  {
    match i
    case 0 => 0x428a2f98 case 1 => 0x71374491 case 2 => 0xb5c0fbcf case 3 => 0xe9b5dba5
    case 4 => 0x3956c25b case 5 => 0x59f111f1 case 6 => 0x923f82a4 case _ => 0xab1c5ed5
  }

  function Row1(i: nat): word
    requires i < 8
  {
    match i
    case 0 => 0xd807aa98 case 1 => 0x12835b01 case 2 => 0x243185be case 3 => 0x550c7dc3
    case 4 => 0x72be5d74 case 5 => 0x80deb1fe case 6 => 0x9bdc06a7 case _ => 0xc19bf174
  }

  function Row2(i: nat): word
    requires i < 8
  {
    match i
    case 0 => 0xe49b69c1 case 1 => 0xefbe4786 case 2 => 0x0fc19dc6 case 3 => 0x240ca1cc
    case 4 => 0x2de92c6f case 5 => 0x4a7484aa case 6 => 0x5cb0a9dc case _ => 0x76f988da
  }

  function Row3(i: nat): word
    requires i < 8
  {
    match i
    case 0 => 0x983e5152 case 1 => 0xa831c66d case 2 => 0xb00327c8 case 3 => 0xbf597fc7
    case 4 => 0xc6e00bf3 case 5 => 0xd5a79147 case 6 => 0x06ca6351 case _ => 0x14292967
  }

  function Row4(i: nat): word
    requires i < 8
  {
    match i
    case 0 => 0x27b70a85 case 1 => 0x2e1b2138 case 2 => 0x4d2c6dfc case 3 => 0x53380d13
    case 4 => 0x650a7354 case 5 => 0x766a0abb case 6 => 0x81c2c92e case _ => 0x92722c85
  }

  function Row5(i: nat): word
    requires i < 8
  {
    match i
    case 0 => 0xa2bfe8a1 case 1 => 0xa81a664b case 2 => 0xc24b8b70 case 3 => 0xc76c51a3
    case 4 => 0xd192e819 case 5 => 0xd6990624 case 6 => 0xf40e3585 case _ => 0x106aa070
  }

  function Row6(i: nat): word
    requires i < 8
  {
    match i
    case 0 => 0x19a4c116 case 1 => 0x1e376c08 case 2 => 0x2748774c case 3 => 0x34b0bcb5
    case 4 => 0x391c0cb3 case 5 => 0x4ed8aa4a case 6 => 0x5b9cca4f case _ => 0x682e6ff3
  }

  function Row7(i: nat): word
    requires i < 8
  {
    match i
    case 0 => 0x748f82ee case 1 => 0x78a5636f case 2 => 0x84c87814 case 3 => 0x8cc70208
    case 4 => 0x90befffa case 5 => 0xa4506ceb case 6 => 0xbef9a3f7 case _ => 0xc67178f2
  }

  /** Section 5.3.3: the initial hash value. */
  const H0: seq<word> := [
    0x6a09e667, 0xbb67ae85, 0x3c6ef372, 0xa54ff53a, 0x510e527f, 0x9b05688c, 0x1f83d9ab, 0x5be0cd19
  ]

  // Section 4.1.2: the logical functions.

  /** Addition modulo 2^32. */
  function Plus(x: word, y: word): word
  {
    (x + y) % 0x1_0000_0000
  }

  function Rotr(x: bv32, n: nat): bv32
    requires 0 < n < 32
  {
    (x >> n) | (x << (32 - n))
  }

  function ChBits(x: bv32, y: bv32, z: bv32): bv32 { (x & y) ^ (!x & z) }
  function MajBits(x: bv32, y: bv32, z: bv32): bv32 { (x & y) ^ (x & z) ^ (y & z) }
  function BigSigma0Bits(x: bv32): bv32 { Rotr(x, 2) ^ Rotr(x, 13) ^ Rotr(x, 22) }
  function BigSigma1Bits(x: bv32): bv32 { Rotr(x, 6) ^ Rotr(x, 11) ^ Rotr(x, 25) }
  function SmallSigma0Bits(x: bv32): bv32 { Rotr(x, 7) ^ Rotr(x, 18) ^ (x >> 3) }
  function SmallSigma1Bits(x: bv32): bv32 { Rotr(x, 17) ^ Rotr(x, 19) ^ (x >> 10) }

  function Ch(x: word, y: word, z: word): word { ChBits(x as bv32, y as bv32, z as bv32) as int }
  function Maj(x: word, y: word, z: word): word { MajBits(x as bv32, y as bv32, z as bv32) as int }
  function BigSigma0(x: word): word { BigSigma0Bits(x as bv32) as int }
  function BigSigma1(x: word): word { BigSigma1Bits(x as bv32) as int }
  function SmallSigma0(x: word): word { SmallSigma0Bits(x as bv32) as int }
  function SmallSigma1(x: word): word { SmallSigma1Bits(x as bv32) as int }

  /** On every set of bits m: Ch takes the bits of y where x is 1 and those of z where x is 0. */
  lemma ChChooses(x: bv32, y: bv32, z: bv32, m: bv32)
    ensures x & m == m ==> ChBits(x, y, z) & m == y & m
    ensures x & m == 0 ==> ChBits(x, y, z) & m == z & m
  {
  }

  /** Maj is one where at least two of its arguments are. */
  lemma MajVotes(x: bv32, y: bv32, z: bv32)
    ensures MajBits(x, y, z) == (x & y) | (x & z) | (y & z)
  {
  }

  /** The shifts and ors are rotations. */
  lemma RotrRotates(x: bv32)
    ensures Rotr(x, 2) == x.RotateRight(2) && Rotr(x, 13) == x.RotateRight(13) && Rotr(x, 22) == x.RotateRight(22)
    ensures Rotr(x, 6) == x.RotateRight(6) && Rotr(x, 11) == x.RotateRight(11) && Rotr(x, 25) == x.RotateRight(25)
    ensures Rotr(x, 7) == x.RotateRight(7) && Rotr(x, 18) == x.RotateRight(18)
    ensures Rotr(x, 17) == x.RotateRight(17) && Rotr(x, 19) == x.RotateRight(19)
  {
  }

  /** A single bit goes where the standard sends it. */
  lemma SigmasOfOne()
    ensures BigSigma0(1) == 0x4008_0400 && BigSigma1(1) == 0x0420_0080
    ensures SmallSigma0(1) == 0x0200_4000 && SmallSigma1(1) == 0x0000_a000
    ensures SmallSigma0(0x8000_0000) == 0x1100_2000 && SmallSigma1(0x8000_0000) == 0x0020_5000
  {
  }

  /** Section 5.1.1: how many zero bytes follow the byte 0x80. */
  function PadZeros(len: nat): nat
  {
    (119 - len % 64) % 64
  }

  /** It is the least k >= 0 with len + 1 + k congruent to 56 modulo 64, and it fills the last block. */
  lemma PadZerosLeast(len: nat, j: nat)
    requires (len + 1 + j) % 64 == 56
    ensures PadZeros(len) <= j
    ensures (len + 1 + PadZeros(len)) % 64 == 56
  {
    var q, r := len / 64, len % 64;
    assert PadZeros(len) == if r <= 55 then 55 - r else 119 - r;
    assert len + 1 + PadZeros(len) == 64 * (if r <= 55 then q else q + 1) + 56;
    assert (64 * q + (r + 1 + j)) % 64 == (r + 1 + j) % 64;
  }

  /** Zeros(n) is a run of n zero bytes. */
  function Zeros(n: nat): (s: seq<byte>)
    ensures |s| == n && forall i :: 0 <= i < n ==> s[i] == 0
  {
    seq(n, _ => 0)
  }

  /** Section 5.1.1: a one bit, zeros, and the length in bits in 64 bits. */
  function PadTail(len: nat): seq<byte>
  {
    [0x80] + Zeros(PadZeros(len)) + BigEndian(len * 8, 8)
  }

  /** Section 5.1.1: the padded message. Of a length of 2^64 bits or more, which the section rules out, the
      low 64 bits are kept. */
  function Pad(m: seq<byte>): seq<byte>
  {
    m + PadTail(|m|)
  }

  /** What padding looks like: the message, a one bit, zeros, and its length in bits in the last eight bytes of a
      whole number of blocks. */
  lemma PadShape(m: seq<byte>, i: nat)
    requires |m| * 8 < TWO_64
    ensures var p := Pad(m);
            && |p| % 64 == 0 && |p| >= |m| + 9 && m <= p && p[|m|] == 0x80
            && (|m| < i < |p| - 8 ==> p[i] == 0)
            && Value(p[|p| - 8..]) == 8 * |m|
  {
    hide BigEndian, Value;
    var p := Pad(m);
    PadZerosLeast(|m|, 64 * 64 + 55 - |m| % 64);
    assert |p| == |m| + 1 + PadZeros(|m|) + 8;
    assert p[|p| - 8..] == BigEndian(|m| * 8, 8);
    Pow256Widths();
    ValueOfBigEndian(|m| * 8, 8);
  }

  /** Two messages with the same padding are the same message. */
  lemma PadInjective(a: seq<byte>, b: seq<byte>)
    requires |a| * 8 < TWO_64 && |b| * 8 < TWO_64
    requires Pad(a) == Pad(b)
    ensures a == b
  {
    var p := Pad(a);
    assert BigEndian(|a| * 8, 8) == p[|p| - 8..] == BigEndian(|b| * 8, 8);
    BigEndianInjective(|a| * 8, |b| * 8);
    assert a == p[..|a|] && b == p[..|b|];
  }

  /** Four bytes as a word, most significant first. */
  function Pack(b0: byte, b1: byte, b2: byte, b3: byte): word
  {
    b0 * 0x100_0000 + b1 * 0x1_0000 + b2 * 0x100 + b3
  }

  /** It is the number that the four bytes spell. */
  lemma PackSpells(b0: byte, b1: byte, b2: byte, b3: byte)
    ensures Pack(b0, b1, b2, b3) == Value([b0, b1, b2, b3])
  {
    var s := [b0, b1, b2, b3];
    assert s[..3] == [b0, b1, b2] && s[..3][..2] == [b0, b1] && s[..3][..2][..1] == [b0];
    assert Value([b0, b1, b2]) == 256 * Value([b0, b1]) + b2;
    assert Value([b0, b1]) == 256 * Value([b0]) + b1;
    assert Value([b0]) == b0;
  }

  /** Section 5.2.1: word t of a 64-byte block, most significant byte first. */
  function BlockWord(b: seq<byte>, t: nat): word
    requires |b| == 64 && t < 16
  {
    Pack(b[4 * t], b[4 * t + 1], b[4 * t + 2], b[4 * t + 3])
  }

  /** The recurrence of the message schedule, on the words 2, 7, 15 and 16 places back. */
  function Extend(w2: word, w7: word, w15: word, w16: word): word
  {
    Plus(Plus(Plus(SmallSigma1(w2), w7), SmallSigma0(w15)), w16)
  }

  /** Section 6.2.2 step 1: the message schedule. */
  function Schedule(b: seq<byte>, t: nat): word
    requires |b| == 64 && t < 64
  {
    if t < 16 then BlockWord(b, t)
    else Extend(Schedule(b, t - 2), Schedule(b, t - 7), Schedule(b, t - 15), Schedule(b, t - 16))
  }

  /** Section 6.2.2 step 2: the eight working variables. */
  datatype Vars = Vars(a: word, b: word, c: word, d: word, e: word, f: word, g: word, h: word) {
    function At(i: nat): word
      requires i < 8
    {
      match i
      case 0 => a case 1 => b case 2 => c case 3 => d
      case 4 => e case 5 => f case 6 => g case 7 => h
    }
  }

  function Temp1(e: word, f: word, g: word, h: word, k: word, w: word): word
  {
    Plus(Plus(Plus(Plus(h, BigSigma1(e)), Ch(e, f, g)), k), w)
  }

  function Temp2(a: word, b: word, c: word): word
  {
    Plus(BigSigma0(a), Maj(a, b, c))
  }

  function Round(v: Vars, k: word, w: word): Vars
  {
    var t1 := Temp1(v.e, v.f, v.g, v.h, k, w);
    var t2 := Temp2(v.a, v.b, v.c);
    Vars(Plus(t1, t2), v.a, v.b, v.c, Plus(v.d, t1), v.e, v.f, v.g)
  }

  /** Section 6.2.2 step 3: the first t rounds. */
  function Rounds(v: Vars, b: seq<byte>, t: nat): Vars
    requires |b| == 64 && t <= 64
  {
    if t == 0 then v else Round(Rounds(v, b, t - 1), RoundConstant(t - 1), Schedule(b, t - 1))
  }

  /** Section 6.2.2 step 4: the new intermediate hash value. */
  function Sum(h: seq<word>, v: Vars): (r: seq<word>)
    requires |h| == 8
    ensures |r| == 8
  {
    seq(8, i requires 0 <= i < 8 => Plus(h[i], v.At(i)))
  }

  /** Section 6.2.2: one block. */
  function Compress(h: seq<word>, b: seq<byte>): (r: seq<word>)
    requires |h| == 8 && |b| == 64
    ensures |r| == 8
  {
    Sum(h, Rounds(Vars(h[0], h[1], h[2], h[3], h[4], h[5], h[6], h[7]), b, 64))
  }

  /** Section 6.2.2: the blocks in order. */
  function HashBlocks(h: seq<word>, s: seq<byte>): (r: seq<word>)
    requires |h| == 8
    ensures |r| == 8
    decreases |s|
  {
    if |s| < 64 then h else HashBlocks(Compress(h, s[..64]), s[64..])
  }

  /** Hashing whole blocks and then more is hashing them together. */
  lemma {:induction false} HashBlocksAppend(h: seq<word>, s: seq<byte>, t: seq<byte>)
    requires |h| == 8 && |s| % 64 == 0
    ensures HashBlocks(h, s + t) == HashBlocks(HashBlocks(h, s), t)
    decreases |s|
  {
    hide Compress;
    if s == [] {
      assert s + t == t;
    } else {
      assert (s + t)[..64] == s[..64] && (s + t)[64..] == s[64..] + t;
      HashBlocksAppend(Compress(h, s[..64]), s[64..], t);
    }
  }

  lemma HashBlocksOne(h: seq<word>, b: seq<byte>)
    requires |h| == 8 && |b| == 64
    ensures HashBlocks(h, b) == Compress(h, b)
  {
    hide Compress;
    assert b[..64] == b;
  }

  /** The digest, as bytes: each word most significant byte first. */
  function Digest(h: seq<word>): (d: seq<byte>)
    requires |h| == 8
    ensures |d| == 32
  {
    seq(32, j requires 0 <= j < 32 => BigEndian(h[j / 4], 4)[j % 4])
  }

  /** Read back four bytes at a time, the digest is the eight words. */
  lemma DigestSpellsWords(h: seq<word>, i: nat)
    requires |h| == 8 && i < 8
    ensures Value(Digest(h)[4 * i..4 * i + 4]) == h[i]
  {
    hide Value;
    assert Digest(h)[4 * i..4 * i + 4] == BigEndian(h[i], 4);
    Pow256Widths();
    ValueOfBigEndian(h[i], 4);
  }

  /** Section 6.2. */
  function Sha256(m: seq<byte>): (d: seq<byte>)
    ensures |d| == 32
  {
    Digest(HashBlocks(H0, Pad(m)))
  }
}
