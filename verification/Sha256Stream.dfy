/** The streaming context of src/sha256.c, proved to compute the one-shot SHA-256. */
module Sha256Stream {
  import opened Bytes
  import opened Sha256Spec

  /** What the fields of a context hold once the bytes of m have been absorbed. */
  ghost predicate Holds(m: seq<byte>, datalen: nat, bitlen: nat, data: seq<byte>, state: seq<word>)
    requires |data| == 64
  {
    && datalen == |m| % 64
    && bitlen == 8 * (|m| - datalen) % 0x1_0000_0000_0000_0000
    && data[..datalen] == m[|m| - datalen..]
    && state == HashBlocks(H0, m[..|m| - datalen])
  }

  lemma HoldsBuffered(m: seq<byte>, x: byte, datalen: nat, bitlen: nat, data: seq<byte>, state: seq<word>)
    requires |data| == 64 && Holds(m, datalen, bitlen, data, state) && datalen < 63
    ensures Holds(m + [x], datalen + 1, bitlen, data[datalen := x], state)
  {
    hide HashBlocks;
    Appends(m, x, data, datalen);
    NextRemainder(|m|);
    assert |m + [x]| - (datalen + 1) == |m| - datalen;
  }

  lemma NextRemainder(n: nat)
    requires n % 64 < 63
    ensures (n + 1) % 64 == n % 64 + 1
  {
  }

  lemma Appends(m: seq<byte>, x: byte, data: seq<byte>, n: nat)
    requires n < |data| && n <= |m| && data[..n] == m[|m| - n..]
    ensures (m + [x])[..|m| - n] == m[..|m| - n]
    ensures data[n := x][..n + 1] == (m + [x])[|m| - n..]
  {
    assert data[n := x][..n + 1] == data[..n] + [x];
  }

  lemma HoldsTransformed(m: seq<byte>, x: byte, bitlen: nat, data: seq<byte>, state: seq<word>)
    requires |data| == 64 && Holds(m, 63, bitlen, data, state)
    ensures Holds(m + [x], 0, (bitlen + 512) % 0x1_0000_0000_0000_0000, data[63 := x], Compress(state, data[63 := x]))
  {
    hide HashBlocks, Compress;
    var hashed, block := m[..|m| - 63], data[63 := x];
    Completes(m, x, data);
    HashBlocksSnoc(hashed, block);
    SumTruncates(8 * (|m| - 63), 512);
  }

  lemma Completes(m: seq<byte>, x: byte, data: seq<byte>)
    requires |data| == 64 && |m| >= 63 && data[..63] == m[|m| - 63..]
    ensures m + [x] == m[..|m| - 63] + data[63 := x] && (m + [x])[..|m| + 1] == m + [x]
  {
    assert data[63 := x] == data[..63] + [x];
  }

  /** One more block. */
  lemma HashBlocksSnoc(hashed: seq<byte>, block: seq<byte>)
    requires |hashed| % 64 == 0 && |block| == 64
    ensures HashBlocks(H0, hashed + block) == Compress(HashBlocks(H0, hashed), block)
  {
    hide Compress, HashBlocks;
    HashBlocksAppend(H0, hashed, block);
    HashBlocksOne(HashBlocks(H0, hashed), block);
  }

  /** With fewer than 56 bytes buffered the padding completes one block. */
  lemma PadOneBlock(m: seq<byte>, n: nat)
    requires n == |m| % 64 && n < 56
    ensures Pad(m) == m[..|m| - n] + (m[|m| - n..] + [0x80] + Zeros(55 - n) + BigEndian(|m| * 8, 8))
  {
    hide *;
    PadTailOneBlock(|m|, n);
    PadSplit(m, n, Zeros(55 - n), BigEndian(|m| * 8, 8));
  }

  /** Otherwise it takes two. */
  lemma PadTwoBlocks(m: seq<byte>, n: nat)
    requires n == |m| % 64 && n >= 56
    ensures Pad(m) == (m[..|m| - n] + (m[|m| - n..] + [0x80] + Zeros(63 - n))) + (Zeros(56) + BigEndian(|m| * 8, 8))
  {
    hide *;
    PadTailTwoBlocks(|m|, n);
    PadSplit(m, n, Zeros(63 - n), Zeros(56) + BigEndian(|m| * 8, 8));
  }

  lemma PadSplit(m: seq<byte>, n: nat, z: seq<byte>, b: seq<byte>)
    requires n <= |m|
    requires PadTail(|m|) == [0x80] + z + b
    ensures Pad(m) == m[..|m| - n] + (m[|m| - n..] + [0x80] + z + b)
    ensures Pad(m) == (m[..|m| - n] + (m[|m| - n..] + [0x80] + z)) + b
  {
    assert m == m[..|m| - n] + m[|m| - n..];
  }

  lemma PadTailOneBlock(len: nat, n: nat)
    requires n == len % 64 && n < 56
    ensures PadTail(len) == [0x80] + Zeros(55 - n) + BigEndian(len * 8, 8)
  {
    hide BigEndian, Zeros;
    assert PadZeros(len) == 55 - n;
  }

  lemma PadTailTwoBlocks(len: nat, n: nat)
    requires n == len % 64 && n >= 56
    ensures PadTail(len) == [0x80] + Zeros(63 - n) + (Zeros(56) + BigEndian(len * 8, 8))
  {
    hide BigEndian;
    assert PadZeros(len) == 119 - n;
    assert Zeros(119 - n) == Zeros(63 - n) + Zeros(56);
  }

  /** The last eight bytes of the last block: the low bytes of bitlen, most significant first. */
  method PutLength(data: array<byte>, bitlen: nat)
    requires data.Length == 64
    modifies data
    ensures data[..56] == old(data[..56])
    ensures data[56..] == BigEndian(bitlen, 8)
  {
    hide BigEndian, LowByte, ShiftRight;
    data[63] := LowByte(ShiftRight(bitlen, 0));
    data[62] := LowByte(ShiftRight(bitlen, 1));
    data[61] := LowByte(ShiftRight(bitlen, 2));
    data[60] := LowByte(ShiftRight(bitlen, 3));
    data[59] := LowByte(ShiftRight(bitlen, 4));
    data[58] := LowByte(ShiftRight(bitlen, 5));
    data[57] := LowByte(ShiftRight(bitlen, 6));
    data[56] := LowByte(ShiftRight(bitlen, 7));
    forall j | 0 <= j < 8
      ensures data[56..][j] == BigEndian(bitlen, 8)[j]
    {
      BigEndianAt(bitlen, 8, 7 - j);
    }
  }

  /** The word that sha256_transform builds of four bytes: shifted into place and or-ed together. */
  function ShiftOr(b0: byte, b1: byte, b2: byte, b3: byte): nat
  {
    OrBits(OrBits(OrBits(ShiftLeft(b0, 24), ShiftLeft(b1, 16), 32), ShiftLeft(b2, 8), 32), b3, 32)
  }

  lemma ShiftOrIsPack(b0: byte, b1: byte, b2: byte, b3: byte)
    ensures ShiftOr(b0, b1, b2, b3) == Pack(b0, b1, b2, b3)
  {
    ByteIsEightBits();
    Pow2Widths();
    hide OrBits, Pow2, ShiftLeft;
    var high, top := b0 * 0x100 + b1, b0 * 0x1_0000 + b1 * 0x100 + b2;
    ShiftLeftWidths(b0);
    ShiftLeftWidths(b1);
    ShiftLeftWidths(b2);
    ShiftLeftWidths(high);
    ShiftLeftWidths(top);
    OrBitsDisjoint(b0, b1 * 0x1_0000, 24, 32);
    OrBitsDisjoint(high, b2 * 0x100, 16, 32);
    OrBitsDisjoint(top, b3, 8, 32);
  }

  /** The message schedule of one block, and the rounds over it, as sha256_transform runs them. */
  method Expand(block: array<byte>) returns (m: array<word>)
    requires block.Length == 64
    ensures fresh(m) && m.Length == 64
    ensures forall t :: 0 <= t < 64 ==> m[t] == Schedule(block[..], t)
  {
    hide Pack, ShiftOr, Extend;
    m := new word[64];
    var i, j := 0, 0;
    while i < 16
      invariant 0 <= i <= 16 && j == 4 * i
      invariant forall t :: 0 <= t < i ==> m[t] == Schedule(block[..], t)
    {
      ShiftOrIsPack(block[j], block[j + 1], block[j + 2], block[j + 3]);
      m[i] := ShiftOr(block[j], block[j + 1], block[j + 2], block[j + 3]);
      i, j := i + 1, j + 4;
    }
    while i < 64
      invariant 16 <= i <= 64
      invariant forall t :: 0 <= t < i ==> m[t] == Schedule(block[..], t)
    {
      m[i] := Extend(m[i - 2], m[i - 7], m[i - 15], m[i - 16]);
      i := i + 1;
    }
  }

  method RunRounds(v: Vars, m: array<word>, ghost block: seq<byte>) returns (r: Vars)
    requires |block| == 64 && m.Length == 64
    requires forall t :: 0 <= t < 64 ==> m[t] == Schedule(block, t)
    ensures r == Rounds(v, block, 64)
  {
    hide Schedule, Temp1, Temp2, Plus, RoundConstant;
    var a, b, c, d, e, f, g, h := v.a, v.b, v.c, v.d, v.e, v.f, v.g, v.h;
    var i := 0;
    while i < 64
      invariant 0 <= i <= 64
      invariant Vars(a, b, c, d, e, f, g, h) == Rounds(v, block, i)
    {
      var t1 := Temp1(e, f, g, h, RoundConstant(i), m[i]);
      var t2 := Temp2(a, b, c);
      h, g, f, e := g, f, e, Plus(d, t1);
      d, c, b, a := c, b, a, Plus(t1, t2);
      i := i + 1;
    }
    r := Vars(a, b, c, d, e, f, g, h);
  }

  method AddWords(state: array<word>, v: Vars)
    requires state.Length == 8
    modifies state
    ensures state[0] == Plus(old(state[0]), v.a) && state[1] == Plus(old(state[1]), v.b)
    ensures state[2] == Plus(old(state[2]), v.c) && state[3] == Plus(old(state[3]), v.d)
    ensures state[4] == Plus(old(state[4]), v.e) && state[5] == Plus(old(state[5]), v.f)
    ensures state[6] == Plus(old(state[6]), v.g) && state[7] == Plus(old(state[7]), v.h)
  {
    hide Plus;
    state[0] := Plus(state[0], v.a);
    state[1] := Plus(state[1], v.b);
    state[2] := Plus(state[2], v.c);
    state[3] := Plus(state[3], v.d);
    state[4] := Plus(state[4], v.e);
    state[5] := Plus(state[5], v.f);
    state[6] := Plus(state[6], v.g);
    state[7] := Plus(state[7], v.h);
  }

  /** Byte i of a word, shifted down as sha256_final does. */
  function ColumnByte(w: word, i: nat): byte
    requires i < 4
  {
    LowByte(ShiftRight(w, 3 - i))
  }

  lemma ColumnsAreDigest(d: seq<byte>, h: seq<word>)
    requires |d| == 32 && |h| == 8 && forall j :: 0 <= j < 32 ==> d[j] == ColumnByte(h[j / 4], j % 4)
    ensures d == Digest(h)
    ensures forall i :: 0 <= i < 8 ==> Value(d[4 * i..4 * i + 4]) == h[i]
  {
    hide BigEndian, LowByte, ShiftRight, Value;
    forall j | 0 <= j < 32
      ensures d[j] == Digest(h)[j]
    {
      BigEndianAt(h[j / 4], 4, 3 - j % 4);
    }
    assert d == Digest(h);
    forall i | 0 <= i < 8
      ensures Value(d[4 * i..4 * i + 4]) == h[i]
    {
      DigestSpellsWords(h, i);
    }
  }

  class Context {
    const data: array<byte>
    var datalen: nat
    var bitlen: nat  // uint64_t: kept below 2^64
    const state: array<word>

    /** Everything passed to Update since Init. */
    ghost var absorbed: seq<byte>

    ghost predicate Allocated()
    {
      data.Length == 64 && state.Length == 8
    }

    ghost predicate Valid()
      reads this, data, state
    {
      Allocated() && Holds(absorbed, datalen, bitlen, data[..], state[..])
    }

    constructor ()
      ensures Allocated() && fresh(data) && fresh(state)
    {
      data := new byte[64];
      state := new word[8];
    }

    method Init()
      requires Allocated()
      modifies this, state
      ensures Valid() && absorbed == []
    {
      hide Compress;
      datalen, bitlen := 0, 0;
      state[0], state[1], state[2], state[3] := 0x6a09e667, 0xbb67ae85, 0x3c6ef372, 0xa54ff53a;
      state[4], state[5], state[6], state[7] := 0x510e527f, 0x9b05688c, 0x1f83d9ab, 0x5be0cd19;
      absorbed := [];
      assert state[..] == H0;
    }

    method Transform(block: array<byte>)
      requires Allocated() && block.Length == 64
      modifies state
      ensures state[..] == Compress(old(state[..]), old(block[..]))
    {
      hide Rounds, Schedule, Plus;
      var m := Expand(block);
      var v := Vars(state[0], state[1], state[2], state[3], state[4], state[5], state[6], state[7]);
      v := RunRounds(v, m, block[..]);
      AddWords(state, v);
      assert state[..] == Sum(old(state[..]), v);
    }

    method Update(input: array<byte>, len: nat)
      requires Valid() && len <= input.Length && input != data
      modifies this, data, state
      ensures Valid() && absorbed == old(absorbed) + input[..len]
    {
      hide Holds;
      var i := 0;
      while i < len
        invariant 0 <= i <= len
        invariant Valid() && absorbed == old(absorbed) + input[..i]
      {
        Absorb(input[i]);
        i := i + 1;
      }
    }

    /** One iteration of sha256_update: buffer a byte, and hash the block it completes. */
    method Absorb(x: byte)
      requires Valid()
      modifies this, data, state
      ensures Valid() && absorbed == old(absorbed) + [x]
    {
      hide HashBlocks, Compress;
      ghost var before := data[..];
      if datalen < 63 {
        HoldsBuffered(absorbed, x, datalen, bitlen, before, state[..]);
      } else {
        HoldsTransformed(absorbed, x, bitlen, before, state[..]);
      }
      data[datalen] := x;
      assert data[..] == before[datalen := x];
      absorbed := absorbed + [x];
      datalen := datalen + 1;
      if datalen == 64 {
        Transform(data);
        bitlen := (bitlen + 512) % 0x1_0000_0000_0000_0000;
        datalen := 0;
      }
    }

    /** Byte i of each of the eight words: one iteration of the loop at the end of sha256_final. */
    method PutColumn(hash: array<byte>, i: nat)
      requires Allocated() && hash.Length >= 32 && i < 4
      modifies hash
      ensures forall j :: 0 <= j < 32 && j % 4 == i ==> hash[j] == ColumnByte(state[j / 4], i)
      ensures forall j :: 0 <= j < hash.Length && (j < 32 ==> j % 4 != i) ==> hash[j] == old(hash[j])
    {
      hide ColumnByte;
      hash[i] := ColumnByte(state[0], i);
      hash[i + 4] := ColumnByte(state[1], i);
      hash[i + 8] := ColumnByte(state[2], i);
      hash[i + 12] := ColumnByte(state[3], i);
      hash[i + 16] := ColumnByte(state[4], i);
      hash[i + 20] := ColumnByte(state[5], i);
      hash[i + 24] := ColumnByte(state[6], i);
      hash[i + 28] := ColumnByte(state[7], i);
    }

    method PutDigest(hash: array<byte>)
      requires Allocated() && hash.Length >= 32
      modifies hash
      ensures hash[..32] == Digest(state[..])
      ensures forall i :: 0 <= i < 8 ==> Value(hash[4 * i..4 * i + 4]) == state[i]
      ensures hash[32..] == old(hash[32..])
    {
      hide BigEndian, Value, ColumnByte;
      var i := 0;
      while i < 4
        invariant 0 <= i <= 4
        invariant forall j :: 0 <= j < 32 && j % 4 < i ==> hash[j] == ColumnByte(state[j / 4], j % 4)
        invariant hash[32..] == old(hash[32..])
      {
        PutColumn(hash, i);
        i := i + 1;
      }
      ColumnsAreDigest(hash[..32], state[..]);
      assert forall k :: 0 <= k < 8 ==> hash[4 * k..4 * k + 4] == hash[..32][4 * k..4 * k + 4];
    }

    /** 0x80 after the buffered bytes, then zeros up to `end`: the loops at the top of sha256_final. */
    method PadBuffer(end: nat)
      requires Allocated() && datalen < end <= 64
      modifies data
      ensures data[..end] == old(data[..datalen]) + [0x80] + Zeros(end - 1 - datalen)
    {
      var i := datalen;
      data[i] := 0x80;
      i := i + 1;
      while i < end
        invariant datalen < i <= end
        invariant data[..i] == old(data[..datalen]) + [0x80] + Zeros(i - 1 - datalen)
      {
        data[i] := 0x00;
        i := i + 1;
      }
    }

    /** Both branches of sha256_final: afterwards only the length is missing from the last block. */
    method PadBranches() returns (ghost hashed: seq<byte>)
      requires Valid()
      modifies data, state
      ensures |hashed| % 64 == 0 && state[..] == HashBlocks(H0, hashed)
      ensures hashed + (data[..56] + BigEndian(|absorbed| * 8, 8)) == Pad(absorbed)
    {
      hide HashBlocks, Compress, BigEndian, Zeros, Pad;
      ghost var n := datalen;
      hashed := absorbed[..|absorbed| - n];
      if datalen < 56 {
        PadOneBlock(absorbed, n);
        PadBuffer(56);
      } else {
        PadTwoBlocks(absorbed, n);
        PadBuffer(64);
        HashBlocksSnoc(hashed, data[..]);
        hashed := hashed + data[..];
        assert data[..] == data[..64];
        Transform(data);
        forall i | 0 <= i < 56 {
          data[i] := 0;
        }
        assert data[..56] == Zeros(56);
      }
    }

    /** The length into the last block, and the last block into the state. */
    method HashLast(ghost m: seq<byte>, ghost hashed: seq<byte>)
      requires Allocated() && datalen == |m| % 64
      requires bitlen == 8 * (|m| - datalen) % 0x1_0000_0000_0000_0000
      requires |hashed| % 64 == 0 && state[..] == HashBlocks(H0, hashed)
      requires hashed + (data[..56] + BigEndian(|m| * 8, 8)) == Pad(m)
      modifies this, data, state
      ensures state[..] == HashBlocks(H0, Pad(m))
    {
      hide HashBlocks, Compress, BigEndian, Pad;
      SumTruncates(8 * (|m| - datalen), datalen * 8);
      bitlen := (bitlen + datalen * 8) % 0x1_0000_0000_0000_0000;
      assert bitlen == |m| * 8 % 0x1_0000_0000_0000_0000;
      BigEndianTruncates(|m| * 8);
      PutLength(data, bitlen);
      assert data[..] == data[..56] + data[56..];
      HashBlocksSnoc(hashed, data[..]);
      Transform(data);
    }

    /** The digest of everything absorbed. The context must be initialised again before further use. */
    method Final(hash: array<byte>)
      requires Valid()
      requires hash.Length >= 32 && hash != data
      modifies this, data, state, hash
      ensures Allocated()
      ensures hash[..32] == Sha256(old(absorbed))
      ensures hash[32..] == old(hash[32..])
    {
      hide HashBlocks, Compress, Digest, BigEndian, Pad;
      ghost var m := absorbed;
      ghost var hashed := PadBranches();
      HashLast(m, hashed);
      PutDigest(hash);
    }
  }

  ghost function Contents(chunks: seq<array<byte>>): (s: seq<seq<byte>>)
    reads chunks
    ensures |s| == |chunks|
  {
    seq(|chunks|, i requires 0 <= i < |chunks| reads chunks => chunks[i][..])
  }

  /** Init, one Update per chunk, Final: the digest of the whole message however it was cut. */
  method HashChunks(chunks: seq<array<byte>>) returns (digest: seq<byte>)
    ensures digest == Sha256(Concat(Contents(chunks)))
  {
    hide Sha256, Holds;
    var ctx := new Context();
    var hash := new byte[32];
    ctx.Init();
    ghost var parts := Contents(chunks);
    for i := 0 to |chunks|
      invariant ctx.Valid() && ctx.absorbed == Concat(parts[..i])
      invariant fresh(ctx) && fresh(ctx.data) && fresh(ctx.state)
      invariant Contents(chunks) == parts
    {
      ctx.Update(chunks[i], chunks[i].Length);
      assert parts[..i + 1] == parts[..i] + [parts[i]];
      ConcatSnoc(parts[..i], parts[i]);
    }
    assert parts[..|parts|] == parts;
    ctx.Final(hash);
    digest := hash[..];
  }
}
