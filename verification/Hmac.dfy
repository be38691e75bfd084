/** src/hmac.c: HMAC-SHA256 over the streaming context, tag comparison and the replay window. */
module Hmac {
  import opened Bytes
  import opened Sha256Spec
  import opened Sha256Stream

  function Xor(a: byte, b: byte): byte
  {
    ByteIsEightBits();
    XorBits(a, b, 8)
  }

  function Or(a: byte, b: byte): byte
  {
    ByteIsEightBits();
    OrBits(a, b, 8)
  }

  // Section 2 of RFC 2104, with H = SHA-256, B = 64 and L = 32.

  /** K: a key over B bytes is hashed first, then zeros make up B bytes. */
  function BlockKey(key: seq<byte>): (k: seq<byte>)
    ensures |k| == 64
  {
    var k := if |key| > 64 then Sha256(key) else key;
    k + Zeros(64 - |k|)
  }

  /** A key of up to 64 bytes is kept, a longer one is replaced by its hash; zeros follow. */
  lemma BlockKeyExact(key: seq<byte>, i: nat)
    requires i < 64
    ensures |key| <= 64 && i < |key| ==> BlockKey(key)[i] == key[i]
    ensures |key| > 64 && i < 32 ==> BlockKey(key)[i] == Sha256(key)[i]
    ensures i >= (if |key| <= 64 then |key| else 32) ==> BlockKey(key)[i] == 0
  {
    hide Sha256;
  }

  /** K XOR a string of B copies of one byte. */
  function XorAll(k: seq<byte>, x: byte): (s: seq<byte>)
    ensures |s| == |k|
  {
    seq(|k|, i requires 0 <= i < |k| => Xor(x, k[i]))
  }

  /** H(K XOR opad, H(K XOR ipad, text)). */
  function HmacSha256(key: seq<byte>, text: seq<byte>): (tag: seq<byte>)
    ensures |tag| == 32
  {
    var k := BlockKey(key);
    Sha256(XorAll(k, 0x5c) + Sha256(XorAll(k, 0x36) + text))
  }

  /** memset to `fill`, then xor in the key: k_ipad and k_opad. */
  method PadKey(key: array<byte>, keyLen: nat, fill: byte) returns (pad: array<byte>)
    requires keyLen <= key.Length && keyLen <= 64
    ensures fresh(pad) && pad.Length == 64
    ensures pad[..] == XorAll(key[..keyLen] + Zeros(64 - keyLen), fill)
  {
    hide XorBits;
    pad := new byte[64](_ => fill);
    var i := 0;
    while i < keyLen
      invariant 0 <= i <= keyLen
      invariant forall j :: 0 <= j < i ==> pad[j] == Xor(fill, key[j])
      invariant forall j :: i <= j < 64 ==> pad[j] == fill
    {
      pad[i] := Xor(pad[i], key[i]);
      i := i + 1;
    }
    ByteIsEightBits();
    XorBitsNothing(fill, 8);
    assert Xor(fill, 0) == fill;
  }

  /** Init, two updates and Final. Either input may be the output buffer. */
  method HashPair(ctx: Context, a: array<byte>, aLen: nat, b: array<byte>, bLen: nat, out: array<byte>)
    requires ctx.Allocated() && aLen <= a.Length && bLen <= b.Length && out.Length >= 32
    requires a != ctx.data && b != ctx.data && out != ctx.data
    modifies ctx, ctx.data, ctx.state, out
    ensures out[..32] == Sha256(old(a[..aLen]) + old(b[..bLen]))
    ensures out[32..] == old(out[32..])
  {
    hide Sha256, Holds;
    ctx.Init();
    ctx.Update(a, aLen);
    ctx.Update(b, bLen);
    assert ctx.absorbed == old(a[..aLen]) + old(b[..bLen]);
    ctx.Final(out);
  }

  /** hmac_sha256. The output buffer may be the key or the data; the last hash reads and writes it. */
  method Compute(key: array<byte>, keyLen: nat, data: array<byte>, dataLen: nat, out: array<byte>)
    requires keyLen <= key.Length && dataLen <= data.Length && out.Length >= 32
    modifies out
    ensures out[..32] == HmacSha256(old(key[..keyLen]), old(data[..dataLen]))
    ensures out[32..] == old(out[32..])
  {
    hide Sha256, XorAll, Zeros, Holds;
    var ctx := new Context();
    var k, kLen := key, keyLen;
    if keyLen > 64 {
      var keyHash := new byte[32];
      ctx.Init();
      ctx.Update(key, keyLen);
      assert ctx.absorbed == old(key[..keyLen]);
      ctx.Final(keyHash);
      k, kLen := keyHash, 32;
    }
    assert BlockKey(old(key[..keyLen])) == k[..kLen] + Zeros(64 - kLen);
    var ipad := PadKey(k, kLen, 0x36);
    var opad := PadKey(k, kLen, 0x5c);
    assert ipad[..64] == ipad[..] && opad[..64] == opad[..];
    HashPair(ctx, ipad, 64, data, dataLen, out);
    HashPair(ctx, opad, 64, out, 32, out);
  }

  /** hmac_verify: 1 exactly when the first 32 bytes agree. */
  method Verify(a: array<byte>, b: array<byte>) returns (r: int)
    requires a.Length >= 32 && b.Length >= 32
    ensures r == 0 || r == 1
    ensures r == 1 <==> a[..32] == b[..32]
  {
    hide XorBits, OrBits;
    var diff: byte := 0;
    var i := 0;
    while i < 32
      invariant 0 <= i <= 32
      invariant diff == 0 <==> a[..i] == b[..i]
    {
      ByteIsEightBits();
      XorBitsZero(a[i], b[i], 8);
      OrBitsZero(diff, Xor(a[i], b[i]), 8);
      assert a[..i + 1] == a[..i] + [a[i]] && b[..i + 1] == b[..i] + [b[i]];
      diff := Or(diff, Xor(a[i], b[i]));
      i := i + 1;
    }
    r := if diff == 0 then 1 else 0;
  }

  /** timestamp_verify on uint64_t: both the sum and the difference wrap. */
  function TimestampVerify(ts: nat, now: nat): bool
    requires ts < TWO_64 && now < TWO_64
  {
    if ts > (now + 60) % 0x1_0000_0000_0000_0000 then false
    else if (now - ts) % 0x1_0000_0000_0000_0000 > 300 then false
    else true
  }

  /** The computed window: 300 seconds back, nothing ahead, and nothing at all in the last minute of the
      64-bit clock, where now + 60 has wrapped. */
  lemma TimestampWindow(ts: nat, now: nat)
    requires ts < TWO_64 && now < TWO_64
    ensures TimestampVerify(ts, now) <==> now + 60 < TWO_64 && now - 300 <= ts <= now
  {
    if now < ts {
      assert (now - ts) % 0x1_0000_0000_0000_0000 == now - ts + 0x1_0000_0000_0000_0000;
    }
  }
}
