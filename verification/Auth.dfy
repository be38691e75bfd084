/** pkg/auth/auth.go: signed packets, and signed frames with a length prefix for streams. */
module Auth {
  import opened Bytes
  import opened Stream
  import opened Options
  import Hmac

  /** The keyed hash of one token. Only the length of its result is ever used. */
  type Mac = f: seq<byte> -> seq<byte> | forall m :: |f(m)| == 32
    ghost witness m => Hmac.HmacSha256([], m)

  const MAX_FRAME: nat := 16 * 1024 * 1024

  /** Sign: [signature][timestamp][data]. */
  function Signed(mac: Mac, ts: nat, data: seq<byte>): (s: seq<byte>)
    ensures |s| == 40 + |data|
  {
    mac(BigEndian(ts, 8) + data) + BigEndian(ts, 8) + data
  }

  /** SignFramed: [length as uint32][signature][timestamp][data]. */
  function Frame(mac: Mac, ts: nat, data: seq<byte>): (f: seq<byte>)
    ensures |f| == 44 + |data|
  {
    BigEndian(|data|, 4) + Signed(mac, ts, data)
  }

  /** The timestamp test, in uint64 arithmetic: both bounds wrap. */
  predicate InWindow(now: nat, ts: nat)
  {
    !(ts > (now + 300) % 0x1_0000_0000_0000_0000 || ts < (now - 300) % 0x1_0000_0000_0000_0000)
  }

  /** Verify. */
  function Verify(mac: Mac, now: nat, s: seq<byte>): Option<seq<byte>>
  {
    if |s| < 40 then None
    else
      var sig, ts, data := s[..32], s[32..40], s[40..];
      if !InWindow(now, Value(ts)) then None
      else if sig != mac(ts + data) then None
      else Some(data)
  }

  /** VerifyFramed. */
  function VerifyFramed(mac: Mac, now: nat, f: seq<byte>): Option<seq<byte>>
  {
    if |f| < 44 then None
    else
      var len := Value(f[..4]);
      if len > |f| - 44 then None
      else
        var sig, ts, data := f[4..36], f[36..44], f[44..44 + len];
        if !InWindow(now, Value(ts)) then None
        else if sig != mac(ts + data) then None
        else Some(data)
  }

  /** ReadFramed over the bytes still to come. */
  function ReadFramed(mac: Mac, now: nat, s: seq<byte>): Outcome<seq<byte>>
  {
    match ReadFull(s, 44)
    case Failed(e, rest) => Failed(e, rest)
    case Done(header, rest) =>
      var len := Value(header[..4]);
      if len > MAX_FRAME then Failed(UnexpectedEOF, rest)
      else
        match ReadFull(rest, len)
        case Failed(e, rest') => Failed(e, rest')
        case Done(data, rest') =>
          match VerifyFramed(mac, now, header + data)
          case None => Failed(UnexpectedEOF, rest')
          case Some(payload) => Done(payload, rest')
  }

  // The timestamp window.

  /** A packet stamped ts passes at clock now exactly when they are within 300 seconds, provided the clock is
      at least 300 and at least 300 short of the end: outside that range one bound has wrapped and nothing
      passes. */
  lemma WindowExact(now: nat, ts: nat)
    requires now < TWO_64 && ts < TWO_64
    ensures InWindow(now, ts) <==> 300 <= now < TWO_64 - 300 && now - 300 <= ts <= now + 300
  {
    if now < 300 {
      assert (now - 300) % 0x1_0000_0000_0000_0000 == now - 300 + 0x1_0000_0000_0000_0000;
    }
  }

  /** The symmetric window does not hold at every clock: a packet stamped and read at clock 0 is refused. */
  lemma WindowWrapsAtZero()
    ensures !InWindow(0, 0)
  {
    WindowExact(0, 0);
  }

  /** The Go window contains the window of the C engine exactly where it has not wrapped, and in the last
      minute of the clock, where the C window is empty. */
  lemma WindowContainsC(now: nat)
    requires now < TWO_64
    ensures (forall ts: nat :: ts < TWO_64 && Hmac.TimestampVerify(ts, now) ==> InWindow(now, ts))
       <==> 300 <= now < TWO_64 - 300 || TWO_64 - 60 <= now
  {
    forall ts: nat | ts < TWO_64
      ensures Hmac.TimestampVerify(ts, now) <==> now + 60 < TWO_64 && now - 300 <= ts <= now
      ensures InWindow(now, ts) <==> 300 <= now < TWO_64 - 300 && now - 300 <= ts <= now + 300
    {
      Hmac.TimestampWindow(ts, now);
      WindowExact(now, ts);
    }
    assert now + 60 < TWO_64 ==> Hmac.TimestampVerify(now, now);
  }

  // Frames.

  /** VerifyFramed is Verify on the announced part of the frame; what follows it is ignored. */
  lemma VerifyFramedIsVerify(mac: Mac, now: nat, f: seq<byte>)
    ensures VerifyFramed(mac, now, f) ==
            if |f| < 44 || Value(f[..4]) > |f| - 44 then None
            else Verify(mac, now, f[4..44 + Value(f[..4])])
  {
    hide Value, InWindow;
    if |f| >= 44 && Value(f[..4]) <= |f| - 44 {
      Slices(f, 4, 44 + Value(f[..4]), 32, 40);
    }
  }

  /** Sign and Verify: accepted exactly in the window, and the data comes back. */
  lemma SignVerify(mac: Mac, now: nat, ts: nat, data: seq<byte>)
    requires ts < TWO_64
    ensures Verify(mac, now, Signed(mac, ts, data)) == if InWindow(now, ts) then Some(data) else None
  {
    var s := Signed(mac, ts, data);
    assert s[..32] == mac(BigEndian(ts, 8) + data) && s[32..40] == BigEndian(ts, 8) && s[40..] == data;
    Pow256Widths();
    ValueOfBigEndian(ts, 8);
  }

  /** Whatever Verify accepts is the signing of the data it returns, at some time within the window. */
  lemma VerifySound(mac: Mac, now: nat, s: seq<byte>) returns (ts: nat)
    requires Verify(mac, now, s).Some?
    ensures ts < TWO_64 && InWindow(now, ts)
    ensures s == Signed(mac, ts, Verify(mac, now, s).value)
  {
    hide Value, BigEndian, InWindow;
    Pow256Widths();
    BigEndianOfValue(s[32..40]);
    ts := Value(s[32..40]);
    Thirds(s, 32, 40);
  }

  /** The parts of a frame. */
  lemma FrameParts(mac: Mac, ts: nat, data: seq<byte>)
    requires |data| < TWO_32
    ensures var f := Frame(mac, ts, data);
            f[..4] == BigEndian(|data|, 4) && Value(f[..4]) == |data| && f[4..] == Signed(mac, ts, data)
  {
    Pow256Widths();
    ValueOfBigEndian(|data|, 4);
  }

  /** A frame at the front of the stream is read back, or refused for its age alone, and exactly its bytes
      are consumed. */
  lemma ReadFrame(mac: Mac, now: nat, ts: nat, data: seq<byte>, rest: seq<byte>)
    requires ts < TWO_64 && |data| <= 16_777_216
    ensures ReadFramed(mac, now, Frame(mac, ts, data) + rest) ==
            if InWindow(now, ts) then Done(data, rest) else Failed(UnexpectedEOF, rest)
  {
    hide Value, InWindow, VerifyFramed, Verify, Signed;
    var f := Frame(mac, ts, data);
    var s := f + rest;
    FrameParts(mac, ts, data);
    assert s[..44] == f[..44] && s[44..] == f[44..] + rest;
    assert s[..44][..4] == f[..4];
    assert s[44..][..|data|] == f[44..] && s[44..][|data|..] == rest;
    assert f[..44] + f[44..] == f;
    VerifyFramedIsVerify(mac, now, f);
    assert f[4..44 + |data|] == f[4..];
    SignVerify(mac, now, ts, data);
  }

  /** Whatever ReadFramed returns, the bytes it consumed are the frame of that data for some time in the
      window. */
  lemma ReadFramedSound(mac: Mac, now: nat, s: seq<byte>) returns (ts: nat)
    requires ReadFramed(mac, now, s).Done?
    ensures var r := ReadFramed(mac, now, s);
            ts < TWO_64 && InWindow(now, ts) && |r.value| <= 16_777_216 && s == Frame(mac, ts, r.value) + r.rest
  {
    hide Value, InWindow, VerifyFramed, Verify, Signed;
    var len := Value(s[..44][..4]);
    FrameSlices(s, len);
    var f := s[..44 + len];
    VerifyFramedIsVerify(mac, now, f);
    ts := VerifySound(mac, now, f[4..]);
    BigEndianOfValue(f[..4]);
    Halves(f, 4);
    Halves(s, 44 + len);
  }

  /** The header and the data behind it are the front of the stream. */
  lemma FrameSlices(s: seq<byte>, len: nat)
    requires 44 + len <= |s|
    ensures s[..44] + s[44..][..len] == s[..44 + len] && s[44..][len..] == s[44 + len..]
    ensures s[..44 + len][..4] == s[..44][..4] && s[..44 + len][4..44 + len] == s[..44 + len][4..]
  {
  }

  /** Both directions: ReadFramed returns data and leaves rest exactly when the stream starts with a fresh
      frame of that data. */
  lemma ReadFramedExact(mac: Mac, now: nat, s: seq<byte>, data: seq<byte>, rest: seq<byte>)
    ensures ReadFramed(mac, now, s) == Done(data, rest) <==>
            |data| <= 16_777_216 &&
            exists ts: nat :: ts < TWO_64 && InWindow(now, ts) && s == Frame(mac, ts, data) + rest
  {
    if ReadFramed(mac, now, s) == Done(data, rest) {
      var ts := ReadFramedSound(mac, now, s);
    }
    if |data| <= 16_777_216 {
      forall ts: nat | ts < TWO_64 && InWindow(now, ts) && s == Frame(mac, ts, data) + rest
        ensures ReadFramed(mac, now, s) == Done(data, rest)
      {
        ReadFrame(mac, now, ts, data, rest);
      }
    }
  }

  /** A frame is refused for its length exactly when it is over 16 MiB: ReadFramed returns the data of a whole
      frame if and only if it is no longer and read in its window. */
  lemma RefusedForLength(mac: Mac, now: nat, ts: nat, data: seq<byte>, rest: seq<byte>)
    requires ts < TWO_64 && |data| < TWO_32
    ensures ReadFramed(mac, now, Frame(mac, ts, data) + rest) == Done(data, rest) <==>
            |data| <= 16_777_216 && InWindow(now, ts)
    ensures |data| > 16_777_216 ==> ReadFramed(mac, now, Frame(mac, ts, data) + rest).Failed?
  {
    if |data| <= 16_777_216 {
      ReadFrame(mac, now, ts, data, rest);
    } else {
      FrameParts(mac, ts, data);
      hide Value, Frame, VerifyFramed;
      var f := Frame(mac, ts, data);
      assert (f + rest)[..44][..4] == f[..4];
    }
  }

  // Streams of frames.

  datatype Chunk = Chunk(ts: nat, data: seq<byte>)

  predicate Sendable(chunks: seq<Chunk>)
  {
    forall i :: 0 <= i < |chunks| ==> chunks[i].ts < TWO_64 && |chunks[i].data| <= 16_777_216
  }

  /** The frames of the chunks, one after the other. */
  function Wire(mac: Mac, chunks: seq<Chunk>): seq<byte>
  {
    if chunks == [] then [] else Frame(mac, chunks[0].ts, chunks[0].data) + Wire(mac, chunks[1..])
  }

  function Payloads(chunks: seq<Chunk>): (p: seq<seq<byte>>)
    ensures |p| == |chunks|
  {
    seq(|chunks|, i requires 0 <= i < |chunks| => chunks[i].data)
  }

  lemma WireCons(mac: Mac, chunks: seq<Chunk>, rest: seq<byte>)
    ensures chunks == [] ==> Wire(mac, chunks) + rest == rest && Payloads(chunks) == []
    ensures chunks != [] ==>
              Wire(mac, chunks) + rest
              == Frame(mac, chunks[0].ts, chunks[0].data) + (Wire(mac, chunks[1..]) + rest)
    ensures chunks != [] ==> Payloads(chunks) == [chunks[0].data] + Payloads(chunks[1..])
  {
    hide Frame;
    if chunks != [] {
      Assoc(Frame(mac, chunks[0].ts, chunks[0].data), Wire(mac, chunks[1..]), rest);
    }
  }

  /** One ReadFramed per clock reading: the payloads, or the first failure. */
  function ReadMany(mac: Mac, clocks: seq<nat>, s: seq<byte>): Outcome<seq<seq<byte>>>
  {
    if clocks == [] then Done([], s)
    else
      match ReadFramed(mac, clocks[0], s)
      case Failed(e, rest) => Failed(e, rest)
      case Done(data, rest) =>
        match ReadMany(mac, clocks[1..], rest)
        case Failed(e, rest') => Failed(e, rest')
        case Done(more, rest') => Done([data] + more, rest')
  }

  predicate AllInWindow(clocks: seq<nat>, chunks: seq<Chunk>)
    requires |clocks| == |chunks|
  {
    forall j :: 0 <= j < |clocks| ==> InWindow(clocks[j], chunks[j].ts)
  }

  /** Any chunks, framed and concatenated, are read back as exactly those chunks at any clocks in the window,
      and exactly their bytes are consumed. */
  lemma {:induction false} ReadManyFrames(mac: Mac, clocks: seq<nat>, chunks: seq<Chunk>, rest: seq<byte>)
    requires Sendable(chunks) && |clocks| == |chunks| && AllInWindow(clocks, chunks)
    ensures ReadMany(mac, clocks, Wire(mac, chunks) + rest) == Done(Payloads(chunks), rest)
    decreases |chunks|
  {
    hide ReadFramed, Frame, InWindow, Payloads, Wire;
    WireCons(mac, chunks, rest);
    if chunks != [] {
      var c, more := chunks[0], chunks[1..];
      ReadFrame(mac, clocks[0], c.ts, c.data, Wire(mac, more) + rest);
      ReadManyFrames(mac, clocks[1..], more, rest);
    }
  }

  // The operations as they fill and drain buffers.

  /** Go's copy(dst[at:], src). */
  method CopyInto(dst: array<byte>, at: nat, src: seq<byte>)
    requires at + |src| <= dst.Length
    modifies dst
    ensures dst[..] == old(dst[..at]) + src + old(dst[at + |src|..])
  {
    var i := 0;
    while i < |src|
      invariant 0 <= i <= |src|
      invariant dst[..] == old(dst[..at]) + src[..i] + old(dst[at + i..])
    {
      dst[at + i] := src[i];
      i := i + 1;
    }
    assert src[..i] == src;
  }

  method Sign(mac: Mac, now: nat, data: seq<byte>) returns (result: array<byte>)
    ensures fresh(result) && result[..] == Signed(mac, now, data)
  {
    hide BigEndian;
    var ts := BigEndian(now, 8);
    var signature := mac(ts + data);
    result := new byte[40 + |data|];
    PutSigned(result, 0, signature, ts, data);
  }

  method SignFramed(mac: Mac, now: nat, data: seq<byte>) returns (result: array<byte>)
    ensures fresh(result) && result[..] == Frame(mac, now, data)
  {
    hide BigEndian;
    var ts := BigEndian(now, 8);
    var signature := mac(ts + data);
    result := new byte[44 + |data|];
    var len := BigEndian(|data|, 4);
    CopyInto(result, 0, len);
    assert result[..4] == len;
    PutSigned(result, 4, signature, ts, data);
    assert result[..] == result[..4] + result[4..];
  }

  /** The three copies that lay out signature, timestamp and data. */
  method PutSigned(result: array<byte>, at: nat, signature: seq<byte>, ts: seq<byte>, data: seq<byte>)
    requires |signature| == 32 && |ts| == 8 && result.Length == at + 40 + |data|
    modifies result
    ensures result[..at] == old(result[..at])
    ensures result[at..] == signature + ts + data
  {
    CopyInto(result, at, signature);
    assert result[at..at + 32] == signature;
    CopyInto(result, at + 32, ts);
    assert result[at..at + 40] == signature + ts;
    CopyInto(result, at + 40, data);
    assert result[at..at + 40] == signature + ts;
  }

  /** ReadFramed over a reader: however the bytes are cut into segments, the result is that of the function. */
  method Receive(mac: Mac, now: nat, r: Reader) returns (res: Result<seq<byte>>)
    modifies r
    ensures ReadFramed(mac, now, old(r.Rest())) == Leaving(res, r.Rest())
    ensures |r.segments| + |r.Rest()| <= old(|r.segments| + |r.Rest()|)
  {
    hide VerifyFramed, Value;
    var h := r.Fill(44);
    if h.Err? {
      return h;
    }
    var header := h.value;
    var len := Value(header[..4]);
    if len > MAX_FRAME {
      return Err(UnexpectedEOF);
    }
    var data := [];
    if len > 0 {
      var d := r.Fill(len);
      if d.Err? {
        return d;
      }
      data := d.value;
    }
    var payload := VerifyFramed(mac, now, header + data);
    res := if payload.None? then Err(UnexpectedEOF) else Ok(payload.value);
  }
}
