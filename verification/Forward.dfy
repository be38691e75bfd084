/** forwardWithAuth of cmd/server/main.go and cmd/client/main.go: one goroutine signs what it reads, the other
    end's verifies and writes. */
module Forward {
  import opened Bytes
  import opened Stream
  import opened Auth

  const BUFFER: nat := 32 * 1024

  /** What the verifying loop writes out of a byte string, one clock reading per ReadFramed call. */
  function Deliver(mac: Mac, clocks: seq<nat>, s: seq<byte>): seq<byte>
  {
    if clocks == [] then []
    else
      match ReadFramed(mac, clocks[0], s)
      case Failed(_, _) => []
      case Done(data, rest) => data + Deliver(mac, clocks[1..], rest)
  }

  /** What the signing loop sends: chunks of at most one buffer. */
  predicate Chunked(chunks: seq<Chunk>)
  {
    forall i :: 0 <= i < |chunks| ==> chunks[i].ts < TWO_64 && 0 < |chunks[i].data| <= 32_768
  }

  /** The bytes of the chunks. */
  function Data(chunks: seq<Chunk>): seq<byte>
  {
    if chunks == [] then [] else chunks[0].data + Data(chunks[1..])
  }

  /** How many frames come through when only the first `arrived` bytes of the wire do: whole frames, up to the
      first one read outside its window or not read at all. */
  function Through(clocks: seq<nat>, chunks: seq<Chunk>, arrived: nat): (k: nat)
    ensures k <= |chunks|
  {
    if clocks == [] || chunks == [] then 0
    else
      var size := 44 + |chunks[0].data|;
      if arrived < size || !InWindow(clocks[0], chunks[0].ts) then 0
      else 1 + Through(clocks[1..], chunks[1..], arrived - size)
  }

  /** A frame that has not arrived whole is never delivered in part. */
  lemma PartialFrame(mac: Mac, now: nat, c: Chunk, s: seq<byte>)
    requires |c.data| <= 16_777_216 && |s| < 44 + |c.data|
    requires s == Frame(mac, c.ts, c.data)[..|s|]
    ensures ReadFramed(mac, now, s).Failed?
  {
    if |s| >= 44 {
      FrameParts(mac, c.ts, c.data);
      hide Value, Frame, VerifyFramed;
      assert s[..44][..4] == Frame(mac, c.ts, c.data)[..4];
    }
  }

  /** Cutting the wire cuts the first frame or falls behind it. */
  lemma WireTake(mac: Mac, chunks: seq<Chunk>, arrived: nat)
    requires chunks != [] && arrived <= |Wire(mac, chunks)|
    ensures var f, s := Frame(mac, chunks[0].ts, chunks[0].data), Wire(mac, chunks)[..arrived];
            if arrived < |f| then s == f[..arrived]
            else arrived - |f| <= |Wire(mac, chunks[1..])| && s == f + Wire(mac, chunks[1..])[..arrived - |f|]
  {
    hide Frame;
  }

  lemma DataTake(chunks: seq<Chunk>, k: nat)
    requires 0 < k <= |chunks|
    ensures Data(chunks[..k]) == chunks[0].data + Data(chunks[1..][..k - 1])
  {
    assert chunks[..k][1..] == chunks[1..][..k - 1];
  }

  /** End to end, exactly: of the bytes that have arrived, the far side has written the chunks of the frames
      that came through, and nothing else. */
  lemma {:induction false} DeliverExact(mac: Mac, clocks: seq<nat>, chunks: seq<Chunk>, arrived: nat)
    requires Chunked(chunks) && arrived <= |Wire(mac, chunks)|
    ensures Deliver(mac, clocks, Wire(mac, chunks)[..arrived]) == Data(chunks[..Through(clocks, chunks, arrived)])
    decreases |clocks|
  {
    hide ReadFramed, Frame, InWindow, Wire, Data;
    var s := Wire(mac, chunks)[..arrived];
    NothingSent(mac, clocks, chunks);
    if clocks != [] && chunks != [] {
      var c, more := chunks[0], chunks[1..];
      WireTake(mac, chunks, arrived);
      if arrived < 44 + |c.data| {
        PartialFrame(mac, clocks[0], c, s);
      } else {
        var arrived' := arrived - 44 - |c.data|;
        ReadFrame(mac, clocks[0], c.ts, c.data, Wire(mac, more)[..arrived']);
        if InWindow(clocks[0], c.ts) {
          DeliverExact(mac, clocks[1..], more, arrived');
          DataTake(chunks, Through(clocks, chunks, arrived));
        }
      }
    }
  }

  lemma NothingSent(mac: Mac, clocks: seq<nat>, chunks: seq<Chunk>)
    ensures Wire(mac, []) == [] && Data([]) == [] && Deliver(mac, clocks, []) == []
    ensures chunks[..0] == []
  {
  }

  lemma {:induction false} DataPrefix(chunks: seq<Chunk>, k: nat)
    requires k <= |chunks|
    ensures Data(chunks[..k]) <= Data(chunks)
  {
    if k > 0 {
      DataTake(chunks, k);
      DataPrefix(chunks[1..], k - 1);
    }
  }

  /** Whatever arrives and whenever it is read, the bytes delivered are a prefix of the bytes sent. */
  lemma DeliveredIsPrefix(mac: Mac, clocks: seq<nat>, chunks: seq<Chunk>, arrived: nat)
    requires Chunked(chunks) && arrived <= |Wire(mac, chunks)|
    ensures Deliver(mac, clocks, Wire(mac, chunks)[..arrived]) <= Data(chunks)
  {
    DeliverExact(mac, clocks, chunks, arrived);
    DataPrefix(chunks, Through(clocks, chunks, arrived));
  }

  /** The two loops together: out, what the far side has written of what it got of wire, never leaves the
      bytes that the near side read. */
  lemma EndToEnd(mac: Mac, clocks: seq<nat>, chunks: seq<Chunk>, read: seq<byte>, wire: seq<byte>, out: seq<byte>)
    requires Chunked(chunks) && Data(chunks) <= read
    requires wire <= Wire(mac, chunks) && out <= Deliver(mac, clocks, wire)
    ensures out <= read
  {
    assert wire == Wire(mac, chunks)[..|wire|];
    DeliveredIsPrefix(mac, clocks, chunks, |wire|);
  }

  lemma {:induction false} WireSplit(mac: Mac, chunks: seq<Chunk>, i: nat)
    requires i <= |chunks|
    ensures Wire(mac, chunks) == Wire(mac, chunks[..i]) + Wire(mac, chunks[i..])
  {
    hide Frame;
    if i > 0 {
      assert chunks[..i][1..] == chunks[1..][..i - 1] && chunks[1..][i - 1..] == chunks[i..];
      WireSplit(mac, chunks[1..], i - 1);
      Assoc(Frame(mac, chunks[0].ts, chunks[0].data), Wire(mac, chunks[1..][..i - 1]), Wire(mac, chunks[i..]));
    }
  }

  /** No frame of the forwarder is refused for its length: whatever part of the wire has arrived, once frame i is
      there whole, ReadFramed at its place returns its data, or fails exactly when it is read outside its
      window. */
  lemma NothingRefused(mac: Mac, now: nat, chunks: seq<Chunk>, i: nat, arrived: nat)
    requires Chunked(chunks) && i < |chunks|
    requires |Wire(mac, chunks[..i + 1])| <= arrived <= |Wire(mac, chunks)|
    ensures var at := |Wire(mac, chunks[..i])|;
            at <= arrived &&
            var s := Wire(mac, chunks)[..arrived][at..];
            && (ReadFramed(mac, now, s).Done? <==> InWindow(now, chunks[i].ts))
            && (InWindow(now, chunks[i].ts) ==>
                  ReadFramed(mac, now, s)
                  == Done(chunks[i].data, Wire(mac, chunks)[|Wire(mac, chunks[..i + 1])|..arrived]))
  {
    hide ReadFramed, Frame, InWindow, Wire;
    var c, at, next := chunks[i], |Wire(mac, chunks[..i])|, |Wire(mac, chunks[..i + 1])|;
    assert chunks[..i + 1] == chunks[..i] + [c];
    WireSnoc(mac, chunks[..i], c);
    WireSplit(mac, chunks, i + 1);
    var rest := Wire(mac, chunks)[next..arrived];
    FrameAt(Wire(mac, chunks[..i]), Frame(mac, c.ts, c.data), Wire(mac, chunks[i + 1..]), Wire(mac, chunks), arrived);
    ReadFrame(mac, now, c.ts, c.data, rest);
  }

  lemma FrameAt(before: seq<byte>, f: seq<byte>, after: seq<byte>, all: seq<byte>, arrived: nat)
    requires all == (before + f) + after && |before + f| <= arrived <= |all|
    ensures all[..arrived][|before|..] == f + all[|before + f|..arrived]
  {
  }

  /** Whole frames read in their windows all come through. */
  lemma {:induction false} AllThrough(clocks: seq<nat>, chunks: seq<Chunk>, arrived: nat, mac: Mac)
    requires |clocks| >= |chunks| && AllInWindow(clocks[..|chunks|], chunks) && arrived == |Wire(mac, chunks)|
    ensures Through(clocks, chunks, arrived) == |chunks|
    decreases |chunks|
  {
    hide InWindow, Frame;
    if chunks != [] {
      assert clocks[1..][..|chunks| - 1] == clocks[..|chunks|][1..];
      AllThrough(clocks[1..], chunks[1..], arrived - 44 - |chunks[0].data|, mac);
    }
  }

  /** When the whole wire arrives and each frame is read in its window, every byte sent is delivered. */
  lemma EverythingArrives(mac: Mac, clocks: seq<nat>, chunks: seq<Chunk>)
    requires Chunked(chunks) && |clocks| >= |chunks| && AllInWindow(clocks[..|chunks|], chunks)
    ensures Deliver(mac, clocks, Wire(mac, chunks)) == Data(chunks)
  {
    hide Deliver, Wire, Data, Through, InWindow;
    var arrived := |Wire(mac, chunks)|;
    AllThrough(clocks, chunks, arrived, mac);
    DeliverExact(mac, clocks, chunks, arrived);
    assert Wire(mac, chunks)[..arrived] == Wire(mac, chunks) && chunks[..|chunks|] == chunks;
  }

  lemma {:induction false} WireSnoc(mac: Mac, chunks: seq<Chunk>, c: Chunk)
    ensures Wire(mac, chunks + [c]) == Wire(mac, chunks) + Frame(mac, c.ts, c.data)
  {
    hide Frame;
    if chunks == [] {
      assert chunks + [c] == [c] && [c][1..] == [];
    } else {
      assert (chunks + [c])[1..] == chunks[1..] + [c];
      WireSnoc(mac, chunks[1..], c);
    }
  }

  lemma {:induction false} DataSnoc(chunks: seq<Chunk>, c: Chunk)
    ensures Data(chunks + [c]) == Data(chunks) + c.data
  {
    if chunks == [] {
      assert chunks + [c] == [c] && [c][1..] == [];
    } else {
      assert (chunks + [c])[1..] == chunks[1..] + [c];
      DataSnoc(chunks[1..], c);
    }
  }

  /** The signing goroutine, for at most one iteration per clock reading. The connection may break anywhere,
      even inside a frame. */
  method SignLoop(mac: Mac, clocks: seq<nat>, src: Reader, dst: Writer) returns (ghost chunks: seq<Chunk>)
    requires dst.Valid() && dst.sent == []
    requires forall i :: 0 <= i < |clocks| ==> clocks[i] < TWO_64
    modifies src, dst
    ensures Chunked(chunks)
    ensures Data(chunks) + src.Rest() == old(src.Rest())
    ensures dst.Valid() && dst.sent <= Wire(mac, chunks)
    ensures |Wire(mac, chunks)| <= dst.capacity ==> dst.sent == Wire(mac, chunks)
    ensures |Wire(mac, chunks)| <= dst.capacity && old(|src.segments| + |src.Rest()|) < |clocks| ==> src.Rest() == []
  {
    hide Frame, Wire, Data, Concat, Chunked;
    NothingSent(mac, [], []);
    NoChunks();
    chunks := [];
    ghost var all, size := src.Rest(), |src.segments| + |src.Rest()|;
    for i := 0 to |clocks|
      invariant Chunked(chunks) && dst.Valid()
      invariant all == Data(chunks) + src.Rest()
      invariant dst.sent == Wire(mac, chunks)
      invariant |src.segments| + |src.Rest()| + i <= size
    {
      var more: bool;
      more, chunks := SignOne(mac, clocks[i], src, dst, chunks, all);
      if !more {
        return;
      }
    }
  }

  lemma NoChunks()
    ensures Chunked([])
  {
  }

  lemma ChunkedSnoc(chunks: seq<Chunk>, c: Chunk)
    requires Chunked(chunks) && c.ts < TWO_64 && 0 < |c.data| <= 32_768
    ensures Chunked(chunks + [c])
  {
  }

  /** One iteration: read, sign, write. */
  method SignOne(mac: Mac, now: nat, src: Reader, dst: Writer, ghost before: seq<Chunk>, ghost all: seq<byte>)
    returns (more: bool, ghost chunks: seq<Chunk>)
    requires dst.Valid() && now < TWO_64 && Chunked(before)
    requires dst.sent == Wire(mac, before) && all == Data(before) + src.Rest()
    modifies src, dst
    ensures Chunked(chunks) && all == Data(chunks) + src.Rest()
    ensures dst.Valid() && dst.sent <= Wire(mac, chunks)
    ensures more || |Wire(mac, chunks)| <= dst.capacity ==> dst.sent == Wire(mac, chunks)
    ensures more ==> |src.segments| + |src.Rest()| < old(|src.segments| + |src.Rest()|)
    ensures !more && |Wire(mac, chunks)| <= dst.capacity ==> src.Rest() == []
  {
    hide Frame, Wire, Data, Chunked;
    chunks := before;
    var b, eof := src.Read(BUFFER);
    ghost var rest := src.Rest();
    Assoc(Data(chunks), b, rest);
    if eof {
      return false, chunks;
    }
    more := true;
    if |b| > 0 {
      more := SendChunk(mac, now, b, dst, before);
      DataSnoc(before, Chunk(now, b));
      ChunkedSnoc(before, Chunk(now, b));
      chunks := before + [Chunk(now, b)];
      assert src.Rest() == rest;
    }
  }

  /** Sign one chunk and write the frame. */
  method SendChunk(mac: Mac, now: nat, b: seq<byte>, dst: Writer, ghost chunks: seq<Chunk>) returns (ok: bool)
    requires dst.Valid() && dst.sent == Wire(mac, chunks)
    modifies dst
    ensures dst.Valid() && dst.sent <= Wire(mac, chunks + [Chunk(now, b)])
    ensures ok ==> dst.sent == Wire(mac, chunks + [Chunk(now, b)])
    ensures !ok ==> dst.capacity < |Wire(mac, chunks + [Chunk(now, b)])|
  {
    hide Frame, Wire;
    var frame := SignFramed(mac, now, b);
    WireSnoc(mac, chunks, Chunk(now, b));
    ok := dst.Write(frame[..]);
  }

  /** The verifying goroutine, for at most one iteration per clock reading. */
  method VerifyLoop(mac: Mac, clocks: seq<nat>, src: Reader, dst: Writer)
    requires dst.Valid() && dst.sent == []
    modifies src, dst
    ensures dst.Valid() && dst.sent <= Deliver(mac, clocks, old(src.Rest()))
    ensures |Deliver(mac, clocks, old(src.Rest()))| <= dst.capacity ==>
              dst.sent == Deliver(mac, clocks, old(src.Rest()))
  {
    hide Deliver, Concat;
    ghost var all := Deliver(mac, clocks, src.Rest());
    for i := 0 to |clocks|
      invariant dst.Valid()
      invariant all == dst.sent + Deliver(mac, clocks[i..], src.Rest())
    {
      var more := VerifyOne(mac, clocks[i..], src, dst, all);
      if !more {
        return;
      }
      assert clocks[i..][1..] == clocks[i + 1..];
    }
    DeliverNothing(mac, clocks[|clocks|..], src.Rest());
  }

  lemma DeliverNothing(mac: Mac, clocks: seq<nat>, s: seq<byte>)
    requires clocks == []
    ensures Deliver(mac, clocks, s) == []
  {
  }

  /** One iteration: read a frame, verify, write. */
  method VerifyOne(mac: Mac, clocks: seq<nat>, src: Reader, dst: Writer, ghost all: seq<byte>) returns (more: bool)
    requires dst.Valid() && clocks != [] && all == dst.sent + Deliver(mac, clocks, src.Rest())
    modifies src, dst
    ensures dst.Valid() && dst.sent <= all
    ensures more ==> all == dst.sent + Deliver(mac, clocks[1..], src.Rest())
    ensures !more && |all| <= dst.capacity ==> dst.sent == all
  {
    hide ReadFramed, Concat;
    var r := Auth.Receive(mac, clocks[0], src);
    if r.Err? {
      return false;
    }
    ghost var later := Deliver(mac, clocks[1..], src.Rest());
    Assoc(dst.sent, r.value, later);
    more := dst.Write(r.value);
    hide Deliver;
  }

  // Both loops.

  /** Segments of the given sizes, and one of what is left. */
  function Cut(s: seq<byte>, sizes: seq<nat>): (segments: seq<seq<byte>>)
  {
    if sizes == [] || |s| < sizes[0] then [s] else [s[..sizes[0]]] + Cut(s[sizes[0]..], sizes[1..])
  }

  lemma {:induction false} CutKeeps(s: seq<byte>, sizes: seq<nat>)
    ensures Concat(Cut(s, sizes)) == s
    decreases |sizes|
  {
    if sizes != [] && |s| >= sizes[0] {
      CutKeeps(s[sizes[0]..], sizes[1..]);
    } else {
      assert [s][1..] == [];
    }
  }

  /** A tunnel: one side signs what it reads, the network brings some first part of what was sent in segments of
      any sizes, the other side verifies and writes. Every connection may break anywhere. What is written is a
      prefix of what was there to read; and it is all of it if nothing broke, both loops ran long enough and
      every frame was read in its window. */
  method Tunnel(mac: Mac, signClocks: seq<nat>, verifyClocks: seq<nat>, src: Reader, wire: Writer,
                arrived: nat, sizes: seq<nat>, dst: Writer) returns (ghost chunks: seq<Chunk>)
    requires wire.Valid() && wire.sent == [] && dst.Valid() && dst.sent == [] && wire != dst
    requires forall i :: 0 <= i < |signClocks| ==> signClocks[i] < TWO_64
    modifies src, wire, dst
    ensures dst.sent <= old(src.Rest())
    ensures old(|src.segments| + |src.Rest()|) < |signClocks| && |Wire(mac, chunks)| <= wire.capacity
            && |Wire(mac, chunks)| <= arrived && |old(src.Rest())| <= dst.capacity
            && |chunks| <= |verifyClocks| && AllInWindow(verifyClocks[..|chunks|], chunks)
            ==> dst.sent == old(src.Rest())
  {
    hide Wire, Data, Deliver, Concat, AllInWindow, Cut, Chunked;
    chunks := SignLoop(mac, signClocks, src, wire);
    var come := Come(wire.sent, arrived);
    CutKeeps(come, sizes);
    var far := new Reader(Cut(come, sizes));
    VerifyLoop(mac, verifyClocks, far, dst);
    TunnelEnds(mac, verifyClocks, chunks, src.Rest(), wire.sent, come, dst.sent, dst.capacity);
  }

  /** The first part of what was sent. */
  function Come(sent: seq<byte>, arrived: nat): (come: seq<byte>)
    ensures come <= sent && (|sent| <= arrived ==> come == sent)
  {
    if arrived < |sent| then sent[..arrived] else sent
  }

  lemma TunnelEnds(mac: Mac, clocks: seq<nat>, chunks: seq<Chunk>, left: seq<byte>, sent: seq<byte>,
                   come: seq<byte>, out: seq<byte>, capacity: nat)
    requires Chunked(chunks) && sent <= Wire(mac, chunks) && come <= sent && out <= Deliver(mac, clocks, come)
    requires |Deliver(mac, clocks, come)| <= capacity ==> out == Deliver(mac, clocks, come)
    ensures out <= Data(chunks) + left
    ensures come == Wire(mac, chunks) && left == [] && |Data(chunks) + left| <= capacity
            && |chunks| <= |clocks| && AllInWindow(clocks[..|chunks|], chunks)
            ==> out == Data(chunks) + left
  {
    hide Wire, Data, Deliver, AllInWindow, Chunked;
    EndToEnd(mac, clocks, chunks, Data(chunks) + left, come, out);
    if |chunks| <= |clocks| && AllInWindow(clocks[..|chunks|], chunks) {
      EverythingArrives(mac, clocks, chunks);
    }
  }
}
