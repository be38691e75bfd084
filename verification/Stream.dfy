/** Byte streams: a connection hands out its bytes in arbitrary segments, and io.ReadFull hides the cuts. */
module Stream {
  import opened Bytes

  datatype Error = EOF | UnexpectedEOF

  /** What reading an item from the front of a byte string gives, and what is left. */
  datatype Outcome<+T> =
    | Done(value: T, rest: seq<byte>)
    | Failed(error: Error, rest: seq<byte>)

  /** A value or an error, as the Go functions return them. */
  datatype Result<+T> = Ok(value: T) | Err(error: Error)

  function Leaving<T>(r: Result<T>, rest: seq<byte>): Outcome<T>
  {
    match r
    case Ok(v) => Done(v, rest)
    case Err(e) => Failed(e, rest)
  }

  /** io.ReadFull over the bytes still to come. */
  function ReadFull(s: seq<byte>, n: nat): Outcome<seq<byte>>
  {
    if n <= |s| then Done(s[..n], s[n..])
    else Failed(if s == [] then EOF else UnexpectedEOF, [])
  }

  class Reader {
    /** The segments that successive Read calls will see; empty ones are allowed. */
    var segments: seq<seq<byte>>

    ghost function Rest(): seq<byte>
      reads this
    {
      Concat(segments)
    }

    constructor (segments: seq<seq<byte>>)
      ensures this.segments == segments
    {
      this.segments := segments;
    }

    /** One Read call with a buffer of max bytes. */
    method Read(max: nat) returns (b: seq<byte>, eof: bool)
      requires max > 0
      modifies this
      ensures |b| <= max && old(Rest()) == b + Rest()
      ensures eof <==> old(segments) == []
      ensures eof ==> b == [] && segments == []
      ensures !eof ==> |segments| + |Rest()| < old(|segments| + |Rest()|)
    {
      if segments == [] {
        return [], true;
      }
      var head := segments[0];
      eof := false;
      if |head| <= max {
        b := head;
        segments := segments[1..];
      } else {
        b := head[..max];
        segments := [head[max..]] + segments[1..];
        assert head == b + head[max..];
        assert segments[1..] == old(segments)[1..];
      }
    }

    /** io.ReadFull: read until n bytes have come or the stream ends. */
    method Fill(n: nat) returns (r: Result<seq<byte>>)
      modifies this
      ensures ReadFull(old(Rest()), n) == Leaving(r, Rest())
      ensures r.Ok? <==> n <= |old(Rest())|
      ensures r.Ok? ==> |r.value| == n && old(Rest()) == r.value + Rest()
      ensures r.Err? ==> Rest() == [] && (r.error == EOF <==> old(Rest()) == [])
      ensures |segments| + |Rest()| <= old(|segments| + |Rest()|)
    {
      var buf := [];
      while |buf| < n
        invariant |buf| <= n && old(Rest()) == buf + Rest()
        invariant |segments| + |Rest()| <= old(|segments| + |Rest()|)
        decreases |segments| + |Rest()|
      {
        var b, eof := Read(n - |buf|);
        if eof {
          return Err(if buf == [] then EOF else UnexpectedEOF);
        }
        buf := buf + b;
      }
      r := Ok(buf);
    }
  }

  class Writer {
    /** What the peer has been sent. */
    var sent: seq<byte>
    /** How many bytes the connection takes before it is torn down. */
    const capacity: nat

    ghost predicate Valid()
      reads this
    {
      |sent| <= capacity
    }

    constructor (capacity: nat)
      ensures Valid() && sent == [] && this.capacity == capacity
    {
      this.capacity := capacity;
      sent := [];
    }

    /** Write everything, or as much as fits and report the failure. */
    method Write(b: seq<byte>) returns (ok: bool)
      requires Valid()
      modifies this
      ensures Valid()
      ensures ok <==> |old(sent)| + |b| <= capacity
      ensures ok ==> sent == old(sent) + b
      ensures !ok ==> sent == (old(sent) + b)[..capacity]
    {
      ok := |sent| + |b| <= capacity;
      sent := if ok then sent + b else (sent + b)[..capacity];
    }
  }
}
