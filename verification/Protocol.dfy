/** pkg/protocol/message.go: control messages on a stream and UDP envelopes in datagrams. */
module Protocol {
  import opened Bytes
  import opened Stream
  import opened Auth
  import opened Options

  const MAX_MESSAGE: nat := 10 * 1024 * 1024

  /** The JSON body is a byte string here. */
  datatype Message = Message(kind: byte, body: seq<byte>)

  datatype Refusal = Io(error: Error) | BadMagic | BadVersion | BadType | TooLarge

  datatype Parsed = Got(message: Message, rest: seq<byte>) | Refused(why: Refusal, rest: seq<byte>)

  /** What WriteMessage puts on the connection: magic, version, type, length as uint32, body. */
  function Encode(m: Message): (s: seq<byte>)
    ensures |s| == 8 + |m.body|
  {
    BigEndian(0x4E4C, 2) + [1, m.kind] + BigEndian(|m.body|, 4) + m.body
  }

  predicate ValidType(kind: byte) { kind != 0 && kind <= 0x0F }

  /** ReadMessage over the bytes still to come. */
  function ReadMessage(s: seq<byte>): Parsed
  {
    match ReadFull(s, 8)
    case Failed(e, rest) => Refused(Io(e), rest)
    case Done(h, rest) =>
      if Value(h[..2]) != 0x4E4C then Refused(BadMagic, rest)
      else if h[2] != 1 then Refused(BadVersion, rest)
      else if !ValidType(h[3]) then Refused(BadType, rest)
      else
        var len := Value(h[4..8]);
        if len > MAX_MESSAGE then Refused(TooLarge, rest)
        else
          match ReadFull(rest, len)
          case Failed(e, rest') => Refused(Io(e), rest')
          case Done(body, rest') => Got(Message(h[3], body), rest')
  }

  /** The parts of an encoded message. */
  lemma EncodeParts(m: Message)
    requires |m.body| < TWO_32
    ensures var s := Encode(m);
            Value(s[..2]) == 0x4E4C && s[2] == 1 && s[3] == m.kind && Value(s[4..8]) == |m.body| && s[8..] == m.body
  {
    hide Value, BigEndian;
    var s := Encode(m);
    assert s[..2] == BigEndian(0x4E4C, 2) && s[4..8] == BigEndian(|m.body|, 4);
    Pow256Widths();
    ValueOfBigEndian(0x4E4C, 2);
    ValueOfBigEndian(|m.body|, 4);
  }

  /** A message of a valid type and of at most 10 MiB is read back and exactly its bytes are consumed. */
  lemma ReadEncoded(m: Message, rest: seq<byte>)
    requires 1 <= m.kind <= 15 && |m.body| <= 10_485_760
    ensures ReadMessage(Encode(m) + rest) == Got(m, rest)
  {
    EncodeParts(m);
    FrontOf(Encode(m), rest);
    hide Value, Encode;
  }

  /** The header and the body of e at the front of a stream. */
  lemma FrontOf(e: seq<byte>, rest: seq<byte>)
    requires |e| >= 8
    ensures var s := e + rest;
            && s[..8][..2] == e[..2] && s[..8][2] == e[2] && s[..8][3] == e[3] && s[..8][4..8] == e[4..8]
            && |s[8..]| == |e| - 8 + |rest| && s[8..][..|e| - 8] == e[8..] && s[8..][|e| - 8..] == rest
  {
    var s := e + rest;
    assert s[..8] == e[..8];
    assert e[..8][..2] == e[..2];
    assert e[..8][4..8] == e[4..8];
    assert s[8..] == e[8..] + rest;
  }

  /** Whatever ReadMessage returns, the bytes it consumed are the encoding of that message. */
  lemma ReadMessageSound(s: seq<byte>)
    requires ReadMessage(s).Got?
    ensures var r := ReadMessage(s);
            1 <= r.message.kind <= 15 && |r.message.body| <= 10_485_760 && s == Encode(r.message) + r.rest
  {
    hide Value, BigEndian;
    var h := s[..8];
    BigEndianOfValue(h[..2]);
    BigEndianOfValue(h[4..8]);
    assert h == h[..2] + [h[2], h[3]] + h[4..8];
    var len := Value(h[4..8]);
    assert s == h + s[8..][..len] + s[8..][len..];
  }

  /** Both directions. */
  lemma ReadMessageExact(s: seq<byte>, m: Message, rest: seq<byte>)
    ensures ReadMessage(s) == Got(m, rest) <==>
            1 <= m.kind <= 15 && |m.body| <= 10_485_760 && s == Encode(m) + rest
  {
    if ReadMessage(s).Got? {
      ReadMessageSound(s);
    }
    if 1 <= m.kind <= 15 && |m.body| <= 10_485_760 {
      ReadEncoded(m, rest);
    }
  }

  /** Why a whole header is refused, in its own bytes, the first reason counting; otherwise the body is read. */
  lemma RefusedExactly(s: seq<byte>)
    requires |s| >= 8
    ensures var r, magic := ReadMessage(s), s[0] == 0x4E && s[1] == 0x4C;
            var kind, len := s[3], Value(s[4..8]);
            && (r == Refused(BadMagic, s[8..]) <==> !magic)
            && (r == Refused(BadVersion, s[8..]) <==> magic && s[2] != 1)
            && (r == Refused(BadType, s[8..]) <==> magic && s[2] == 1 && (kind == 0 || kind > 15))
            && (r == Refused(TooLarge, s[8..]) <==> magic && s[2] == 1 && 1 <= kind <= 15 && len > 10_485_760)
            && (r.Got? <==> magic && s[2] == 1 && 1 <= kind <= 15 && len <= 10_485_760 && |s| >= 8 + len)
  {
    var h := s[..8];
    TwoBytes(h[..2]);
    assert h[4..8] == s[4..8];
    hide Value;
  }

  lemma TwoBytes(b: seq<byte>)
    requires |b| == 2
    ensures Value(b) == 256 * (b[0] as int) + b[1] as int
  {
    assert b[..1] == [b[0]];
    assert Value([b[0]]) == b[0];
  }

  /** Every message type that the protocol declares, from login to the list of tunnels, is read back. */
  lemma DeclaredTypesAreRead(kind: byte, body: seq<byte>, rest: seq<byte>)
    requires kind in {0x01, 0x02, 0x03, 0x04, 0x05, 0x06, 0x07, 0x08, 0x09, 0x0A, 0x0B} && |body| <= 10_485_760
    ensures ReadMessage(Encode(Message(kind, body)) + rest) == Got(Message(kind, body), rest)
  {
    ReadEncoded(Message(kind, body), rest);
  }

  function EncodeAll(ms: seq<Message>): seq<byte>
  {
    if ms == [] then [] else Encode(ms[0]) + EncodeAll(ms[1..])
  }

  lemma EncodeAllCons(ms: seq<Message>, rest: seq<byte>)
    ensures ms == [] ==> EncodeAll(ms) + rest == rest
    ensures ms != [] ==> EncodeAll(ms) + rest == Encode(ms[0]) + (EncodeAll(ms[1..]) + rest)
    ensures ms != [] ==> ms == [ms[0]] + ms[1..]
  {
    hide Encode;
  }

  /** Read n messages, or stop at the first refusal. */
  function ReadAll(n: nat, s: seq<byte>): (seq<Message>, seq<byte>)
  {
    if n == 0 then ([], s)
    else
      match ReadMessage(s)
      case Refused(_, rest) => ([], rest)
      case Got(m, rest) =>
        var (more, rest') := ReadAll(n - 1, rest);
        ([m] + more, rest')
  }

  /** Messages written one after the other are read back in order. */
  lemma {:induction false} ReadAllEncoded(ms: seq<Message>, rest: seq<byte>)
    requires forall m :: m in ms ==> 1 <= m.kind <= 15 && |m.body| <= 10_485_760
    ensures ReadAll(|ms|, EncodeAll(ms) + rest) == (ms, rest)
  {
    hide ReadMessage, Encode, EncodeAll;
    EncodeAllCons(ms, rest);
    if ms != [] {
      ReadEncoded(ms[0], EncodeAll(ms[1..]) + rest);
      ReadAllEncoded(ms[1..], rest);
    }
  }

  /** WriteMessage: fill the header, append the body. */
  method WriteMessage(m: Message) returns (wire: seq<byte>)
    ensures wire == Encode(m)
  {
    var header := new byte[8];
    CopyInto(header, 0, BigEndian(0x4E4C, 2));
    header[2] := 1;
    header[3] := m.kind;
    CopyInto(header, 4, BigEndian(|m.body|, 4));
    wire := header[..] + m.body;
  }

  datatype Reply = Received(message: Message) | Rejected(why: Refusal)

  /** ReadMessage over a reader: the segmentation never shows. */
  method Receive(r: Reader) returns (reply: Reply)
    modifies r
    ensures ReadMessage(old(r.Rest())) ==
            match reply
            case Received(m) => Got(m, r.Rest())
            case Rejected(why) => Refused(why, r.Rest())
  {
    hide Value;
    var h := r.Fill(8);
    if h.Err? {
      return Rejected(Io(h.error));
    }
    var header := h.value;
    if Value(header[..2]) != 0x4E4C {
      return Rejected(BadMagic);
    }
    if header[2] != 1 {
      return Rejected(BadVersion);
    }
    if !ValidType(header[3]) {
      return Rejected(BadType);
    }
    var len := Value(header[4..8]);
    if len > MAX_MESSAGE {
      return Rejected(TooLarge);
    }
    var body := [];
    if len > 0 {
      var b := r.Fill(len);
      if b.Err? {
        return Rejected(Io(b.error));
      }
      body := b.value;
    }
    reply := Received(Message(header[3], body));
  }

  // UDP envelopes.

  datatype Envelope = Envelope(kind: byte, sid: seq<byte>, data: seq<byte>)

  /** MarshalEnvelope: kind, session id length as uint16, session id, data. */
  function Marshal(e: Envelope): (b: seq<byte>)
    ensures |b| == 3 + |e.sid| + |e.data|
  {
    [e.kind] + BigEndian(|e.sid|, 2) + e.sid + e.data
  }

  /** UnmarshalEnvelope. */
  function Unmarshal(b: seq<byte>): Option<Envelope>
  {
    if |b| < 3 then None
    else
      var n := Value(b[1..3]);
      if |b| < 3 + n then None
      else Some(Envelope(b[0], b[3..3 + n], b[3 + n..]))
  }

  /** What comes back of any envelope: id and data together are kept, and cut again at the length of the id
      modulo 65536. */
  lemma UnmarshalAny(e: Envelope)
    ensures var cut := |e.sid| % 0x1_0000;
            Unmarshal(Marshal(e)) == Some(Envelope(e.kind, (e.sid + e.data)[..cut], (e.sid + e.data)[cut..]))
  {
    var b, cut := Marshal(e), |e.sid| % 0x1_0000;
    assert b[1..3] == BigEndian(|e.sid|, 2);
    Pow256Widths();
    BigEndianPeriodic(cut, |e.sid| / 0x1_0000, 2);
    ValueOfBigEndian(cut, 2);
    hide Value, BigEndian;
    CutAgain(e, cut);
  }

  lemma CutAgain(e: Envelope, cut: nat)
    requires cut <= |e.sid|
    ensures var b, all := Marshal(e), e.sid + e.data; b[3..3 + cut] == all[..cut] && b[3 + cut..] == all[cut..]
  {
    hide BigEndian;
    assert Marshal(e)[3..] == e.sid + e.data;
  }

  /** Marshalling loses nothing exactly when the id fits its 16-bit length. */
  lemma UnmarshalMarshal(e: Envelope)
    ensures Unmarshal(Marshal(e)) == Some(e) <==> |e.sid| < TWO_16
  {
    hide Unmarshal, Marshal;
    UnmarshalAny(e);
    var all, cut := e.sid + e.data, |e.sid| % 0x1_0000;
    assert cut == |e.sid| <==> |e.sid| < 0x1_0000;
    assert |all[..cut]| == cut;
    assert all[..|e.sid|] == e.sid && all[|e.sid|..] == e.data;
  }

  /** A 65536-byte id comes back empty, and its bytes in front of the data. */
  lemma LongIdIsLost(kind: byte, sid: seq<byte>, data: seq<byte>)
    requires |sid| == TWO_16
    ensures Unmarshal(Marshal(Envelope(kind, sid, data))) == Some(Envelope(kind, [], sid + data))
  {
    hide Unmarshal, Marshal;
    UnmarshalAny(Envelope(kind, sid, data));
  }

  /** Whatever Unmarshal accepts is the marshalling of what it returns, and it accepts nothing else. */
  lemma MarshalUnmarshal(b: seq<byte>)
    ensures Unmarshal(b).Some? ==> Marshal(Unmarshal(b).value) == b && |Unmarshal(b).value.sid| < TWO_16
    ensures Unmarshal(b).Some? <==> exists e: Envelope :: |e.sid| < TWO_16 && b == Marshal(e)
  {
    if Unmarshal(b).Some? {
      BigEndianOfValue(b[1..3]);
      Pow256Widths();
      hide Value, BigEndian;
      var n := Value(b[1..3]);
      assert b == [b[0]] + b[1..3] + b[3..3 + n] + b[3 + n..];
    }
    forall e: Envelope | |e.sid| < TWO_16 && b == Marshal(e)
      ensures Unmarshal(b).Some?
    {
      UnmarshalMarshal(e);
    }
  }

  /** With a 16-byte session id a payload passes the 65507-byte check on the signed packet exactly when it is
      at most 65448 bytes; UDPMaxPayload, 65400, is covered. */
  lemma PayloadLimit(mac: Mac, ts: nat, kind: byte, sid: seq<byte>, data: seq<byte>)
    requires |sid| == 16
    ensures |Signed(mac, ts, Marshal(Envelope(kind, sid, data)))| <= 65507 <==> |data| <= 65448
  {
    hide BigEndian;
  }

  /** What both data channels do with a packet: verify, then unmarshal; anything else is ignored. */
  function OpenPacket(mac: Mac, now: nat, packet: seq<byte>): Option<Envelope>
  {
    match Verify(mac, now, packet)
    case None => None
    case Some(data) => Unmarshal(data)
  }

  /** A packet yields an envelope exactly when it is the signing of that envelope at a time in the window. */
  lemma OpenPacketExact(mac: Mac, now: nat, packet: seq<byte>, e: Envelope)
    ensures OpenPacket(mac, now, packet) == Some(e) <==>
            |e.sid| < TWO_16 &&
            exists ts: nat :: ts < TWO_64 && InWindow(now, ts) && packet == Signed(mac, ts, Marshal(e))
  {
    hide Verify, Unmarshal, Marshal, Signed, InWindow;
    if OpenPacket(mac, now, packet) == Some(e) {
      var ts := VerifySound(mac, now, packet);
      MarshalUnmarshal(Verify(mac, now, packet).value);
    }
    forall ts: nat | ts < TWO_64 && InWindow(now, ts) && packet == Signed(mac, ts, Marshal(e)) && |e.sid| < TWO_16
      ensures OpenPacket(mac, now, packet) == Some(e)
    {
      SignVerify(mac, now, ts, Marshal(e));
      UnmarshalMarshal(e);
    }
  }

  method MarshalEnvelope(e: Envelope) returns (buf: seq<byte>)
    ensures buf == Marshal(e)
    ensures Unmarshal(buf) == Some(e) <==> |e.sid| < TWO_16
  {
    UnmarshalMarshal(e);
    hide Unmarshal, BigEndian;
    buf := [];
    buf := buf + [e.kind];
    buf := buf + BigEndian(|e.sid|, 2);
    buf := buf + e.sid;
    buf := buf + e.data;
  }
}
