/** A UDP proxy end to end: users, the server's session table, a network that drops, duplicates and reorders,
    and the client's backend sockets. One step per critical section or system call, in any interleaving. */
module UdpRouting {
  import opened Bytes
  import opened Protocol
  import opened UdpSessions
  import opened Options

  /** Bytes on their way to a backend, with the number of the user datagram they were taken from. */
  datatype Cargo = Cargo(data: seq<byte>, origin: nat)

  /** A datagram received from a user. */
  datatype Datagram = Datagram(user: Addr, data: seq<byte>)

  /** A backend socket of the client: the session it was opened for and what was written to it. */
  datatype Backend = Backend(sid: Sid, open: bool, writes: seq<Cargo>)

  /** A packet from server to client, with the number of the user datagram that caused it. */
  datatype Outgoing = Outgoing(env: Envelope, origin: nat)

  /** A packet from client to server, with the socket whose reader sent it. */
  datatype Packet = Packet(env: Envelope, socket: nat)

  /** A datagram written to a user, with the socket it came from. */
  datatype Reply = Reply(user: Addr, data: seq<byte>, socket: nat)

  /** Where handleUDPConnections is between its critical sections. */
  datatype UserPc = Idle | Registering(sid: Sid, cargo: Cargo) | Sending(sid: Sid, cargo: Cargo)
  /** Where the server's handleUDPDataChannel is. */
  datatype ChannelPc = Waiting | Replying(sid: Sid, reply: Reply) | Touching(sid: Sid)
  /** Where the client's handleUDPDataChannel is. */
  datatype ClientPc = Ready | Writing(socket: nat, cargo: Cargo)

  datatype State = State(
    table: Table, userPc: UserPc, channelPc: ChannelPc,
    toClient: set<Outgoing>, toServer: set<Packet>,
    udpSessions: map<Sid, nat>, backends: seq<Backend>, clientPc: ClientPc,
    // History: who every id was given to, how many ids were given out, what users sent and were sent.
    owner: map<Sid, Addr>, created: nat, received: seq<Datagram>, replies: seq<Reply>)

  datatype Event =
    | Arrive(user: Addr, data: seq<byte>, now: int)     // getOrCreateSession for a packet from a user
    | SendReg                                           // sendUDPToClient, kind 0x01
    | SendData                                          // sendUDPToClient, kind 0x02
    | ClientReceive(outgoing: Outgoing, dialled: bool)  // one packet at the client; dialled: DialUDP succeeds
    | ClientWrite                                       // backend.Write
    | BackendData(socket: nat, data: seq<byte>)         // readBackend forwards, perhaps after a close
    | BackendGone(socket: nat)                          // readBackend fails: close the session, say bye
    | ServerReceive(packet: Packet)                     // one packet at the server
    | ServerReply                                       // WriteToUDP to the user
    | ServerTouch(now: int)                             // lastActive after the write
    | Cleanup(now: int)                                 // one pass of cleanupUDPSessions

  const Start := State(Table(map[], map[], 0), Idle, Waiting, {}, {}, map[], [], Ready, map[], 0, [], [])

  /** closeBackendSession: close and forget whatever socket the id maps to now. */
  function CloseBackend(s: State, sid: Sid): State
  {
    if sid in s.udpSessions && s.udpSessions[sid] < |s.backends| then
      var k := s.udpSessions[sid];
      s.(backends := s.backends[k := s.backends[k].(open := false)], udpSessions := s.udpSessions - {sid})
    else s
  }

  /** getOrCreateBackend: reuse, or dial and remember; None when the dial fails. */
  function OpenBackend(s: State, sid: Sid, dialled: bool): (State, Option<nat>)
  {
    if sid in s.udpSessions then (s, Some(s.udpSessions[sid]))
    else if dialled then
      (s.(backends := s.backends + [Backend(sid, true, [])], udpSessions := s.udpSessions[sid := |s.backends|]),
       Some(|s.backends|))
    else (s, None)
  }

  function OnDatagram(s: State, user: Addr, data: seq<byte>, now: int): State
  {
    var (t, sid, isNew) := GetOrCreate(s.table, user, now);
    var s1 := s.(table := t, received := s.received + [Datagram(user, data)]);
    var cargo := Cargo(data, |s.received|);
    if isNew
    then s1.(owner := s.owner[sid := user], created := s.created + 1, userPc := Registering(sid, cargo))
    else s1.(userPc := Sending(sid, cargo))
  }

  function OnClientReceive(s: State, p: Outgoing, dialled: bool): State
  {
    var env := p.env;
    if env.kind == 1 then OpenBackend(s, env.sid, dialled).0
    else if env.kind == 2 then
      if env.data == [] then s
      else
        var (s1, backend) := OpenBackend(s, env.sid, dialled);
        if backend.Some? then s1.(clientPc := Writing(backend.value, Cargo(env.data, p.origin))) else s1
    else if env.kind == 3 then CloseBackend(s, env.sid)
    else s
  }

  function OnServerReceive(s: State, p: Packet): State
  {
    var sid := p.env.sid;
    if p.env.kind == 2 then
      if sid in s.table.sessions && p.env.data != []
      then s.(channelPc := Replying(sid, Reply(s.table.sessions[sid].user, p.env.data, p.socket)))
      else s
    else if p.env.kind == 3 then s.(table := Close(s.table, sid))
    else s
  }

  /** One step; an event that is not possible in the state changes nothing. */
  function Apply(s: State, e: Event): State
  {
    match e
    case Arrive(user, data, now) => if s.userPc.Idle? && data != [] then OnDatagram(s, user, data, now) else s
    case SendReg =>
      if s.userPc.Registering?
      then s.(toClient := s.toClient + {Outgoing(Envelope(1, s.userPc.sid, []), s.userPc.cargo.origin)},
           userPc := Sending(s.userPc.sid, s.userPc.cargo))
      else s
    case SendData =>
      if s.userPc.Sending?
      then
        var c := s.userPc.cargo;
        s.(toClient := s.toClient + {Outgoing(Envelope(2, s.userPc.sid, c.data), c.origin)}, userPc := Idle)
      else s
    case ClientReceive(p, dialled) =>
      if p in s.toClient && s.clientPc.Ready? then OnClientReceive(s, p, dialled) else s
    case ClientWrite =>
      if s.clientPc.Writing? && s.clientPc.socket < |s.backends| then
        var k := s.clientPc.socket;
        var b := s.backends[k];
        s.(backends := if b.open then s.backends[k := b.(writes := b.writes + [s.clientPc.cargo])] else s.backends,
        clientPc := Ready)
      else s
    case BackendData(k, data) =>
      if k < |s.backends| && data != []
      then s.(toServer := s.toServer + {Packet(Envelope(2, s.backends[k].sid, data), k)})
      else s
    case BackendGone(k) =>
      if k < |s.backends| then
        var sid := s.backends[k].sid;
        CloseBackend(s, sid).(toServer := s.toServer + {Packet(Envelope(3, sid, []), k)})
      else s
    case ServerReceive(p) => if p in s.toServer && s.channelPc.Waiting? then OnServerReceive(s, p) else s
    case ServerReply =>
      if s.channelPc.Replying?
      then s.(replies := s.replies + [s.channelPc.reply], channelPc := Touching(s.channelPc.sid))
      else s
    case ServerTouch(now) =>
      if s.channelPc.Touching?
      then s.(table := Touch(s.table, s.channelPc.sid, now), channelPc := Waiting)
      else s
    case Cleanup(now) => s.(table := Expire(s.table, now))
  }

  /** The state after a run. */
  function Exec(events: seq<Event>): State
  {
    if events == [] then Start else Apply(Exec(events[..|events| - 1]), events[|events| - 1])
  }

  // What every step keeps.

  /** The cargo is, byte for byte, a datagram of the user that sid was given to. */
  predicate From(s: State, sid: Sid, c: Cargo)
  {
    sid in s.owner && c.origin < |s.received| && s.received[c.origin] == Datagram(s.owner[sid], c.data)
  }

  /** The server: the table agrees with the history of ids. */
  ghost predicate ServerInv(s: State)
  {
    && Inverse(s.table)
    && s.table.counter == s.created % 0x1_0000_0000_0000_0000 && s.created <= TWO_64
    && OwnersAgree(s.table, s.owner)
    && LaterIdsUnused(s.owner, s.created)
    && (!s.userPc.Idle? ==> From(s, s.userPc.sid, s.userPc.cargo))
  }

  ghost predicate OwnersAgree(t: Table, owner: map<Sid, Addr>)
  {
    forall sid :: sid in t.sessions ==> sid in owner && owner[sid] == t.sessions[sid].user
  }

  ghost predicate LaterIdsUnused(owner: map<Sid, Addr>, created: nat)
  {
    forall n :: created < n <= TWO_64 ==> IdOf(n) !in owner
  }

  /** The client: sockets belong to their session and carry only its owner's data. */
  ghost predicate ClientInv(s: State)
  {
    && (forall p :: p in s.toClient ==>
                      p.env.sid in s.owner && (p.env.kind == 2 ==> From(s, p.env.sid, Cargo(p.env.data, p.origin))))
    && (forall sid :: sid in s.udpSessions ==>
                        s.udpSessions[sid] < |s.backends| && s.backends[s.udpSessions[sid]].sid == sid
                        && s.backends[s.udpSessions[sid]].open)
    && (forall k :: 0 <= k < |s.backends| ==> s.backends[k].sid in s.owner)
    && (forall k, i :: 0 <= k < |s.backends| && 0 <= i < |s.backends[k].writes| ==>
                         From(s, s.backends[k].sid, s.backends[k].writes[i]))
    && (s.clientPc.Writing? ==>
          s.clientPc.socket < |s.backends| && From(s, s.backends[s.clientPc.socket].sid, s.clientPc.cargo))
  }

  /** A reply goes to the owner of the session its socket was opened for. */
  predicate RoutedHome(s: State, r: Reply)
  {
    r.socket < |s.backends| && s.backends[r.socket].sid in s.owner && s.owner[s.backends[r.socket].sid] == r.user
  }

  ghost predicate ReplyInv(s: State)
  {
    && (forall p :: p in s.toServer ==> p.socket < |s.backends| && s.backends[p.socket].sid == p.env.sid)
    && (s.channelPc.Replying? ==> RoutedHome(s, s.channelPc.reply))
    && (forall i :: 0 <= i < |s.replies| ==> RoutedHome(s, s.replies[i]))
  }

  ghost predicate Inv(s: State)
  {
    ServerInv(s) && ClientInv(s) && ReplyInv(s)
  }

  /** History only grows: an id never changes owner, a socket never changes session. */
  ghost predicate Extends(s: State, s': State)
  {
    && (forall sid :: sid in s.owner ==> sid in s'.owner && s'.owner[sid] == s.owner[sid])
    && s.received <= s'.received  // a prefix
    && |s.backends| <= |s'.backends|
    && (forall k :: 0 <= k < |s.backends| ==> s'.backends[k].sid == s.backends[k].sid)
  }

  /** The id of a new session was never given out before, and the counter's later ids stay unused. */
  lemma NextIdIsNew(s: State)
    requires ServerInv(s) && s.created + 1 <= TWO_64
    ensures NextId(s.table) == IdOf(s.created + 1) && NextId(s.table) !in s.owner
    ensures forall n :: s.created + 1 < n <= TWO_64 ==> IdOf(n) != NextId(s.table)
  {
    hide Inverse, SessionId;
    CounterIsNext(s.table, s.created);
    hide NextId, IdOf;
    forall n | s.created + 1 < n <= TWO_64
      ensures IdOf(n) != NextId(s.table)
    {
      IdOfInjective(n, s.created + 1);
    }
  }

  lemma CounterIsNext(t: Table, created: nat)
    requires t.counter == created % 0x1_0000_0000_0000_0000
    ensures NextCounter(t) == (created + 1) % 0x1_0000_0000_0000_0000 && NextId(t) == IdOf(created + 1)
  {
    hide SessionId;
    SumTruncates(created, 1);
  }

  // Frames: what a step does not touch keeps its part of the invariant.

  lemma ServerFrame(s: State, s': State)
    requires ServerInv(s) && s'.table == s.table && s'.userPc == s.userPc
    requires s'.owner == s.owner && s'.created == s.created && s'.received == s.received
    ensures ServerInv(s')
  {
    hide Inverse, SessionId;
  }

  lemma ClientFrame(s: State, s': State)
    requires ClientInv(s) && Extends(s, s')
    requires s'.toClient == s.toClient && s'.udpSessions == s.udpSessions && s'.backends == s.backends
    requires s'.clientPc == s.clientPc
    ensures ClientInv(s')
  {
  }

  lemma ReplyFrame(s: State, s': State)
    requires ReplyInv(s) && Extends(s, s')
    requires s'.toServer == s.toServer && s'.channelPc == s.channelPc && s'.replies == s.replies
    ensures ReplyInv(s')
  {
  }

  // The server's steps.

  lemma DatagramKeeps(s: State, user: Addr, data: seq<byte>, now: int)
    requires Inv(s) && OnDatagram(s, user, data, now).created <= TWO_64
    ensures Inv(OnDatagram(s, user, data, now)) && Extends(s, OnDatagram(s, user, data, now))
  {
    hide ServerInv, ClientInv, ReplyInv;
    if user in s.table.addrIndex {
      ReuseServer(s, user, data, now);
    } else {
      CreateServer(s, user, data, now);
    }
    ClientFrame(s, OnDatagram(s, user, data, now));
    ReplyFrame(s, OnDatagram(s, user, data, now));
  }

  lemma ReuseServer(s: State, user: Addr, data: seq<byte>, now: int)
    requires ServerInv(s) && user in s.table.addrIndex
    ensures ServerInv(OnDatagram(s, user, data, now)) && Extends(s, OnDatagram(s, user, data, now))
  {
    hide SessionId;
    ReuseKeepsInverse(s.table, user, now);
  }

  lemma CreateServer(s: State, user: Addr, data: seq<byte>, now: int)
    requires ServerInv(s) && user !in s.table.addrIndex && s.created + 1 <= TWO_64
    ensures ServerInv(OnDatagram(s, user, data, now)) && Extends(s, OnDatagram(s, user, data, now))
  {
    NextIdIsNew(s);
    CreateKeepsInverse(s.table, user, now);
    CreateShape(s, user, data, now);
    CreateExtends(s, user, data, now);
    CreateOwners(s, user, now);
    hide SessionId, Inverse, NextId, Extends, LaterIdsUnused, OwnersAgree, OnDatagram, GetOrCreate;
  }

  lemma CreateShape(s: State, user: Addr, data: seq<byte>, now: int)
    requires user !in s.table.addrIndex && s.table.counter == s.created % 0x1_0000_0000_0000_0000
    ensures var s', t, sid := OnDatagram(s, user, data, now), GetOrCreate(s.table, user, now).0, NextId(s.table);
            && s'.table == t && s'.created == s.created + 1
            && t.counter == s'.created % 0x1_0000_0000_0000_0000
            && s'.owner == s.owner[sid := user]
            && s'.userPc == Registering(sid, Cargo(data, |s.received|))
            && s'.received == s.received + [Datagram(user, data)]
  {
    CounterIsNext(s.table, s.created);
    hide SessionId;
  }

  lemma CreateOwners(s: State, user: Addr, now: int)
    requires user !in s.table.addrIndex && OwnersAgree(s.table, s.owner) && LaterIdsUnused(s.owner, s.created)
    requires forall n :: s.created + 1 < n <= TWO_64 ==> IdOf(n) != NextId(s.table)
    ensures OwnersAgree(GetOrCreate(s.table, user, now).0, s.owner[NextId(s.table) := user])
    ensures LaterIdsUnused(s.owner[NextId(s.table) := user], s.created + 1)
  {
    hide SessionId, NextId;
  }

  /** Creating a session keeps every id with its first user exactly when the new id was never given to another. */
  lemma CreateExtends(s: State, user: Addr, data: seq<byte>, now: int)
    requires user !in s.table.addrIndex
    ensures Extends(s, OnDatagram(s, user, data, now))
       <==> (NextId(s.table) in s.owner ==> s.owner[NextId(s.table)] == user)
  {
    hide SessionId, NextId;
    assert OnDatagram(s, user, data, now).owner == s.owner[NextId(s.table) := user];
  }

  lemma SendKeeps(s: State, kind: byte, data: seq<byte>, pc: UserPc)
    requires Inv(s) && !s.userPc.Idle? && (kind == 2 ==> data == s.userPc.cargo.data)
    requires pc.Idle? || (pc.sid == s.userPc.sid && pc.cargo == s.userPc.cargo)
    ensures var p := Outgoing(Envelope(kind, s.userPc.sid, data), s.userPc.cargo.origin);
            var s' := s.(toClient := s.toClient + {p}, userPc := pc);
            Inv(s') && Extends(s, s')
  {
    hide Inverse, SessionId, ReplyInv;
    var p := Outgoing(Envelope(kind, s.userPc.sid, data), s.userPc.cargo.origin);
    ReplyFrame(s, s.(toClient := s.toClient + {p}, userPc := pc));
  }

  lemma TableStepKeeps(s: State, t: Table)
    requires Inv(s) && Inverse(t) && t.counter == s.table.counter
    requires forall sid :: sid in t.sessions ==>
                             sid in s.table.sessions && t.sessions[sid].user == s.table.sessions[sid].user
    ensures Inv(s.(table := t))
  {
    hide Inverse, SessionId, ClientInv, ReplyInv;
    ClientFrame(s, s.(table := t));
    ReplyFrame(s, s.(table := t));
  }

  lemma CloseSessionKeeps(s: State, sid: Sid)
    requires Inv(s)
    ensures Inv(s.(table := Close(s.table, sid)))
  {
    hide ClientInv, ReplyInv;
    CloseKeepsInverse(s.table, sid);
    TableStepKeeps(s, Close(s.table, sid));
  }

  lemma TouchKeeps(s: State, sid: Sid, now: int)
    requires Inv(s)
    ensures Inv(s.(table := Touch(s.table, sid, now)))
  {
    hide ClientInv, ReplyInv;
    TableStepKeeps(s, Touch(s.table, sid, now));
  }

  lemma CleanupKeeps(s: State, now: int)
    requires Inv(s)
    ensures Inv(s.(table := Expire(s.table, now)))
  {
    hide ClientInv, ReplyInv;
    ExpireKeepsInverse(s.table, now);
    TableStepKeeps(s, Expire(s.table, now));
  }

  lemma ChannelKeeps(s: State, pc: ChannelPc, replies: seq<Reply>)
    requires Inv(s) && (pc.Replying? ==> RoutedHome(s, pc.reply))
    requires forall i :: 0 <= i < |replies| ==> RoutedHome(s, replies[i])
    ensures Inv(s.(channelPc := pc, replies := replies))
  {
    hide Inverse, SessionId, ServerInv, ClientInv;
    ServerFrame(s, s.(channelPc := pc, replies := replies));
    ClientFrame(s, s.(channelPc := pc, replies := replies));
  }

  lemma ServerReceiveKeeps(s: State, p: Packet)
    requires Inv(s) && p in s.toServer
    ensures Inv(OnServerReceive(s, p)) && Extends(s, OnServerReceive(s, p))
  {
    hide Close, Inverse, SessionId, ClientInv;
    var sid := p.env.sid;
    CloseSessionKeeps(s, sid);
    if sid in s.table.sessions {
      ChannelKeeps(s, Replying(sid, Reply(s.table.sessions[sid].user, p.env.data, p.socket)), s.replies);
    }
  }

  // The client's steps.

  lemma BackendsKeep(s: State, s': State)
    requires Inv(s) && ClientInv(s') && Extends(s, s')
    requires s'.table == s.table && s'.userPc == s.userPc && s'.owner == s.owner
    requires s'.created == s.created && s'.received == s.received
    requires s'.toServer == s.toServer && s'.channelPc == s.channelPc && s'.replies == s.replies
    ensures Inv(s')
  {
    hide ServerInv, ClientInv, ReplyInv;
    ServerFrame(s, s');
    ReplyFrame(s, s');
  }

  lemma CloseBackendKeeps(s: State, sid: Sid)
    requires Inv(s)
    ensures Inv(CloseBackend(s, sid)) && Extends(s, CloseBackend(s, sid))
    ensures CloseBackend(s, sid).toServer == s.toServer && CloseBackend(s, sid).created == s.created
  {
    hide ServerInv, ReplyInv;
    BackendsKeep(s, CloseBackend(s, sid));
  }

  lemma OpenBackendKeeps(s: State, sid: Sid, dialled: bool)
    requires Inv(s) && sid in s.owner
    ensures var (s', k) := OpenBackend(s, sid, dialled);
            Inv(s') && Extends(s, s') && (k.Some? ==> k.value < |s'.backends| && s'.backends[k.value].sid == sid)
  {
    hide ServerInv, ReplyInv;
    BackendsKeep(s, OpenBackend(s, sid, dialled).0);
  }

  lemma ClientReceiveKeeps(s: State, p: Outgoing, dialled: bool)
    requires Inv(s) && p in s.toClient
    ensures Inv(OnClientReceive(s, p, dialled)) && Extends(s, OnClientReceive(s, p, dialled))
  {
    var env := p.env;
    hide ServerInv, ReplyInv, OpenBackend, CloseBackend;
    CloseBackendKeeps(s, env.sid);
    OpenBackendKeeps(s, env.sid, dialled);
    var (s1, k) := OpenBackend(s, env.sid, dialled);
    if env.kind == 2 && k.Some? {
      BackendsKeep(s1, s1.(clientPc := Writing(k.value, Cargo(env.data, p.origin))));
    }
  }

  lemma ClientWriteKeeps(s: State)
    requires Inv(s)
    ensures Inv(Apply(s, ClientWrite)) && Extends(s, Apply(s, ClientWrite))
  {
    hide ServerInv, ReplyInv;
    BackendsKeep(s, Apply(s, ClientWrite));
  }

  /** A reader sends a packet that carries its own session. */
  lemma PacketKeeps(s: State, kind: byte, k: nat, data: seq<byte>)
    requires Inv(s) && k < |s.backends|
    ensures Inv(s.(toServer := s.toServer + {Packet(Envelope(kind, s.backends[k].sid, data), k)}))
  {
    hide ServerInv, ClientInv;
    var s' := s.(toServer := s.toServer + {Packet(Envelope(kind, s.backends[k].sid, data), k)});
    ServerFrame(s, s');
    ClientFrame(s, s');
  }

  /** Every step keeps the invariant and only extends the history. */
  lemma StepKeeps(s: State, e: Event)
    requires Inv(s) && Apply(s, e).created <= TWO_64
    ensures Inv(Apply(s, e)) && Extends(s, Apply(s, e))
  {
    hide ServerInv, ClientInv, OnDatagram, OnClientReceive, OnServerReceive, Touch, Expire, CloseBackend;
    match e
    case Arrive(user, data, now) =>
      if s.userPc.Idle? && data != [] {
        DatagramKeeps(s, user, data, now);
      }
    case SendReg =>
      if s.userPc.Registering? {
        SendKeeps(s, 1, [], Sending(s.userPc.sid, s.userPc.cargo));
      }
    case SendData =>
      if s.userPc.Sending? {
        SendKeeps(s, 2, s.userPc.cargo.data, Idle);
      }
    case ClientReceive(p, dialled) =>
      if p in s.toClient {
        ClientReceiveKeeps(s, p, dialled);
      }
    case ClientWrite =>
      ClientWriteKeeps(s);
    case BackendData(k, data) =>
      if k < |s.backends| {
        PacketKeeps(s, 2, k, data);
      }
    case BackendGone(k) =>
      if k < |s.backends| {
        CloseBackendKeeps(s, s.backends[k].sid);
        PacketKeeps(CloseBackend(s, s.backends[k].sid), 3, k, []);
      }
    case ServerReceive(p) =>
      if p in s.toServer {
        ServerReceiveKeeps(s, p);
      }
    case ServerReply =>
      if s.channelPc.Replying? {
        ChannelKeeps(s, Touching(s.channelPc.sid), s.replies + [s.channelPc.reply]);
      }
    case ServerTouch(now) =>
      if s.channelPc.Touching? {
        TouchKeeps(s, s.channelPc.sid, now);
        ChannelKeeps(s.(table := Touch(s.table, s.channelPc.sid, now)), Waiting, s.replies);
      }
    case Cleanup(now) =>
      CleanupKeeps(s, now);
  }

  lemma CreatedMonotone(s: State, e: Event)
    ensures s.created <= Apply(s, e).created
  {
  }

  /** The invariant holds in every state of every run that creates at most 2^64 sessions. */
  lemma {:induction false} RunKeeps(events: seq<Event>)
    requires Exec(events).created <= TWO_64
    ensures Inv(Exec(events))
  {
    if events != [] {
      var before, e := events[..|events| - 1], events[|events| - 1];
      CreatedMonotone(Exec(before), e);
      RunKeeps(before);
      StepKeeps(Exec(before), e);
    }
  }

  /** Routing safety: after any run, every reply that reached a user came from a socket opened for a session
      given to that user, and everything written to that socket was a datagram of that user. */
  lemma RoutingSafety(events: seq<Event>, i: nat)
    requires Exec(events).created <= TWO_64
    requires i < |Exec(events).replies|
    ensures var s := Exec(events);
            var r := s.replies[i];
            RoutedHome(s, r) &&
            forall j :: 0 <= j < |s.backends[r.socket].writes| ==>
                          var w := s.backends[r.socket].writes[j];
                          w.origin < |s.received| && s.received[w.origin] == Datagram(r.user, w.data)
  {
    RunKeeps(events);
  }

  /** Two users never share a backend socket: whatever is written to it and whatever is answered from it
      belongs to one user, the one its session was given to. */
  lemma NoSharedBackend(events: seq<Event>, k: nat)
    requires Exec(events).created <= TWO_64 && k < |Exec(events).backends|
    ensures var s := Exec(events);
            var b := s.backends[k];
            && b.sid in s.owner
            && (forall j :: 0 <= j < |b.writes| ==>
                              b.writes[j].origin < |s.received| && s.received[b.writes[j].origin].user == s.owner[b.sid])
            && (forall i :: 0 <= i < |s.replies| && s.replies[i].socket == k ==> s.replies[i].user == s.owner[b.sid])
  {
    RunKeeps(events);
  }

  /** Over a longer run an id keeps its owner and a socket its session: a stale id never names another user. */
  lemma {:induction false} HistoryOnlyGrows(events: seq<Event>, n: nat)
    requires n <= |events| && Exec(events).created <= TWO_64
    ensures Extends(Exec(events[..n]), Exec(events))
  {
    if n < |events| {
      var before, e := events[..|events| - 1], events[|events| - 1];
      CreatedMonotone(Exec(before), e);
      RunKeeps(before);
      HistoryOnlyGrows(before, n);
      StepKeeps(Exec(before), e);
      assert before[..n] == events[..n];
    } else {
      assert events[..n] == events;
    }
  }

  /** The live table agrees with that history. */
  lemma SessionsAgreeWithHistory(events: seq<Event>, sid: Sid)
    requires Exec(events).created <= TWO_64 && sid in Exec(events).table.sessions
    ensures var s := Exec(events);
            sid in s.owner && s.owner[sid] in s.table.addrIndex &&
            s.table.sessions[sid].user == s.owner[sid] && s.table.addrIndex[s.owner[sid]] == sid
  {
    RunKeeps(events);
  }

  // The ids of a whole run, of any length.

  /** The event creates a session. */
  predicate Creates(s: State, e: Event)
  {
    e.Arrive? && s.userPc.Idle? && e.data != [] && e.user !in s.table.addrIndex
  }

  /** The ids given out, in order. */
  function Ids(events: seq<Event>): seq<Sid>
  {
    if events == [] then []
    else
      var before, e := events[..|events| - 1], events[|events| - 1];
      if Creates(Exec(before), e) then Ids(before) + [GetOrCreate(Exec(before).table, e.user, e.now).1]
      else Ids(before)
  }

  lemma StepCounts(s: State, e: Event)
    requires s.table.counter == s.created % 0x1_0000_0000_0000_0000
    ensures var s' := Apply(s, e);
            && s'.created == s.created + (if Creates(s, e) then 1 else 0)
            && s'.table.counter == s'.created % 0x1_0000_0000_0000_0000
  {
    CounterIsNext(s.table, s.created);
    hide SessionId;
  }

  /** In every run the k-th session gets the id of k, whatever was closed or cleaned up in between. */
  lemma {:induction false} IdsOverHistory(events: seq<Event>)
    ensures |Ids(events)| == Exec(events).created
    ensures Exec(events).table.counter == Exec(events).created % 0x1_0000_0000_0000_0000
    ensures forall k :: 0 <= k < |Ids(events)| ==> Ids(events)[k] == IdOf(k + 1)
  {
    if events != [] {
      var before, e := events[..|events| - 1], events[|events| - 1];
      IdsOverHistory(before);
      StepCounts(Exec(before), e);
      CounterIsNext(Exec(before).table, Exec(before).created);
      hide SessionId, IdOf, Apply;
    }
  }

  /** So no id is ever given out twice exactly when the run creates at most 2^64 sessions. */
  lemma IdsDistinctExactly(events: seq<Event>)
    ensures (forall i, j :: 0 <= i < j < |Ids(events)| ==> Ids(events)[i] != Ids(events)[j])
       <==> Exec(events).created <= TWO_64
  {
    IdsOverHistory(events);
    hide Ids, Exec, SessionId, IdOf;
    var ids := Ids(events);
    if |ids| <= TWO_64 {
      forall i, j | 0 <= i < j < |ids|
        ensures ids[i] != ids[j]
      {
        IdOfInjective(i + 1, j + 1);
      }
    } else {
      IdOfInjective(1, TWO_64 + 1);
      assert ids[0] == IdOf(0 + 1) && ids[TWO_64] == IdOf(TWO_64 + 1);
      assert ids[0] == ids[TWO_64];
    }
  }

  // What gets through when the network delivers.

  /** The server's part for one datagram: look up or create the session, then send. */
  function ServerSends(s: State, user: Addr, data: seq<byte>, now: int): State
  {
    Apply(Apply(Apply(s, Arrive(user, data, now)), SendReg), SendData)
  }

  lemma ServerSendsPacket(s: State, user: Addr, data: seq<byte>, now: int)
    requires Inv(s) && s.created + 1 <= TWO_64 && s.userPc.Idle? && data != []
    ensures var sid, s' := GetOrCreate(s.table, user, now).1, ServerSends(s, user, data, now);
            && Inv(s') && s'.userPc.Idle?
            && Outgoing(Envelope(2, sid, data), |s.received|) in s'.toClient
            && (user !in s.table.addrIndex ==> Outgoing(Envelope(1, sid, []), |s.received|) in s'.toClient)
            && s'.clientPc == s.clientPc && s'.channelPc == s.channelPc && s'.table == GetOrCreate(s.table, user, now).0
            && s'.owner == (if user in s.table.addrIndex then s.owner else s.owner[sid := user])
  {
    var s1 := Apply(s, Arrive(user, data, now));
    StepKeeps(s, Arrive(user, data, now));
    StepKeeps(s1, SendReg);
    StepKeeps(Apply(s1, SendReg), SendData);
    hide Inv, GetOrCreate;
  }

  /** The client's part: find or open the backend, then write. */
  lemma ClientDelivers(s: State, p: Outgoing)
    requires ClientInv(s) && p in s.toClient && s.clientPc.Ready? && p.env.kind == 2 && p.env.data != []
    ensures var s' := Apply(Apply(s, ClientReceive(p, true)), ClientWrite);
            && Delivered(s', p.env.sid, Cargo(p.env.data, p.origin)) && s'.table == s.table
  {
    var s1 := Apply(s, ClientReceive(p, true));
    assert s1.clientPc.Writing? && s1.clientPc.cargo == Cargo(p.env.data, p.origin);
    var k := s1.clientPc.socket;
    assert p.env.sid in s1.udpSessions && s1.udpSessions[p.env.sid] == k;
    assert k < |s1.backends| && s1.backends[k].open && s1.backends[k].sid == p.env.sid;
    hide ClientInv, OnClientReceive, OpenBackend;
  }

  /** The cargo is the last thing written to the open socket of the session. */
  predicate Delivered(s: State, sid: Sid, c: Cargo)
  {
    && sid in s.udpSessions && s.udpSessions[sid] < |s.backends|
    && var b := s.backends[s.udpSessions[sid]];
    b.sid == sid && b.open && b.writes != [] && b.writes[|b.writes| - 1] == c
  }

  /** From any reachable state with the loops at rest, a datagram whose packet reaches the client, where
      dialling succeeds, is written to an open socket of the sender's session, and that session is live. */
  lemma DatagramArrives(events: seq<Event>, user: Addr, data: seq<byte>, now: int)
    requires Exec(events).created + 1 <= TWO_64 && data != []
    requires Exec(events).userPc.Idle? && Exec(events).clientPc.Ready?
    ensures var s := Exec(events);
            var sid := GetOrCreate(s.table, user, now).1;
            var p := Outgoing(Envelope(2, sid, data), |s.received|);
            var s' := Apply(Apply(ServerSends(s, user, data, now), ClientReceive(p, true)), ClientWrite);
            && sid in s'.table.sessions && s'.table.sessions[sid].user == user
            && Delivered(s', sid, Cargo(data, |s.received|))
  {
    RunKeeps(events);
    var s := Exec(events);
    SessionIsLive(s, user, now);
    ServerSendsPacket(s, user, data, now);
    var sid := GetOrCreate(s.table, user, now).1;
    ClientDelivers(ServerSends(s, user, data, now), Outgoing(Envelope(2, sid, data), |s.received|));
    hide ServerSends, GetOrCreate, ServerInv, ClientInv, ReplyInv, Exec, Apply, Delivered;
  }

  /** The registration of a new user's session, delivered where dialling succeeds, opens a socket for it. */
  lemma RegistrationOpens(events: seq<Event>, user: Addr, data: seq<byte>, now: int)
    requires Exec(events).created + 1 <= TWO_64 && data != [] && user !in Exec(events).table.addrIndex
    requires Exec(events).userPc.Idle? && Exec(events).clientPc.Ready?
    ensures var s := Exec(events);
            var sid := GetOrCreate(s.table, user, now).1;
            var p := Outgoing(Envelope(1, sid, []), |s.received|);
            var s' := Apply(ServerSends(s, user, data, now), ClientReceive(p, true));
            && p in ServerSends(s, user, data, now).toClient
            && sid in s'.udpSessions && s'.udpSessions[sid] < |s'.backends|
            && s'.backends[s'.udpSessions[sid]].sid == sid && s'.backends[s'.udpSessions[sid]].open
  {
    RunKeeps(events);
    var s := Exec(events);
    ServerSendsPacket(s, user, data, now);
    hide ServerSends, GetOrCreate, ServerInv, ReplyInv, Exec;
  }

  lemma SessionIsLive(s: State, user: Addr, now: int)
    requires Inv(s)
    ensures var (t, sid, _) := GetOrCreate(s.table, user, now);
            sid in t.sessions && t.sessions[sid].user == user
  {
    hide SessionId;
  }

  /** From any reachable state with the server at rest, an answer read from a socket whose session is live, and
      whose packet reaches the server, is written to the user that session was given to. */
  lemma AnswerArrives(events: seq<Event>, k: nat, answer: seq<byte>)
    requires Exec(events).created <= TWO_64 && Exec(events).channelPc.Waiting? && answer != []
    requires k < |Exec(events).backends| && Exec(events).backends[k].sid in Exec(events).table.sessions
    ensures var s := Exec(events);
            var sid := s.backends[k].sid;
            var p := Packet(Envelope(2, sid, answer), k);
            var s' := Apply(Apply(Apply(s, BackendData(k, answer)), ServerReceive(p)), ServerReply);
            && sid in s.owner && s'.replies == s.replies + [Reply(s.owner[sid], answer, k)]
            && s'.table == s.table && s'.backends == s.backends
  {
    SessionsAgreeWithHistory(events, Exec(events).backends[k].sid);
    hide Exec;
    var s := Exec(events);
    var p := Packet(Envelope(2, s.backends[k].sid, answer), k);
    assert p in Apply(s, BackendData(k, answer)).toServer;
  }

  /** From any reachable state with the server at rest, when a backend is gone and its notice is delivered, the
      session's present socket is closed, the id is in none of the maps, and no other session is touched. */
  lemma ByeCloses(events: seq<Event>, k: nat)
    requires Exec(events).created <= TWO_64 && Exec(events).channelPc.Waiting? && k < |Exec(events).backends|
    ensures var s := Exec(events);
            var sid := s.backends[k].sid;
            var s' := Apply(Apply(s, BackendGone(k)), ServerReceive(Packet(Envelope(3, sid, []), k)));
            && sid !in s'.udpSessions && sid !in s'.table.sessions
            && (forall u :: u in s'.table.addrIndex ==> s'.table.addrIndex[u] != sid)
            && (sid in s.udpSessions ==>
                  s.udpSessions[sid] < |s'.backends| && !s'.backends[s.udpSessions[sid]].open)
            && (forall x :: x != sid && x in s.table.sessions ==>
                              x in s'.table.sessions && s'.table.sessions[x] == s.table.sessions[x])
            && (forall x :: x != sid && x in s.udpSessions ==>
                              x in s'.udpSessions && s'.udpSessions[x] == s.udpSessions[x])
  {
    RunKeeps(events);
    var s := Exec(events);
    CloseKeepsInverse(s.table, s.backends[k].sid);
    hide Exec, ReplyInv;
    var s1 := Apply(s, BackendGone(k));
    assert s1.table == s.table && s1.channelPc == s.channelPc;
    assert Packet(Envelope(3, s.backends[k].sid, []), k) in s1.toServer;
    hide ServerInv, ClientInv, CloseBackend;
  }

  // Activity.

  /** The time of the last datagram or reply of a session, in a run. */
  function LastSeen(events: seq<Event>, sid: Sid): int
  {
    if events == [] then 0
    else
      var before, e := events[..|events| - 1], events[|events| - 1];
      var s := Exec(before);
      if e.Arrive? && s.userPc.Idle? && e.data != [] && GetOrCreate(s.table, e.user, e.now).1 == sid then e.now
      else if e.ServerTouch? && s.channelPc == Touching(sid) then e.now
      else LastSeen(before, sid)
  }

  lemma StepActivity(s: State, e: Event, sid: Sid)
    requires sid in Apply(s, e).table.sessions
    ensures var at := Apply(s, e).table.sessions[sid].lastActive;
            if e.Arrive? && s.userPc.Idle? && e.data != [] && GetOrCreate(s.table, e.user, e.now).1 == sid
            then at == e.now
            else if e.ServerTouch? && s.channelPc == Touching(sid) then at == e.now
              else sid in s.table.sessions && at == s.table.sessions[sid].lastActive
  {
    hide SessionId;
  }

  /** In every run, of any length, a live session was last active at its last datagram or reply. */
  lemma {:induction false} ActiveWhenSeen(events: seq<Event>, sid: Sid)
    requires sid in Exec(events).table.sessions
    ensures Exec(events).table.sessions[sid].lastActive == LastSeen(events, sid)
  {
    var before, e := events[..|events| - 1], events[|events| - 1];
    StepActivity(Exec(before), e, sid);
    if sid in Exec(before).table.sessions {
      ActiveWhenSeen(before, sid);
    }
    hide Apply, GetOrCreate;
  }

  /** So a pass of the cleanup keeps exactly the live sessions with a datagram or reply in the last five minutes. */
  lemma CleanupExactly(events: seq<Event>, now: int, sid: Sid)
    ensures sid in Exec(events + [Cleanup(now)]).table.sessions
       <==> sid in Exec(events).table.sessions && now - LastSeen(events, sid) <= 300
  {
    assert (events + [Cleanup(now)])[..|events|] == events;
    if sid in Exec(events).table.sessions {
      ActiveWhenSeen(events, sid);
    }
    hide LastSeen;
  }

  /** The client's Proxy fields that udpMu guards, and the critical sections over them. A socket is a number. */
  class BackendTable {
    var udpSessions: map<Sid, nat>
    var backends: seq<Backend>

    /** The fields in an otherwise initial state of the whole proxy. */
    function View(): State
      reads this
    {
      Start.(udpSessions := udpSessions, backends := backends)
    }

    ghost predicate Valid()
      reads this
    {
      forall sid :: sid in udpSessions ==>
                      udpSessions[sid] < |backends| && backends[udpSessions[sid]].sid == sid
    }

    constructor ()
      ensures View() == Start && Valid()
    {
      udpSessions, backends := map[], [];
    }

    method GetOrCreateBackend(sid: Sid, dialled: bool) returns (socket: Option<nat>)
      requires Valid()
      modifies this
      ensures Valid() && (View(), socket) == OpenBackend(old(View()), sid, dialled)
      ensures socket.Some? ==> socket.value < |backends| && backends[socket.value].sid == sid
    {
      if sid in udpSessions {
        return Some(udpSessions[sid]);
      }
      if !dialled {
        return None;
      }
      socket := Some(|backends|);
      udpSessions := udpSessions[sid := |backends|];
      backends := backends + [Backend(sid, true, [])];
    }

    method CloseBackendSession(sid: Sid)
      requires Valid()
      modifies this
      ensures Valid() && View() == CloseBackend(old(View()), sid)
      ensures sid !in udpSessions && |backends| == old(|backends|)
      ensures old(sid in udpSessions) ==> !backends[old(udpSessions[sid])].open
      ensures forall k :: 0 <= k < |backends| && !old(sid in udpSessions && udpSessions[sid] == k) ==>
                            backends[k] == old(backends[k])
    {
      if sid in udpSessions {
        var k := udpSessions[sid];
        backends := backends[k := backends[k].(open := false)];
        udpSessions := udpSessions - {sid};
      }
    }
  }
}
