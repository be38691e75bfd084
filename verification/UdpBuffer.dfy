/** sendUDPToClient and the flush in handleUDPDataChannel: envelopes wait in a bounded buffer until the client's
    address is known. One goroutine per proxy sends, one receives; steps are their critical sections. */
module UdpBuffer {
  import opened Bytes
  import opened Protocol
  import Auth

  const CAPACITY: nat := 1024
  const MAX_PACKET: nat := 65507

  /** Where the sending goroutine is inside sendUDPToClient. */
  datatype SenderPc =
    | Idle
    | Checked(env: Envelope)    // small enough, address not yet looked up
    | Buffering(env: Envelope)  // found no address, has not taken the write lock yet
    | Writing(env: Envelope)    // found the address

  datatype State = State(
    known: bool,                // clientDataAddr != nil
    pendingOut: seq<Envelope>,
    sender: SenderPc,
    held: seq<Envelope>,        // what the receiving goroutine took and has still to write
    // History: what was handed in, dropped, written by the receiving goroutine and written by the sending one.
    submitted: seq<Envelope>, oversize: seq<Envelope>, overflow: seq<Envelope>,
    flushed: seq<Envelope>, direct: seq<Envelope>)

  datatype Event =
    | Submit(env: Envelope)     // a call of sendUDPToClient
    | LookUp                    // read clientDataAddr under the read lock
    | Enqueue                   // append under the write lock, if there is room
    | Write                     // WriteToUDP by the sender
    | Arrive                    // a packet from the client: register its address, take the buffer
    | Flush                     // WriteToUDP of the next envelope taken

  const Start := State(false, [], Idle, [], [], [], [], [], [])

  /** The size of the signed packet. */
  function PacketSize(env: Envelope): nat { 40 + |Marshal(env)| }

  /** One step; an event that is not possible in the state changes nothing. */
  function Apply(s: State, e: Event): State
  {
    match e
    case Submit(env) =>
      if !s.sender.Idle? then s
      else if PacketSize(env) > MAX_PACKET
      then s.(submitted := s.submitted + [env], oversize := s.oversize + [env])
      else s.(submitted := s.submitted + [env], sender := Checked(env))
    case LookUp =>
      if !s.sender.Checked? then s
      else s.(sender := if s.known then Writing(s.sender.env) else Buffering(s.sender.env))
    case Enqueue =>
      if !s.sender.Buffering? then s
      else if |s.pendingOut| < CAPACITY
      then s.(pendingOut := s.pendingOut + [s.sender.env], sender := Idle)
      else s.(overflow := s.overflow + [s.sender.env], sender := Idle)
    case Write =>
      if !s.sender.Writing? then s
      else s.(direct := s.direct + [s.sender.env], sender := Idle)
    case Arrive =>
      if s.held != [] || s.known then s
      else s.(known := true, held := s.pendingOut, pendingOut := [])
    case Flush =>
      if s.held == [] then s
      else s.(flushed := s.flushed + [s.held[0]], held := s.held[1..])
  }

  function Exec(events: seq<Event>): State
  {
    if events == [] then Start else Apply(Exec(events[..|events| - 1]), events[|events| - 1])
  }

  /** How often x occurs in q. */
  function Count(q: seq<Envelope>, x: Envelope): nat
  {
    multiset(q)[x]
  }

  /** The envelope inside a running call, if any. */
  function InFlight(pc: SenderPc, x: Envelope): nat
  {
    if !pc.Idle? && pc.env == x then 1 else 0
  }

  function Written(s: State, x: Envelope): nat
  {
    Count(s.flushed, x) + Count(s.direct, x)
  }

  /** How many copies of x there are in all the places an envelope can be. */
  function Accounted(s: State, x: Envelope): nat
  {
    Count(s.oversize, x) + Count(s.overflow, x) + Count(s.pendingOut, x) + Count(s.held, x)
    + Written(s, x) + InFlight(s.sender, x)
  }

  /** Submitted envelopes are accounted for exactly once; the buffer is bounded; once the address is known at
      most one envelope is in the buffer or on its way there. */
  ghost predicate Inv(s: State)
  {
    && (forall x :: Accounted(s, x) == Count(s.submitted, x))
    && |s.pendingOut| <= CAPACITY
    && (s.known ==> |s.pendingOut| + (if s.sender.Buffering? then 1 else 0) <= 1)
    && (!s.known ==> s.held == s.flushed == s.direct == [] && !s.sender.Writing?)
  }

  lemma Snoc(q: seq<Envelope>, y: Envelope, x: Envelope)
    ensures Count(q + [y], x) == Count(q, x) + (if x == y then 1 else 0)
    ensures Count([y] + q, x) == Count(q, x) + (if x == y then 1 else 0)
  {
  }

  /** Each step moves at most one envelope, from one place to another. */
  lemma StepConserves(s: State, e: Event, x: Envelope)
    requires Accounted(s, x) == Count(s.submitted, x)
    ensures Accounted(Apply(s, e), x) == Count(Apply(s, e).submitted, x)
  {
    Empty(x);
    hide PacketSize, Count;
    match e
    case Submit(env) =>
      Snoc(s.submitted, env, x);
      Snoc(s.oversize, env, x);
    case Enqueue =>
      if s.sender.Buffering? {
        Snoc(s.pendingOut, s.sender.env, x);
        Snoc(s.overflow, s.sender.env, x);
      }
    case Write =>
      if s.sender.Writing? {
        Snoc(s.direct, s.sender.env, x);
      }
    case Flush =>
      if s.held != [] {
        assert s.held == [s.held[0]] + s.held[1..];
        Snoc(s.held[1..], s.held[0], x);
        Snoc(s.flushed, s.held[0], x);
      }
    case _ =>
  }

  lemma Empty(x: Envelope)
    ensures Count([], x) == 0
  {
  }

  lemma StepKeeps(s: State, e: Event)
    requires Inv(s)
    ensures Inv(Apply(s, e))
  {
    hide PacketSize, Accounted, Count;
    forall x
      ensures Accounted(Apply(s, e), x) == Count(Apply(s, e).submitted, x)
    {
      StepConserves(s, e, x);
    }
  }

  /** In every state of every run. */
  lemma {:induction false} RunKeeps(events: seq<Event>)
    ensures Inv(Exec(events))
  {
    if events != [] {
      RunKeeps(events[..|events| - 1]);
      StepKeeps(Exec(events[..|events| - 1]), events[|events| - 1]);
    }
  }

  /** Conservation, stated for one envelope: the copies submitted are the copies dropped, waiting, held, in the
      running call or written; nothing is written that was not submitted. */
  lemma Conservation(events: seq<Event>, env: Envelope)
    ensures var s := Exec(events);
            Count(s.submitted, env) ==
            Count(s.oversize, env) + Count(s.overflow, env) + Count(s.pendingOut, env) + Count(s.held, env)
            + Written(s, env) + InFlight(s.sender, env)
    ensures |Exec(events).pendingOut| <= 1024
  {
    RunKeeps(events);
    assert Accounted(Exec(events), env) == Count(Exec(events).submitted, env);
  }

  /** There is one flush: once the address is known it stays known and the buffer is never taken again, so what
      is in it is stranded; and that is never more than one envelope. */
  lemma {:induction false} StrandedForever(events: seq<Event>, n: nat)
    requires n <= |events| && Exec(events[..n]).known
    ensures Exec(events).known
    ensures Exec(events[..n]).pendingOut <= Exec(events).pendingOut
    ensures |Exec(events).pendingOut| <= 1
  {
    hide Accounted, PacketSize;
    RunKeeps(events);
    if n < |events| {
      var before := events[..|events| - 1];
      assert before[..n] == events[..n];
      StrandedForever(before, n);
    } else {
      assert events[..n] == events;
    }
  }

  /** What the registration at n decides for the rest of the run: whether the buffer takes one more envelope. */
  lemma {:induction false} AfterRegistration(events: seq<Event>, n: nat)
    requires n < |events| && !Exec(events[..n]).known && events[n] == Arrive
    ensures Settled(Exec(events[..n]).sender, Exec(events))
  {
    hide Settled, Inv;
    var rest := events[..|events| - 1];
    if n == |events| - 1 {
      RunKeeps(rest);
      RegistrationSettles(Exec(rest));
    } else {
      assert rest[..n] == events[..n];
      AfterRegistration(rest, n);
      StepSettles(Exec(rest[..n]).sender, Exec(rest), events[|events| - 1]);
    }
  }

  /** The address is known, and the sender was at pc when it came to be known. */
  ghost predicate Settled(pc: SenderPc, s: State)
  {
    && s.known
    && if pc.Buffering?
       then (s.sender == pc && s.pendingOut == []) || (!s.sender.Buffering? && s.pendingOut == [pc.env])
       else !s.sender.Buffering? && s.pendingOut == []
  }

  lemma RegistrationSettles(s: State)
    requires Inv(s) && !s.known
    ensures Settled(s.sender, Apply(s, Arrive))
  {
    hide Accounted;
  }

  lemma StepSettles(pc: SenderPc, s: State, e: Event)
    requires Settled(pc, s)
    ensures Settled(pc, Apply(s, e))
  {
    hide PacketSize;
  }

  /** The one registration of a run in whose last state the address is known. */
  lemma {:induction false} Registration(events: seq<Event>) returns (n: nat)
    requires Exec(events).known
    ensures n < |events| && !Exec(events[..n]).known && events[n] == Arrive
    ensures forall m :: n < m <= |events| ==> Exec(events[..m]).known
  {
    var last := |events| - 1;
    assert events[..|events|] == events;
    if !Exec(events[..last]).known {
      n := last;
    } else {
      n := Registration(events[..last]);
      forall m | n < m <= |events|
        ensures Exec(events[..m]).known
      {
        if m < |events| {
          assert events[..last][..m] == events[..m];
        }
      }
      assert events[..last][..n] == events[..n];
    }
  }

  /** When an envelope is stranded, exactly: the sender had found no address and not yet appended when the
      client registered. Until that call ends the buffer is empty, ever after it holds that envelope; in every
      other run it stays empty. */
  lemma StrandedExactly(events: seq<Event>) returns (n: nat)
    requires Exec(events).known
    ensures n < |events| && !Exec(events[..n]).known && Exec(events[..n + 1]).known
    ensures var before, s := Exec(events[..n]).sender, Exec(events);
            && (s.pendingOut == [] <==> !before.Buffering? || s.sender == before)
            && forall env :: s.pendingOut == [env] <==> before == Buffering(env) && s.sender != before
  {
    n := Registration(events);
    AfterRegistration(events, n);
  }

  /** So once the address is known and both goroutines are at rest, every envelope that was not dropped has been
      written, except one copy of what the sender was about to append when the client registered. */
  lemma WrittenExactly(events: seq<Event>, env: Envelope) returns (n: nat)
    requires Exec(events).known && Exec(events).sender.Idle? && Exec(events).held == []
    ensures n < |events| && !Exec(events[..n]).known && Exec(events[..n + 1]).known
    ensures var s := Exec(events);
            Written(s, env) + Count(s.oversize, env) + Count(s.overflow, env)
            == Count(s.submitted, env) - if Exec(events[..n]).sender == Buffering(env) then 1 else 0
  {
    n := Registration(events);
    AfterRegistration(events, n);
    Conservation(events, env);
    OneOf(Exec(events).pendingOut, env);
    Empty(env);
    hide Exec, Count;
  }

  lemma OneOf(q: seq<Envelope>, x: Envelope)
    ensures |q| == 1 ==> Count(q, x) == if q[0] == x then 1 else 0
  {
    if |q| == 1 {
      assert q == [q[0]];
    }
  }

  // Order.

  /** The envelopes handed in: calls made while no call is running. */
  function Submitted(events: seq<Event>): seq<Envelope>
  {
    if events == [] then []
    else
      var before, e := events[..|events| - 1], events[|events| - 1];
      if e.Submit? && Exec(before).sender.Idle? then Submitted(before) + [e.env] else Submitted(before)
  }

  /** Signature, timestamp, kind, id length, id and data fit a datagram. */
  predicate Fits(env: Envelope) { 32 + 8 + 1 + 2 + |env.sid| + |env.data| <= 65507 }

  /** That is the size of the signed packet. */
  lemma FitsExactly(mac: Auth.Mac, ts: nat, env: Envelope)
    ensures Fits(env) <==> |Auth.Signed(mac, ts, Marshal(env))| <= 65507
    ensures Fits(env) <==> PacketSize(env) <= MAX_PACKET
  {
    hide BigEndian;
  }

  function Fitting(q: seq<Envelope>): seq<Envelope>
  {
    if q == [] then []
    else Fitting(q[..|q| - 1]) + if Fits(q[|q| - 1]) then [q[|q| - 1]] else []
  }

  function Oversized(q: seq<Envelope>): seq<Envelope>
  {
    if q == [] then []
    else Oversized(q[..|q| - 1]) + if Fits(q[|q| - 1]) then [] else [q[|q| - 1]]
  }

  lemma FilterSnoc(q: seq<Envelope>, x: Envelope)
    ensures Fitting(q + [x]) == Fitting(q) + (if Fits(x) then [x] else [])
    ensures Oversized(q + [x]) == Oversized(q) + (if Fits(x) then [] else [x])
  {
    assert (q + [x])[..|q|] == q;
  }

  /** The envelope of the running call. */
  function Running(pc: SenderPc): seq<Envelope> { if pc.Idle? then [] else [pc.env] }

  /** The same, if it is not on its way to the buffer. */
  function Going(pc: SenderPc): seq<Envelope> { if pc.Checked? || pc.Writing? then [pc.env] else [] }

  ghost predicate Sorted(s: State)
  {
    && s.oversize == Oversized(s.submitted)
    && (!s.known ==>
          && s.pendingOut + s.overflow + Running(s.sender) == Fitting(s.submitted)
          && (s.overflow != [] ==> |s.pendingOut| == 1024))
  }

  lemma StepSorts(s: State, e: Event)
    requires Sorted(s) && Inv(s)
    ensures Sorted(Apply(s, e))
  {
    match e
    case Submit(env) =>
      FilterSnoc(s.submitted, env);
      FitsIsSmall(env);
      hide Accounted, PacketSize, Fitting, Oversized, Fits;
    case Enqueue =>
      if s.sender.Buffering? {
        Append(s.pendingOut, s.overflow, s.sender.env);
      }
      hide Accounted, Fitting, Oversized;
    case _ =>
      hide Accounted, Fitting, Oversized;
  }

  /** What goes to the end of the buffer, or of what was dropped, was last. */
  lemma Append(q: seq<Envelope>, dropped: seq<Envelope>, env: Envelope)
    ensures q + (dropped + [env]) + [] == q + dropped + [env]
    ensures dropped == [] ==> (q + [env]) + dropped + [] == q + dropped + [env]
  {
  }

  lemma FitsIsSmall(env: Envelope)
    ensures Fits(env) <==> PacketSize(env) <= MAX_PACKET
  {
  }

  lemma {:induction false} RunSorts(events: seq<Event>)
    ensures Sorted(Exec(events)) && Exec(events).submitted == Submitted(events)
  {
    if events != [] {
      var before := events[..|events| - 1];
      RunSorts(before);
      RunKeeps(before);
      StepSorts(Exec(before), events[|events| - 1]);
      StepSubmits(Exec(before), events[|events| - 1]);
      hide Sorted, Inv, Apply;
    }
  }

  lemma StepSubmits(s: State, e: Event)
    ensures Apply(s, e).submitted == if e.Submit? && s.sender.Idle? then s.submitted + [e.env] else s.submitted
  {
    hide PacketSize;
  }

  /** Before the address is known: the envelopes that fit a datagram are, in the order they were handed in, the
      buffer, then what was dropped because 1024 were waiting, then the one in the running call. What does not
      fit is dropped, at any time. */
  lemma WaitsInOrder(events: seq<Event>)
    ensures Exec(events).oversize == Oversized(Submitted(events))
    ensures var s := Exec(events);
            !s.known ==>
              && s.pendingOut + s.overflow + Running(s.sender) == Fitting(Submitted(events))
              && |s.pendingOut| <= 1024 && (s.overflow != [] ==> |s.pendingOut| == 1024)
              && s.flushed == s.direct == []
  {
    RunSorts(events);
    RunKeeps(events);
  }

  /** How many of the fitting envelopes were dealt with, or bound for the buffer, in a state without address. */
  function Dealt(s: State): nat
  {
    if s.sender.Checked? && Fitting(s.submitted) != [] then |Fitting(s.submitted)| - 1 else |Fitting(s.submitted)|
  }

  /** s follows the registration in q. */
  ghost predicate Follows(q: State, s: State)
  {
    && s.flushed + s.held == q.pendingOut && s.overflow == q.overflow
    && |s.pendingOut| <= 1 && s.known
    && Dealt(q) <= |Fitting(s.submitted)| && s.direct + Going(s.sender) == Fitting(s.submitted)[Dealt(q)..]
  }

  lemma RegistrationFollows(q: State)
    requires Sorted(q) && Inv(q) && !q.known
    ensures Follows(q, Apply(q, Arrive))
  {
    hide Fitting, Oversized, Accounted;
  }

  lemma StepFollows(q: State, s: State, e: Event)
    requires Follows(q, s) && Inv(Apply(s, e))
    ensures Follows(q, Apply(s, e))
  {
    if e.Submit? {
      FilterSnoc(s.submitted, e.env);
      FitsIsSmall(e.env);
    }
    hide Accounted, PacketSize, Fitting, Oversized, Fits, Dealt;
    if e.Flush? && s.held != [] {
      assert s.held == [s.held[0]] + s.held[1..];
    }
  }

  lemma {:induction false} RunFollows(events: seq<Event>, n: nat)
    requires n < |events| && !Exec(events[..n]).known && events[n] == Arrive
    ensures Follows(Exec(events[..n]), Exec(events))
  {
    var before := events[..|events| - 1];
    if n == |events| - 1 {
      RunSorts(before);
      RunKeeps(before);
      RegistrationFollows(Exec(before));
    } else {
      assert before[..n] == events[..n];
      RunFollows(before, n);
      RunKeeps(events);
      StepFollows(Exec(before[..n]), Exec(before), events[|events| - 1]);
    }
  }

  /** After the registration n: the receiving goroutine writes, in order, what was waiting at n, and nothing is
      dropped from the buffer any more; the sending goroutine writes, in the order they were handed in, every
      later envelope that fits, starting with the one whose call had not looked for the address at n. */
  lemma WritesInOrder(events: seq<Event>) returns (n: nat)
    requires Exec(events).known
    ensures n < |events| && !Exec(events[..n]).known && Exec(events[..n + 1]).known
    ensures var q, s := Exec(events[..n]), Exec(events);
            var later := |Fitting(Submitted(events[..n]))| - if q.sender.Checked? then 1 else 0;
            && s.flushed + s.held == q.pendingOut && s.overflow == q.overflow
            && 0 <= later <= |Fitting(Submitted(events))|
            && s.direct + Going(s.sender) == Fitting(Submitted(events))[later..]
  {
    n := Registration(events);
    RunFollows(events, n);
    RunSorts(events);
    RunSorts(events[..n]);
    hide Exec, Fitting, Oversized;
  }

  /** Stranding happens: the sender finds no address, the client registers, the sender enqueues. */
  lemma StrandingHappens(env: Envelope)
    requires Fits(env)
    ensures var s := Exec([Submit(env), LookUp, Arrive, Enqueue]);
            s.known && s.held == [] && s.pendingOut == [env]
  {
    FitsIsSmall(env);
    hide PacketSize, Fits;
    ExecSnoc([], Submit(env));
    ExecSnoc([Submit(env)], LookUp);
    ExecSnoc([Submit(env), LookUp], Arrive);
    ExecSnoc([Submit(env), LookUp, Arrive], Enqueue);
    assert [] + [Submit(env)] == [Submit(env)];
    assert [Submit(env)] + [LookUp] == [Submit(env), LookUp];
    assert [Submit(env), LookUp] + [Arrive] == [Submit(env), LookUp, Arrive];
    assert [Submit(env), LookUp, Arrive] + [Enqueue] == [Submit(env), LookUp, Arrive, Enqueue];
  }

  lemma ExecSnoc(events: seq<Event>, e: Event)
    ensures Exec(events + [e]) == Apply(Exec(events), e)
  {
    assert (events + [e])[..|events|] == events;
  }

  datatype Address = Unknown | Known(addr: string)

  /** The fields of Proxy involved, and the critical sections over them. */
  class Outbox {
    var clientDataAddr: Address
    var pendingOut: seq<Envelope>

    constructor ()
      ensures clientDataAddr == Unknown && pendingOut == []
    {
      clientDataAddr, pendingOut := Unknown, [];
    }

    /** A state of the machine with these fields. */
    ghost predicate Shows(s: State)
      reads this
    {
      s.known == clientDataAddr.Known? && s.pendingOut == pendingOut
    }

    method Enqueue(env: Envelope)
      modifies this
      ensures clientDataAddr == old(clientDataAddr)
      ensures pendingOut == if old(|pendingOut|) < 1024 then old(pendingOut) + [env] else old(pendingOut)
      ensures forall s: State :: old(Shows(s)) && s.sender == Buffering(env) ==> Shows(Apply(s, Event.Enqueue))
    {
      if |pendingOut| < 1024 {
        pendingOut := pendingOut + [env];
      }
    }

    /** Registers the address of the first packet and returns what was waiting. */
    method Arrive(addr: string) returns (pending: seq<Envelope>)
      modifies this
      ensures clientDataAddr == (if old(clientDataAddr).Unknown? then Known(addr) else old(clientDataAddr))
      ensures pending + pendingOut == old(pendingOut) && (if old(clientDataAddr).Unknown? then pendingOut else pending) == []
      ensures forall s: State :: old(Shows(s)) && s.held == [] ==>
                                   Shows(Apply(s, Event.Arrive)) && Apply(s, Event.Arrive).held == pending
    {
      pending := [];
      if clientDataAddr.Unknown? {
        clientDataAddr := Known(addr);
        pending := pendingOut;
        pendingOut := [];
      }
    }
  }
}
