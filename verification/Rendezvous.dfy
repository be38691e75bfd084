/** TCP rendezvous of a proxy: user connections wait for a data connection that announces their id. Waiters,
    their timeouts and the acceptor interleave at the critical sections; connection ids may collide. */
module Rendezvous {

  type ConnId = string

  datatype WaiterPc =
    | Waiting            // in the select
    | TimingOut          // the timer fired, pending not yet cleaned
    | GaveUp
    | Got(conn: nat)     // received a data connection

  /** One handleTCPUserConnection call: its id, its capacity-1 channel, and how often the channel was sent to. */
  datatype Waiter = Waiter(id: ConnId, pc: WaiterPc, chan: seq<nat>, sends: nat)

  datatype Place = WithAcceptor | Closed | Given(waiter: nat)

  /** A data connection: the id it announced and where it went. */
  datatype Conn = Conn(id: ConnId, place: Place)

  datatype AcceptorPc = Accepting | Announced(conn: nat) | Sending(conn: nat, waiter: nat)

  datatype State = State(pending: map<ConnId, nat>, waiters: seq<Waiter>, conns: seq<Conn>, acceptor: AcceptorPc)

  datatype Event =
    | Register(id: ConnId)   // make the channel, put it in pending
    | Accept(id: ConnId)     // a data connection whose first frame announces id
    | LookUp                 // the acceptor's critical section
    | Send                   // ch <- conn
    | Receive(waiter: nat)   // the select takes the channel
    | Timeout(waiter: nat)   // the select takes the timer
    | Forget(waiter: nat)    // delete(pending, connID) after the timeout

  const Start := State(map[], [], [], Accepting)

  function SetWaiter(s: State, w: nat, x: Waiter): State
    requires w < |s.waiters|
  {
    s.(waiters := s.waiters[w := x])
  }

  function OnLookUp(s: State, c: nat): State
    requires c < |s.conns|
  {
    var id := s.conns[c].id;
    if id in s.pending
    then s.(pending := s.pending - {id}, acceptor := Sending(c, s.pending[id]))
    else s.(conns := s.conns[c := Conn(id, Closed)], acceptor := Accepting)
  }

  /** The send, when the channel has room. */
  function OnSend(s: State, c: nat, w: nat): State
    requires c < |s.conns| && w < |s.waiters|
  {
    var x := s.waiters[w];
    SetWaiter(s, w, x.(chan := x.chan + [c], sends := x.sends + 1))
    .(conns := s.conns[c := s.conns[c].(place := Given(w))], acceptor := Accepting)
  }

  /** One step; an event that is not possible in the state changes nothing. A send to a full channel blocks. */
  function Apply(s: State, e: Event): State
  {
    match e
    case Register(id) =>
      s.(waiters := s.waiters + [Waiter(id, Waiting, [], 0)], pending := s.pending[id := |s.waiters|])
    case Accept(id) =>
      if s.acceptor.Accepting?
      then s.(conns := s.conns + [Conn(id, WithAcceptor)], acceptor := Announced(|s.conns|))
      else s
    case LookUp =>
      if s.acceptor.Announced? && s.acceptor.conn < |s.conns| then OnLookUp(s, s.acceptor.conn) else s
    case Send =>
      if s.acceptor.Sending? && s.acceptor.conn < |s.conns| && s.acceptor.waiter < |s.waiters|
         && s.waiters[s.acceptor.waiter].chan == []
      then OnSend(s, s.acceptor.conn, s.acceptor.waiter)
      else s
    case Receive(w) =>
      if w < |s.waiters| && s.waiters[w].pc.Waiting? && s.waiters[w].chan != []
      then SetWaiter(s, w, s.waiters[w].(pc := Got(s.waiters[w].chan[0]), chan := s.waiters[w].chan[1..]))
      else s
    case Timeout(w) =>
      if w < |s.waiters| && s.waiters[w].pc.Waiting? then SetWaiter(s, w, s.waiters[w].(pc := TimingOut)) else s
    case Forget(w) =>
      if w < |s.waiters| && s.waiters[w].pc.TimingOut?
      then SetWaiter(s, w, s.waiters[w].(pc := GaveUp)).(pending := s.pending - {s.waiters[w].id})
      else s
  }

  function Exec(events: seq<Event>): State
  {
    if events == [] then Start else Apply(Exec(events[..|events| - 1]), events[|events| - 1])
  }

  /** Nothing was ever sent to this waiter. */
  predicate Untouched(x: Waiter)
  {
    x.sends == 0 && x.chan == [] && !x.pc.Got?
  }

  /** c was given to w, and announced w's id. */
  predicate BelongsTo(s: State, c: nat, w: nat)
  {
    c < |s.conns| && w < |s.waiters| && s.conns[c].place == Given(w) && s.conns[c].id == s.waiters[w].id
  }

  ghost predicate WaiterInv(s: State, w: nat)
    requires w < |s.waiters|
  {
    var x := s.waiters[w];
    && x.sends <= 1 && |x.chan| <= x.sends
    && (x.sends == 0 ==> Untouched(x))
    && (x.pc.Got? ==> BelongsTo(s, x.pc.conn, w) && x.chan == [])
    && (forall i :: 0 <= i < |x.chan| ==> BelongsTo(s, x.chan[i], w))
  }

  /** The acceptor holds one unplaced connection, and only sends it to an untouched waiter for its id that
      nobody else can find any more. */
  ghost predicate AcceptorInv(s: State)
  {
    match s.acceptor
    case Accepting => true
    case Announced(c) => c < |s.conns| && s.conns[c].place == WithAcceptor
    case Sending(c, w) =>
      && c < |s.conns| && s.conns[c].place == WithAcceptor
      && w < |s.waiters| && Untouched(s.waiters[w]) && s.waiters[w].id == s.conns[c].id
      && forall id :: id in s.pending ==> s.pending[id] != w
  }

  /** pending maps an id to an untouched waiter for it. */
  ghost predicate PendingInv(s: State)
  {
    forall id :: id in s.pending ==>
                   s.pending[id] < |s.waiters| && s.waiters[s.pending[id]].id == id && Untouched(s.waiters[s.pending[id]])
  }

  ghost predicate Inv(s: State)
  {
    && (forall w :: 0 <= w < |s.waiters| ==> WaiterInv(s, w))
    && AcceptorInv(s)
    && PendingInv(s)
    && (forall c :: 0 <= c < |s.conns| && s.conns[c].place.Given? ==> BelongsTo(s, c, s.conns[c].place.waiter))
  }

  /** s' has the waiters of s unchanged up to pc, and no placed connection has moved. */
  ghost predicate Keeps(s: State, s': State, w: nat)
    requires w < |s.waiters|
  {
    && w < |s'.waiters|
    && (s'.waiters[w].pc == s.waiters[w].pc || !s'.waiters[w].pc.Got?)
    && s'.waiters[w] == s.waiters[w].(pc := s'.waiters[w].pc)
    && (forall c :: 0 <= c < |s.conns| && s.conns[c].place.Given? ==> c < |s'.conns| && s'.conns[c] == s.conns[c])
  }

  lemma WaiterFrame(s: State, s': State, w: nat)
    requires w < |s.waiters| && WaiterInv(s, w) && Keeps(s, s', w)
    ensures WaiterInv(s', w)
  {
  }

  lemma StepKeeps(s: State, e: Event)
    requires Inv(s)
    ensures Inv(Apply(s, e))
  {
    hide WaiterInv;
    var s' := Apply(s, e);
    forall w | 0 <= w < |s'.waiters|
      ensures WaiterInv(s', w)
    {
      StepKeepsWaiter(s, e, w);
    }
    StepKeepsPending(s, e);
    StepKeepsAcceptor(s, e);
    hide PendingInv, Untouched;
  }

  lemma StepKeepsPending(s: State, e: Event)
    requires Inv(s)
    ensures PendingInv(Apply(s, e))
  {
    if e.Receive? && e.waiter < |s.waiters| {
      assert WaiterInv(s, e.waiter);
    }
  }

  lemma StepKeepsAcceptor(s: State, e: Event)
    requires Inv(s)
    ensures AcceptorInv(Apply(s, e))
  {
    if e.Receive? && e.waiter < |s.waiters| {
      assert WaiterInv(s, e.waiter);
    }
  }

  lemma StepKeepsWaiter(s: State, e: Event, w: nat)
    requires Inv(s) && w < |Apply(s, e).waiters|
    ensures WaiterInv(Apply(s, e), w)
  {
    if w < |s.waiters| {
      assert WaiterInv(s, w);
      if e.Send? && s.acceptor.Sending? && s.acceptor.waiter == w {
        SendKeepsTarget(s, w);
      } else if e == Receive(w) {
        ReceiveKeeps(s, w);
      } else {
        StepKeepsOthers(s, e, w);
        hide WaiterInv, Untouched, BelongsTo, AcceptorInv, PendingInv, Apply, Keeps;
        WaiterFrame(s, Apply(s, e), w);
      }
    } else {
      hide BelongsTo, AcceptorInv, PendingInv;
    }
  }

  lemma SendKeepsTarget(s: State, w: nat)
    requires w < |s.waiters| && s.acceptor.Sending? && s.acceptor.waiter == w && AcceptorInv(s)
    ensures WaiterInv(Apply(s, Send), w)
  {
    assert Apply(s, Send).waiters[w].chan == [s.acceptor.conn];
  }

  /** Whoever is neither sent to nor receives keeps all but perhaps its place in the select. */
  lemma StepKeepsOthers(s: State, e: Event, w: nat)
    requires w < |s.waiters| && AcceptorInv(s) && e != Receive(w)
    requires !(e.Send? && s.acceptor.Sending? && s.acceptor.waiter == w)
    ensures Keeps(s, Apply(s, e), w)
  {
    hide Untouched;
  }

  lemma ReceiveKeeps(s: State, w: nat)
    requires w < |s.waiters| && WaiterInv(s, w)
    ensures WaiterInv(Apply(s, Receive(w)), w)
  {
    if s.waiters[w].chan != [] {
      assert s.waiters[w].chan[1..] == [];
    }
  }

  lemma {:induction false} RunKeeps(events: seq<Event>)
    ensures Inv(Exec(events))
  {
    if events != [] {
      RunKeeps(events[..|events| - 1]);
      StepKeeps(Exec(events[..|events| - 1]), events[|events| - 1]);
    }
  }

  /** In every run, the acceptor's send finds the channel empty, so it never blocks, and no channel is sent to
      twice. */
  lemma SendNeverBlocks(events: seq<Event>)
    ensures var s := Exec(events);
            && (s.acceptor.Sending? ==>
                  s.acceptor.waiter < |s.waiters| && s.waiters[s.acceptor.waiter].chan == []
                  && Apply(s, Send).acceptor == Accepting)
            && forall w :: 0 <= w < |s.waiters| ==> s.waiters[w].sends <= 1
  {
    RunKeeps(events);
    var s := Exec(events);
    forall w | 0 <= w < |s.waiters|
      ensures s.waiters[w].sends <= 1
    {
      assert WaiterInv(s, w);
    }
  }

  /** In every run, a waiter receives only a connection that announced its id, and no two waiters receive the
      same one. */
  lemma RendezvousIsExclusive(events: seq<Event>, v: nat, w: nat)
    requires var s := Exec(events);
             v < |s.waiters| && w < |s.waiters| && s.waiters[v].pc.Got? && s.waiters[w].pc.Got?
    ensures var s := Exec(events);
            && s.waiters[v].pc.conn < |s.conns| && s.conns[s.waiters[v].pc.conn].id == s.waiters[v].id
            && (s.waiters[v].pc.conn == s.waiters[w].pc.conn ==> v == w)
  {
    RunKeeps(events);
    assert WaiterInv(Exec(events), v) && WaiterInv(Exec(events), w);
  }

  /** From any reachable state in which the acceptor is free, a new waiter whose connection arrives in time
      gets it. */
  lemma Meets(events: seq<Event>, id: ConnId)
    requires Exec(events).acceptor.Accepting?
    ensures var s := Exec(events);
            var w, c := |s.waiters|, |s.conns|;
            var s' := Apply(Apply(Apply(Apply(Apply(s, Register(id)), Accept(id)), LookUp), Send), Receive(w));
            && |s'.waiters| == w + 1 && s'.waiters[w].pc == Got(c) && s'.conns[..c] == s.conns
            && s'.acceptor.Accepting? && id !in s'.pending
  {
    var s := Exec(events);
    var w, c := |s.waiters|, |s.conns|;
    var s1 := Apply(s, Register(id));
    var s2 := Apply(s1, Accept(id));
    var s3 := Apply(s2, LookUp);
    assert s3.acceptor == Sending(c, w) && s3.waiters[w] == Waiter(id, Waiting, [], 0);
    var s4 := Apply(s3, Send);
    assert s4.waiters[w] == Waiter(id, Waiting, [c], 1);
  }

  /** A waiter that gave up is in nobody's way. */
  ghost predicate Forgotten(s: State)
  {
    forall id :: id in s.pending ==> s.pending[id] < |s.waiters| && !s.waiters[s.pending[id]].pc.GaveUp?
  }

  lemma StepForgets(s: State, e: Event)
    requires Forgotten(s) && PendingInv(s)
    ensures Forgotten(Apply(s, e))
  {
    hide Untouched;
  }

  /** In every run no id leads to a waiter that gave up. */
  lemma {:induction false} GaveUpIsForgotten(events: seq<Event>)
    ensures Forgotten(Exec(events))
  {
    if events != [] {
      var before := events[..|events| - 1];
      RunKeeps(before);
      GaveUpIsForgotten(before);
      StepForgets(Exec(before), events[|events| - 1]);
    }
  }

  /** In every run the acceptor's look-up closes a connection that nobody waits for, and takes any other to the
      waiter registered last for its id, whose entry it removes. */
  lemma LookUpExactly(events: seq<Event>)
    requires Exec(events).acceptor.Announced?
    ensures var s := Exec(events);
            var c, s' := s.acceptor.conn, Apply(Exec(events), LookUp);
            && c < |s.conns| && s'.waiters == s.waiters && s'.pending == s.pending - {s.conns[c].id}
            && if s.conns[c].id in s.pending
               then s'.acceptor == Sending(c, s.pending[s.conns[c].id]) && s'.conns == s.conns
               else s'.acceptor == Accepting && s'.conns == s.conns[c := Conn(s.conns[c].id, Closed)]
  {
    RunKeeps(events);
    hide WaiterInv, PendingInv;
    var s := Exec(events);
    assert s.conns[s.acceptor.conn].id !in s.pending ==> s.pending - {s.conns[s.acceptor.conn].id} == s.pending;
  }

  // Where a connection is once it was given away.

  /** A connection given to a waiter was received by it, or is the one thing in its channel. */
  ghost predicate Kept(s: State, c: nat)
  {
    c < |s.conns| && s.conns[c].place.Given? ==>
      && s.conns[c].place.waiter < |s.waiters|
      && var x := s.waiters[s.conns[c].place.waiter];
      (x.pc == Got(c) && x.chan == []) || (x.chan == [c] && !x.pc.Got?)
  }

  lemma StepKeepsGiven(s: State, e: Event, c: nat)
    requires Inv(s) && Kept(s, c)
    ensures Kept(Apply(s, e), c)
  {
    hide WaiterInv, PendingInv;
  }

  /** In every run no connection given away has vanished. */
  lemma {:induction false} GivenIsKept(events: seq<Event>, c: nat)
    ensures Kept(Exec(events), c)
  {
    if events != [] {
      var before := events[..|events| - 1];
      RunKeeps(before);
      GivenIsKept(before, c);
      StepKeepsGiven(Exec(before), events[|events| - 1], c);
    }
  }

  /** The waiter has taken its timer. */
  predicate TimedOut(x: Waiter) { x.pc.TimingOut? || x.pc.GaveUp? }

  /** c lies in the channel of a waiter that will not read it. */
  predicate Stuck(s: State, c: nat, w: nat)
  {
    c < |s.conns| && w < |s.waiters| && s.conns[c].place == Given(w) && TimedOut(s.waiters[w])
  }

  lemma StepKeepsStuck(s: State, e: Event, c: nat, w: nat)
    requires Inv(s) && Stuck(s, c, w)
    ensures Stuck(Apply(s, e), c, w)
  {
    hide WaiterInv, PendingInv;
  }

  /** Over any longer run it stays there. */
  lemma {:induction false} StuckForever(events: seq<Event>, more: seq<Event>, c: nat, w: nat)
    requires Stuck(Exec(events), c, w)
    ensures Stuck(Exec(events + more), c, w)
  {
    hide Stuck, Inv, Apply;
    if more == [] {
      assert events + more == events;
    } else {
      var init, e := more[..|more| - 1], more[|more| - 1];
      assert (events + more)[..|events + more| - 1] == events + init;
      StuckForever(events, init, c, w);
      RunKeeps(events + init);
      StepKeepsStuck(Exec(events + init), e, c, w);
    }
  }

  ghost predicate Received(s: State, c: nat)
  {
    exists w :: 0 <= w < |s.waiters| && s.waiters[w].pc == Got(c)
  }

  /** No continuation of the run hands c to anyone. */
  ghost predicate LostForGood(events: seq<Event>, c: nat)
  {
    forall more: seq<Event> :: !Received(Exec(events + more), c)
  }

  /** A stuck connection is not received, by its waiter or by another. */
  lemma StuckIsNotReceived(events: seq<Event>, c: nat, w: nat)
    requires Stuck(Exec(events), c, w)
    ensures !Received(Exec(events), c)
  {
    RunKeeps(events);
    var s := Exec(events);
    forall v | 0 <= v < |s.waiters|
      ensures s.waiters[v].pc != Got(c)
    {
      assert WaiterInv(s, v);
    }
  }

  /** Of the connections given away, exactly those whose waiter has taken its timer are lost for good; the others
      are received already or by the waiter's next step. */
  lemma LostExactly(events: seq<Event>, c: nat, w: nat)
    requires c < |Exec(events).conns| && Exec(events).conns[c].place == Given(w)
    ensures w < |Exec(events).waiters|
    ensures LostForGood(events, c) <==> TimedOut(Exec(events).waiters[w])
    ensures !TimedOut(Exec(events).waiters[w]) ==>
              Received(Exec(events), c) || Received(Apply(Exec(events), Receive(w)), c)
  {
    GivenIsKept(events, c);
    var s := Exec(events);
    if TimedOut(s.waiters[w]) {
      forall more: seq<Event>
        ensures !Received(Exec(events + more), c)
      {
        StuckForever(events, more, c, w);
        StuckIsNotReceived(events + more, c, w);
      }
    } else if s.waiters[w].pc == Got(c) {
      assert events + [] == events;
    } else {
      assert Apply(s, Receive(w)).waiters[w].pc == Got(c);
      assert (events + [Receive(w)])[..|events|] == events;
      assert Received(Exec(events + [Receive(w)]), c);
    }
  }

  /** Not every connection given away is received: a waiter that times out between the look-up and the send
      leaves the connection in its channel. */
  lemma LateSendIsLost(id: ConnId)
    ensures var s := Apply(Apply(Apply(Apply(Start, Register(id)), Accept(id)), LookUp), Timeout(0));
            var s' := Apply(Apply(s, Forget(0)), Send);
            && |s'.conns| == |s'.waiters| == 1 && s'.acceptor == Accepting && s'.pending == map[]
            && s'.conns[0].place == Given(0) && s'.waiters[0].pc == GaveUp && s'.waiters[0].chan == [0]
  {
    var s1 := Apply(Start, Register(id));
    var s2 := Apply(s1, Accept(id));
    assert s2.acceptor == Announced(0) && s2.conns == [Conn(id, WithAcceptor)] && s2.pending == map[id := 0];
    var s3 := Apply(s2, LookUp);
    assert s3.acceptor == Sending(0, 0) && s3.pending == map[];
    assert s3.waiters == [Waiter(id, Waiting, [], 0)];
  }

  /** proxy.pending and its three critical sections. */
  class Pending {
    var pending: map<ConnId, nat>

    constructor ()
      ensures pending == map[]
    {
      pending := map[];
    }

    method Register(id: ConnId, waiter: nat)
      modifies this
      ensures forall s: State :: s.pending == old(pending) && |s.waiters| == waiter ==>
                                   Apply(s, Event.Register(id)).pending == pending
    {
      pending := pending[id := waiter];
    }

    /** The acceptor's look-up: the waiter for the id, taken out of the map. */
    method Claim(id: ConnId) returns (found: bool, waiter: nat)
      modifies this
      ensures forall s: State, c: nat ::
                s.pending == old(pending) && c < |s.conns| && s.conns[c].id == id ==>
                  OnLookUp(s, c).pending == pending
                  && OnLookUp(s, c).acceptor == if found then Sending(c, waiter) else Accepting
    {
      found := id in pending;
      waiter := 0;
      if found {
        waiter := pending[id];
        pending := pending - {id};
      }
    }

    /** After a timeout the id is deleted, whoever holds it by now. */
    method Forget(id: ConnId)
      modifies this
      ensures forall s: State, w: nat ::
                s.pending == old(pending) && w < |s.waiters| && s.waiters[w].id == id && s.waiters[w].pc.TimingOut?
                ==> Apply(s, Event.Forget(w)).pending == pending
    {
      pending := pending - {id};
    }
  }
}
