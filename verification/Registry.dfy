/** The proxy registry of the server: proxies belong to control connections and are closed by the web panel or
    by their owner's disconnect. Every operation runs under the server's lock. */
module Registry {
  import opened Options

  type ClientId = string
  type Name = string

  /** A proxy: its owner, the sockets it listens on, and the quit channel that a UDP proxy has. Sockets and
      channels are tokens. */
  datatype Proxy = Proxy(owner: ClientId, sockets: set<nat>, quit: Option<nat>)

  /** open: the sockets now open; closed: the quit channels closed so far; next: the next unused token. */
  datatype State = State(
    clients: set<ClientId>, proxies: map<Name, Proxy>, open: set<nat>, closed: set<nat>, next: nat)

  const Start := State({}, map[], {}, {}, 0)

  function SocketsOf(s: State, names: set<Name>): set<nat>
  {
    set n, k | n in names && n in s.proxies && k in s.proxies[n].sockets :: k
  }

  function QuitsOf(s: State, names: set<Name>): set<nat>
  {
    set n | n in names && n in s.proxies && s.proxies[n].quit.Some? :: s.proxies[n].quit.value
  }

  function Owned(s: State, id: ClientId): set<Name>
  {
    set n | n in s.proxies && s.proxies[n].owner == id
  }

  /** cleanupProxy applied to all the names. */
  function Removed(s: State, names: set<Name>): State
  {
    s.(proxies := s.proxies - names, open := s.open - SocketsOf(s, names), closed := s.closed + QuitsOf(s, names))
  }

  function Connect(s: State, id: ClientId): State
  {
    s.(clients := s.clients + {id})
  }

  /** handleControlMessages after its loop. */
  function Disconnect(s: State, id: ClientId): State
  {
    Removed(s, Owned(s, id)).(clients := s.clients - {id})
  }

  function Close(s: State, name: Name): State
  {
    if name in s.proxies then Removed(s, {name}) else s
  }

  /** How the environment answers a request: the access list, and the two listens (a failure to resolve the
      address is a failure to listen). */
  datatype Answer = Answer(allowed: bool, first: bool, second: bool)

  datatype Kind = Tcp | Udp | Unsupported

  /** handleNewProxy. A failed second listen closes the first socket again. */
  function NewProxy(s: State, owner: ClientId, name: Name, kind: Kind, a: Answer): State
  {
    if !a.allowed || name in s.proxies || kind.Unsupported? || !a.first then s
    else if !a.second then s.(next := s.next + 1)
    else
      var p := Proxy(owner, {s.next, s.next + 1}, if kind.Udp? then Some(s.next + 2) else None);
      s.(proxies := s.proxies[name := p], open := s.open + p.sockets, next := s.next + 3)
  }

  datatype Event =
    | Connected(id: ClientId)
    | Requested(id: ClientId, name: Name, kind: Kind, answer: Answer)
    | Disconnected(id: ClientId)
    | ClosedByPanel(name: Name)

  /** One step. A control connection gets an id that no live one has, and only a live one sends requests or
      disconnects. */
  function Apply(s: State, e: Event): State
  {
    match e
    case Connected(id) => if id in s.clients then s else Connect(s, id)
    case Requested(id, name, kind, answer) => if id in s.clients then NewProxy(s, id, name, kind, answer) else s
    case Disconnected(id) => if id in s.clients then Disconnect(s, id) else s
    case ClosedByPanel(name) => Close(s, name)
  }

  function Exec(events: seq<Event>): State
  {
    if events == [] then Start else Apply(Exec(events[..|events| - 1]), events[|events| - 1])
  }

  /** Tokens in use are old, and no two proxies share one. */
  ghost predicate Distinct(s: State)
  {
    && (forall k :: k in s.open || k in s.closed ==> k < s.next)
    && (forall n :: n in s.proxies && s.proxies[n].quit.Some? ==>
                      s.proxies[n].quit.value < s.next && s.proxies[n].quit.value !in s.closed)
    && (forall m, n :: m in s.proxies && n in s.proxies && m != n ==> s.proxies[m].sockets !! s.proxies[n].sockets)
    && (forall m, n :: m in s.proxies && n in s.proxies && m != n && s.proxies[m].quit.Some? ==>
                         s.proxies[m].quit != s.proxies[n].quit)
  }

  /** Owners are live; the open sockets are exactly those of registered proxies. */
  ghost predicate Inv(s: State)
  {
    && (forall n :: n in s.proxies ==> s.proxies[n].owner in s.clients)
    && s.open == SocketsOf(s, s.proxies.Keys)
    && Distinct(s)
  }

  lemma RemovedKeeps(s: State, names: set<Name>)
    requires Inv(s)
    ensures Inv(Removed(s, names))
  {
    var s' := Removed(s, names);
    forall k
      ensures k in s'.open <==> k in SocketsOf(s', s'.proxies.Keys)
    {
      if k in s'.open {
        var n :| n in s.proxies && k in s.proxies[n].sockets;
        assert n !in names;
        assert n in s'.proxies && k in s'.proxies[n].sockets;
      }
      if k in SocketsOf(s', s'.proxies.Keys) {
        var n :| n in s'.proxies && k in s'.proxies[n].sockets;
        assert k in SocketsOf(s, s.proxies.Keys);
      }
    }
  }

  lemma NewProxyKeeps(s: State, owner: ClientId, name: Name, kind: Kind, a: Answer)
    requires Inv(s) && owner in s.clients
    ensures Inv(NewProxy(s, owner, name, kind, a))
  {
    var s' := NewProxy(s, owner, name, kind, a);
    if s'.proxies == s.proxies {
      assert s'.open == SocketsOf(s', s'.proxies.Keys);
    } else {
      var p := s'.proxies[name];
      forall n | n in s.proxies
        ensures s.proxies[n].sockets <= s.open
      {
        assert forall k :: k in s.proxies[n].sockets ==> k in SocketsOf(s, s.proxies.Keys);
      }
      forall k
        ensures k in s'.open <==> k in SocketsOf(s', s'.proxies.Keys)
      {
        if k in s.open {
          var n :| n in s.proxies && k in s.proxies[n].sockets;
          assert n in s'.proxies && k in s'.proxies[n].sockets;
        } else if k in p.sockets {
          assert name in s'.proxies && k in s'.proxies[name].sockets;
        }
      }
    }
  }

  /** A request registers a proxy exactly when it is allowed, the name is free, the type is known and both
      listens succeed; then the proxy is its owner's and has two new sockets, and otherwise no proxy and no
      open socket has changed. */
  lemma NewProxyExact(s: State, owner: ClientId, name: Name, kind: Kind, a: Answer)
    requires Inv(s)
    ensures var s' := NewProxy(s, owner, name, kind, a);
            var ok := a.allowed && name !in s.proxies && !kind.Unsupported? && a.first && a.second;
            && s'.proxies.Keys == s.proxies.Keys + (if ok then {name} else {})
            && (forall n :: n in s.proxies ==> s'.proxies[n] == s.proxies[n])
            && (!ok ==> s'.open == s.open)
            && (ok ==> var p := s'.proxies[name];
                       p.owner == owner && (p.quit.Some? <==> kind.Udp?) && |p.sockets| == 2
                       && p.sockets !! s.open && s'.open == s.open + p.sockets)
  {
    hide SocketsOf;
  }

  lemma StepKeeps(s: State, e: Event)
    requires Inv(s)
    ensures Inv(Apply(s, e))
  {
    match e
    case Connected(id) =>
      assert SocketsOf(Connect(s, id), s.proxies.Keys) == SocketsOf(s, s.proxies.Keys);
    case Requested(id, name, kind, answer) =>
      if id in s.clients {
        NewProxyKeeps(s, id, name, kind, answer);
      }
    case Disconnected(id) =>
      RemovedKeeps(s, Owned(s, id));
      var s' := Removed(s, Owned(s, id));
      assert SocketsOf(Disconnect(s, id), s'.proxies.Keys) == SocketsOf(s', s'.proxies.Keys);
    case ClosedByPanel(name) =>
      RemovedKeeps(s, {name});
  }

  /** In every reachable state owners are live and the open sockets are those of registered proxies. */
  lemma {:induction false} RunKeeps(events: seq<Event>)
    ensures Inv(Exec(events))
  {
    if events != [] {
      RunKeeps(events[..|events| - 1]);
      StepKeeps(Exec(events[..|events| - 1]), events[|events| - 1]);
    }
  }

  /** In every reachable state a disconnect removes exactly the client's proxies, leaves the others as they
      were, and no quit channel it closes has been closed before. */
  lemma DisconnectIsExact(events: seq<Event>, id: ClientId)
    requires id in Exec(events).clients
    ensures var s := Exec(events);
            var s' := Disconnect(s, id);
            && s'.clients == s.clients - {id}
            && (forall n :: n in s'.proxies <==> n in s.proxies && s.proxies[n].owner != id)
            && (forall n :: n in s'.proxies ==> s'.proxies[n] == s.proxies[n] && s'.proxies[n].sockets <= s'.open)
            && SocketsOf(s, Owned(s, id)) !! s'.open
            && QuitsOf(s, Owned(s, id)) !! s.closed
  {
    RunKeeps(events);
    RunKeeps(events + [Disconnected(id)]);
    assert (events + [Disconnected(id)])[..|events|] == events;
    var s' := Disconnect(Exec(events), id);
    forall n | n in s'.proxies
      ensures s'.proxies[n].sockets <= s'.open
    {
      assert forall k :: k in s'.proxies[n].sockets ==> k in SocketsOf(s', s'.proxies.Keys);
    }
  }

  /** In every reachable state a close from the panel removes the named proxy with its sockets and its quit channel,
      and leaves every other as it was; an unknown name changes nothing. */
  lemma CloseIsExact(events: seq<Event>, name: Name)
    ensures Closes(Exec(events), Exec(events + [ClosedByPanel(name)]), name)
  {
    RunKeeps(events);
    assert (events + [ClosedByPanel(name)])[..|events|] == events;
    CloseCloses(Exec(events), name);
  }

  /** s' is s without the named proxy. */
  ghost predicate Closes(s: State, s': State, name: Name)
  {
    && s'.clients == s.clients && s'.proxies.Keys == s.proxies.Keys - {name}
    && (forall n :: n in s'.proxies ==> s'.proxies[n] == s.proxies[n] && s'.proxies[n].sockets <= s'.open)
    && (name in s.proxies ==>
          && s.proxies[name].sockets !! s'.open && s'.open == s.open - s.proxies[name].sockets
          && (s.proxies[name].quit.Some? ==>
                s.proxies[name].quit.value !in s.closed && s'.closed == s.closed + {s.proxies[name].quit.value}))
    && (name !in s.proxies ==> s' == s)
  }

  lemma CloseCloses(s: State, name: Name)
    requires Inv(s)
    ensures Closes(s, Close(s, name), name)
  {
    var s' := Close(s, name);
    RemovedKeeps(s, {name});
    forall n | n in s'.proxies
      ensures s'.proxies[n].sockets <= s'.open
    {
      assert forall k :: k in s'.proxies[n].sockets ==> k in SocketsOf(s', s'.proxies.Keys);
    }
    if name in s.proxies {
      assert SocketsOf(s, {name}) == s.proxies[name].sockets;
      assert s.proxies[name].quit.Some? ==> QuitsOf(s, {name}) == {s.proxies[name].quit.value};
    }
  }

  /** The last word about a control connection is that it connected. */
  function Online(events: seq<Event>, id: ClientId): bool
  {
    if events == [] then false
    else
      match events[|events| - 1]
      case Connected(x) => x == id || Online(events[..|events| - 1], id)
      case Disconnected(x) => x != id && Online(events[..|events| - 1], id)
      case _ => Online(events[..|events| - 1], id)
  }

  /** In every run the live clients are those whose last word was to connect. */
  lemma {:induction false} ClientsAreOnline(events: seq<Event>, id: ClientId)
    ensures id in Exec(events).clients <==> Online(events, id)
  {
    if events != [] {
      ClientsAreOnline(events[..|events| - 1], id);
      hide SocketsOf, QuitsOf, Owned;
    }
  }

  /** In every run a request of a live client registers a proxy exactly under the conditions of NewProxyExact, and
      nobody else's request changes anything. */
  lemma RequestIsExact(events: seq<Event>, id: ClientId, name: Name, kind: Kind, a: Answer)
    ensures var s, s' := Exec(events), Exec(events + [Requested(id, name, kind, a)]);
            var ok := Online(events, id) && a.allowed && name !in s.proxies && !kind.Unsupported? && a.first && a.second;
            && s'.proxies.Keys == s.proxies.Keys + (if ok then {name} else {})
            && (ok ==> s'.proxies[name].owner == id && s'.open == s.open + s'.proxies[name].sockets)
            && (!ok ==> s'.open == s.open)
  {
    RunKeeps(events);
    ClientsAreOnline(events, id);
    assert (events + [Requested(id, name, kind, a)])[..|events|] == events;
    NewProxyExact(Exec(events), id, name, kind, a);
    hide SocketsOf, Inv;
  }

  /** In every run, whichever direction it is closed from, a proxy leaves the registry together with its quit
      channel, which was open until then and belonged to no other proxy. */
  lemma ClosesOnce(events: seq<Event>, e: Event)
    ensures var s, s' := Exec(events), Apply(Exec(events), e);
            var gone := s.proxies.Keys - s'.proxies.Keys;
            && s'.closed == s.closed + QuitsOf(s, gone) && QuitsOf(s, gone) !! s.closed
            && forall m, n :: m in gone && n in s.proxies && m != n && s.proxies[m].quit.Some? ==>
                                s.proxies[m].quit != s.proxies[n].quit
  {
    RunKeeps(events);
    var s, s' := Exec(events), Apply(Exec(events), e);
    var gone := s.proxies.Keys - s'.proxies.Keys;
    match e
    case Disconnected(id) =>
      if id in s.clients {
        assert gone == Owned(s, id);
      }
    case ClosedByPanel(name) =>
      if name in s.proxies {
        assert gone == {name};
      }
    case _ =>
      assert gone == {};
  }

  lemma RemovedStep(s: State, done: set<Name>, n: Name)
    ensures Removed(Removed(s, done), {n}) == Removed(s, done + {n})
  {
    var s1 := Removed(s, done);
    if n in done {
      assert SocketsOf(s1, {n}) == {} && QuitsOf(s1, {n}) == {};
      assert done + {n} == done;
      assert s1.proxies - {n} == s1.proxies;
    } else {
      forall k
        ensures k in SocketsOf(s, done + {n}) <==> k in SocketsOf(s, done) || k in SocketsOf(s1, {n})
      {
        if n in s.proxies && k in s.proxies[n].sockets {
          assert n in s1.proxies && k in SocketsOf(s1, {n});
        }
      }
      assert QuitsOf(s, done + {n}) == QuitsOf(s, done) + QuitsOf(s1, {n});
      assert s1.proxies - {n} == s.proxies - (done + {n});
    }
  }

  lemma RemovedNone(s: State)
    ensures Removed(s, {}) == s
  {
    assert s.proxies - {} == s.proxies;
  }

  lemma TokensAreOld(s: State)
    requires Inv(s)
    ensures s.next !in s.open
  {
  }

  /** The registry as the server holds it. */
  class Server {
    var clients: set<ClientId>
    var proxies: map<Name, Proxy>
    ghost var open: set<nat>
    ghost var closed: set<nat>
    var next: nat

    ghost function View(): State
      reads this
    {
      State(clients, proxies, open, closed, next)
    }

    ghost predicate Valid()
      reads this
    {
      Inv(View())
    }

    constructor ()
      ensures Valid() && View() == Start
    {
      clients, proxies, open, closed, next := {}, map[], {}, {}, 0;
    }

    /** net.Listen: a new socket, or a failure. */
    method Listen(ok: bool) returns (socket: nat)
      modifies this`open, this`next
      ensures ok ==> socket == old(next) && next == old(next) + 1 && open == old(open) + {socket}
      ensures !ok ==> next == old(next) && open == old(open)
    {
      socket := next;
      if ok {
        next := next + 1;
        open := open + {socket};
      }
    }

    /** close(sessionQuit): closing it twice would panic. */
    ghost method CloseQuit(q: nat)
      requires q !in closed
      modifies this`closed
      ensures closed == old(closed) + {q}
    {
      closed := closed + {q};
    }

    method CleanupProxy(name: Name)
      requires Valid() && name in proxies
      modifies this
      ensures Valid() && View() == Removed(old(View()), {name})
    {
      ghost var s := View();
      var p := proxies[name];
      open := open - p.sockets;
      if p.quit.Some? {
        CloseQuit(p.quit.value);
      }
      proxies := proxies - {name};
      assert SocketsOf(s, {name}) == p.sockets;
      assert QuitsOf(s, {name}) == if p.quit.Some? then {p.quit.value} else {};
      RemovedKeeps(s, {name});
    }

    method CloseProxy(name: Name) returns (ok: bool)
      requires Valid()
      modifies this
      ensures Valid() && ok == old(name in proxies)
      ensures View() == Close(old(View()), name) && Closes(old(View()), View(), name)
    {
      CloseCloses(View(), name);
      hide Closes, Inv;
      ok := name in proxies;
      if ok {
        CleanupProxy(name);
      }
    }

    method HandleNewProxy(owner: ClientId, name: Name, kind: Kind, a: Answer) returns (success: bool)
      requires Valid() && owner in clients
      modifies this
      ensures Valid() && View() == NewProxy(old(View()), owner, name, kind, a)
      ensures success <==> name !in old(proxies) && a.allowed && !kind.Unsupported? && a.first && a.second
    {
      NewProxyKeeps(View(), owner, name, kind, a);
      ghost var s := View();
      TokensAreOld(s);
      hide Inv, SocketsOf;
      if !a.allowed || name in proxies || kind.Unsupported? {
        return false;
      }
      var first := Listen(a.first);
      if !a.first {
        return false;
      }
      var second := Listen(a.second);
      if !a.second {
        open := open - {first};
        assert first !in s.open;
        return false;
      }
      var quit := None;
      if kind.Udp? {
        quit := Some(next);
      }
      next := next + 1;
      proxies := proxies[name := Proxy(owner, {first, second}, quit)];
      success := true;
    }

    /** The end of handleControlMessages: loop over the map, in any order, deleting the client's proxies. */
    method HandleDisconnect(id: ClientId)
      requires Valid() && id in clients
      modifies this
      ensures Valid() && View() == Disconnect(old(View()), id)
    {
      hide Inv, Distinct, SocketsOf, QuitsOf;
      ghost var s := View();
      StepKeeps(s, Disconnected(id));
      var todo := proxies.Keys;
      ghost var done: set<Name> := {};
      RemovedNone(s);
      assert done * Owned(s, id) == {};
      while todo != {}
        invariant Valid()
        invariant done + todo == s.proxies.Keys && done !! todo
        invariant View() == Removed(s, done * Owned(s, id))
        decreases todo
      {
        var name :| name in todo;
        assert name in proxies;
        todo := todo - {name};
        if proxies[name].owner == id {
          RemovedStep(s, done * Owned(s, id), name);
          CleanupProxy(name);
          assert (done + {name}) * Owned(s, id) == done * Owned(s, id) + {name};
        } else {
          assert (done + {name}) * Owned(s, id) == done * Owned(s, id);
        }
        done := done + {name};
      }
      assert done * Owned(s, id) == Owned(s, id);
      clients := clients - {id};
    }
  }
}
