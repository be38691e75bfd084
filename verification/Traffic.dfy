/** addClientTraffic and checkTrafficLimit: many forwarders add to a client's total, and whoever finds the quota
    reached pushes one notice. Steps are the critical sections; quotas are fixed. */
module Traffic {

  type Name = string

  /** Where a call is after its first critical section. */
  datatype Pc =
    | Added(name: Name)    // the chunk is counted, the total not yet read
    | Over(name: Name)     // read a total that reaches the quota
    | Firing(name: Name)   // won the notified flag, the notice not yet sent

  datatype Chunk = Chunk(name: Name, bytesIn: nat, bytesOut: nat)

  datatype State = State(
    bytesIn: map<Name, int>, bytesOut: map<Name, int>, notified: set<Name>, calls: map<nat, Pc>,
    // History: the notices sent.
    notices: seq<Name>)

  datatype Event =
    | Add(call: nat, chunk: Chunk)   // addClientTraffic up to its unlock
    | ReadTotal(call: nat)           // quota and total
    | Mark(call: nat)                // test and set notifiedLimit
    | Fire(call: nat)                // webhook.Send

  const Start := State(map[], map[], {}, map[], [])

  function Get(m: map<Name, int>, n: Name): int { if n in m then m[n] else 0 }

  function Total(s: State, n: Name): int { Get(s.bytesIn, n) + Get(s.bytesOut, n) }

  /** Unmanaged clients are not counted. */
  predicate Managed(n: Name) { n != "" && n != "default" }

  function OnAdd(s: State, call: nat, c: Chunk): State
  {
    s.(bytesIn := s.bytesIn[c.name := Get(s.bytesIn, c.name) + c.bytesIn],
    bytesOut := s.bytesOut[c.name := Get(s.bytesOut, c.name) + c.bytesOut],
    calls := if c.bytesIn + c.bytesOut > 0 then s.calls[call := Added(c.name)] else s.calls)
  }

  /** One step; an event that is not possible in the state changes nothing. */
  function Apply(quota: map<Name, int>, s: State, e: Event): State
  {
    match e
    case Add(k, c) => if k in s.calls || !Managed(c.name) then s else OnAdd(s, k, c)
    case ReadTotal(k) =>
      if k !in s.calls || !s.calls[k].Added? then s
      else
        var n := s.calls[k].name;
        if !Reached(quota, s, n) then s.(calls := s.calls - {k})
        else s.(calls := s.calls[k := Over(n)])
    case Mark(k) =>
      if k !in s.calls || !s.calls[k].Over? then s
      else
        var n := s.calls[k].name;
        if n in s.notified then s.(calls := s.calls - {k})
        else s.(notified := s.notified + {n}, calls := s.calls[k := Firing(n)])
    case Fire(k) =>
      if k !in s.calls || !s.calls[k].Firing? then s
      else s.(notices := s.notices + [s.calls[k].name], calls := s.calls - {k})
  }

  function Exec(quota: map<Name, int>, events: seq<Event>): State
  {
    if events == [] then Start else Apply(quota, Exec(quota, events[..|events| - 1]), events[|events| - 1])
  }

  /** What the chunks of a client carried in, of a run: every Add of a call not in progress. */
  function CarriedIn(quota: map<Name, int>, events: seq<Event>, n: Name): nat
  {
    if events == [] then 0
    else
      var before, e := events[..|events| - 1], events[|events| - 1];
      CarriedIn(quota, before, n)
      + if e.Add? && e.call !in Exec(quota, before).calls && e.chunk.name == n then e.chunk.bytesIn else 0
  }

  /** And out. */
  function CarriedOut(quota: map<Name, int>, events: seq<Event>, n: Name): nat
  {
    if events == [] then 0
    else
      var before, e := events[..|events| - 1], events[|events| - 1];
      CarriedOut(quota, before, n)
      + if e.Add? && e.call !in Exec(quota, before).calls && e.chunk.name == n then e.chunk.bytesOut else 0
  }

  function Sent(notices: seq<Name>, n: Name): nat { multiset(notices)[n] }

  predicate Reached(quota: map<Name, int>, s: State, n: Name) { Get(quota, n) > 0 && Total(s, n) >= Get(quota, n) }

  /** Nothing is marked, or about to be, before the quota is reached. */
  ghost predicate Deserved(quota: map<Name, int>, s: State, n: Name)
  {
    && (n in s.notified ==> Reached(quota, s, n))
    && (forall k :: k in s.calls && s.calls[k] == Over(n) ==> Reached(quota, s, n))
  }

  /** The notice is sent at most once, and while one call is about to send it no other is and none was sent. */
  ghost predicate Single(s: State, n: Name)
  {
    && (forall k :: k in s.calls && s.calls[k] == Firing(n) ==> n in s.notified && Sent(s.notices, n) == 0)
    && (forall j, k :: j in s.calls && k in s.calls && s.calls[j] == s.calls[k] == Firing(n) ==> j == k)
    && Sent(s.notices, n) <= 1
    && (Sent(s.notices, n) == 1 ==> n in s.notified)
  }

  /** A notice marked and not sent is in some call's hands. */
  ghost predicate InHand(s: State, n: Name)
  {
    n in s.notified && Sent(s.notices, n) == 0 ==> exists k :: k in s.calls && s.calls[k] == Firing(n)
  }

  /** A quota reached and not marked will be seen by some call. */
  ghost predicate Due(quota: map<Name, int>, s: State, n: Name)
  {
    Reached(quota, s, n) && n !in s.notified ==>
      exists k :: k in s.calls && (s.calls[k] == Added(n) || s.calls[k] == Over(n))
  }

  ghost predicate Good(quota: map<Name, int>, s: State, n: Name)
  {
    Deserved(quota, s, n) && Single(s, n) && InHand(s, n) && Due(quota, s, n)
  }

  lemma SentSnoc(notices: seq<Name>, m: Name, n: Name)
    ensures Sent(notices + [m], n) == Sent(notices, n) + if m == n then 1 else 0
  {
  }

  /** What a step does to the two totals of a client. */
  lemma StepTotals(quota: map<Name, int>, s: State, e: Event, n: Name)
    ensures var s' := Apply(quota, s, e);
            var counts := e.Add? && e.call !in s.calls && e.chunk.name == n && n != "" && n != "default";
            && Get(s'.bytesIn, n) == Get(s.bytesIn, n) + (if counts then e.chunk.bytesIn else 0)
            && Get(s'.bytesOut, n) == Get(s.bytesOut, n) + (if counts then e.chunk.bytesOut else 0)
  {
    hide Reached;
  }

  /** In every run the totals of a managed client are what its chunks carried in and out; the unnamed client and
      the default one are not counted. */
  lemma {:induction false} TotalsAreSums(quota: map<Name, int>, events: seq<Event>, n: Name)
    ensures var s, managed := Exec(quota, events), n != "" && n != "default";
            && Get(s.bytesIn, n) == (if managed then CarriedIn(quota, events, n) else 0)
            && Get(s.bytesOut, n) == (if managed then CarriedOut(quota, events, n) else 0)
  {
    if events != [] {
      var before, e := events[..|events| - 1], events[|events| - 1];
      TotalsAreSums(quota, before, n);
      StepTotals(quota, Exec(quota, before), e, n);
      hide Apply;
    }
  }

  lemma StepDeserves(quota: map<Name, int>, s: State, e: Event, n: Name)
    requires Deserved(quota, s, n)
    ensures Deserved(quota, Apply(quota, s, e), n)
  {
    StepTotals(quota, s, e, n);
  }

  lemma StepSingle(quota: map<Name, int>, s: State, e: Event, n: Name)
    requires Single(s, n)
    ensures Single(Apply(quota, s, e), n)
  {
    hide Sent, Total;
    if e.Fire? && e.call in s.calls {
      SentSnoc(s.notices, s.calls[e.call].name, n);
    }
  }

  lemma StepInHand(quota: map<Name, int>, s: State, e: Event, n: Name)
    requires InHand(s, n)
    ensures InHand(Apply(quota, s, e), n)
  {
    hide Sent, Total;
    var s' := Apply(quota, s, e);
    if e.Fire? && e.call in s.calls {
      SentSnoc(s.notices, s.calls[e.call].name, n);
    }
    if n in s'.notified && Sent(s'.notices, n) == 0 {
      if n in s.notified {
        var i :| i in s.calls && s.calls[i] == Firing(n);
        assert i in s'.calls && s'.calls[i] == Firing(n);
      } else {
        assert e.call in s'.calls && s'.calls[e.call] == Firing(n);
      }
    }
  }

  /** The last chunk to be counted reads a total no smaller than the one that reached the quota. */
  lemma StepDue(quota: map<Name, int>, s: State, e: Event, n: Name)
    requires Due(quota, s, n)
    ensures Due(quota, Apply(quota, s, e), n)
  {
    hide Sent;
    var s' := Apply(quota, s, e);
    if Reached(quota, s', n) && n !in s'.notified {
      if Reached(quota, s, n) {
        var i :| i in s.calls && (s.calls[i] == Added(n) || s.calls[i] == Over(n));
        assert i in s'.calls && (s'.calls[i] == Added(n) || s'.calls[i] == Over(n));
      } else {
        assert e.call in s'.calls && s'.calls[e.call] == Added(n);
      }
    }
  }

  lemma StepKeeps(quota: map<Name, int>, s: State, e: Event, n: Name)
    requires Good(quota, s, n)
    ensures Good(quota, Apply(quota, s, e), n)
  {
    hide Apply, Deserved, Single, InHand, Due;
    StepDeserves(quota, s, e, n);
    StepSingle(quota, s, e, n);
    StepInHand(quota, s, e, n);
    StepDue(quota, s, e, n);
  }

  lemma {:induction false} RunKeeps(quota: map<Name, int>, events: seq<Event>, n: Name)
    ensures Good(quota, Exec(quota, events), n)
  {
    if events != [] {
      RunKeeps(quota, events[..|events| - 1], n);
      StepKeeps(quota, Exec(quota, events[..|events| - 1]), events[|events| - 1], n);
    }
  }

  /** In every run at most one notice is sent for a client, and only once a managed client's chunks have carried
      its positive quota, in and out together; when no call is in progress it has been sent exactly then. */
  lemma NoticeExactlyOnce(quota: map<Name, int>, events: seq<Event>, n: Name)
    ensures var s := Exec(quota, events);
            var due := n != "" && n != "default" && Get(quota, n) > 0
                       && CarriedIn(quota, events, n) + CarriedOut(quota, events, n) >= Get(quota, n);
            && Sent(s.notices, n) <= 1
            && (Sent(s.notices, n) == 1 ==> due)
            && (s.calls == map[] ==> (Sent(s.notices, n) == 1 <==> due))
  {
    RunKeeps(quota, events, n);
    TotalsAreSums(quota, events, n);
    hide Exec, CarriedIn, CarriedOut;
  }

  /** The server's fields and the critical sections over them. */
  class Meter {
    var bytesIn: map<Name, int>
    var bytesOut: map<Name, int>
    var notifiedLimit: set<Name>

    constructor ()
      ensures bytesIn == map[] && bytesOut == map[] && notifiedLimit == {}
    {
      bytesIn, bytesOut, notifiedLimit := map[], map[], {};
    }

    ghost predicate Shows(s: State)
      reads this
    {
      s.bytesIn == bytesIn && s.bytesOut == bytesOut && s.notified == notifiedLimit
    }

    method Add(c: Chunk)
      modifies this
      ensures forall n :: n != c.name || n == "" || n == "default" ==>
                            Get(bytesIn, n) == Get(old(bytesIn), n) && Get(bytesOut, n) == Get(old(bytesOut), n)
      ensures c.name != "" && c.name != "default" ==>
                && Get(bytesIn, c.name) == Get(old(bytesIn), c.name) + c.bytesIn
                && Get(bytesOut, c.name) == Get(old(bytesOut), c.name) + c.bytesOut
      ensures notifiedLimit == old(notifiedLimit)
      ensures forall s: State, k: nat :: old(Shows(s)) && k !in s.calls ==>
                                           Shows(if Managed(c.name) then OnAdd(s, k, c) else s)
    {
      if c.name == "" || c.name == "default" {
        return;
      }
      bytesIn := bytesIn[c.name := Get(bytesIn, c.name) + c.bytesIn];
      bytesOut := bytesOut[c.name := Get(bytesOut, c.name) + c.bytesOut];
    }

    /** checkTrafficLimit up to its lock: has the quota been reached? */
    method IsOver(n: Name, limit: int) returns (over: bool)
      ensures forall s: State, quota: map<Name, int> ::
                Shows(s) && Get(quota, n) == limit ==> (over <==> Reached(quota, s, n))
    {
      if limit <= 0 {
        return false;
      }
      var total := Get(bytesIn, n) + Get(bytesOut, n);
      over := total >= limit;
    }

    /** True for the one call that gets to send the notice. */
    method Mark(n: Name) returns (first: bool)
      modifies this
      ensures forall s: State, quota: map<Name, int>, k: nat ::
                old(Shows(s)) && k in s.calls && s.calls[k] == Over(n) ==>
                  Shows(Apply(quota, s, Event.Mark(k)))
                  && (first <==> Event.Mark(k).call in Apply(quota, s, Event.Mark(k)).calls)
    {
      first := n !in notifiedLimit;
      notifiedLimit := notifiedLimit + {n};
    }
  }
}
