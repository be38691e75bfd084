/** Login lockout per address: pkg/web/server.go, and web/server/index.js, which should behave alike. Time is a
    parameter in milliseconds. */
module Lockout {
  import opened Options

  /** A time.Time: the zero value lies before every clock reading. */
  datatype Time = Zero | At(ms: int)

  predicate Before(now: int, t: Time) { t.At? && now < t.ms }
  predicate After(now: int, t: Time) { t.At? ==> now > t.ms }

  /** The settings in force: at least one failure is allowed. */
  datatype Settings = Settings(max: nat, lock: nat)

  predicate Sane(c: Settings) { c.max >= 1 }

  /** getRateLimitMax and getRateLimitLockMin: a setting that is not positive means its default. */
  function InForce(rateLimitMax: int, lockMinutes: int): (c: Settings)
    ensures Sane(c) && c.lock >= 60_000
    ensures rateLimitMax > 0 ==> c.max == rateLimitMax
    ensures lockMinutes > 0 ==> c.lock / 60_000 == lockMinutes && c.lock % 60_000 == 0
    ensures rateLimitMax <= 0 ==> c.max == 5
    ensures lockMinutes <= 0 ==> c.lock == 900_000
  {
    Settings(if rateLimitMax <= 0 then 5 else rateLimitMax,
             (if lockMinutes <= 0 then 15 else lockMinutes) * 60_000)
  }

  // The Go panel: one map entry; a missing entry reads as the zero value.

  datatype Attempt = Attempt(count: nat, lockUntil: Time)

  type Entry = Option<Attempt>

  function Read(e: Entry): Attempt { if e.Some? then e.value else Attempt(0, Zero) }

  predicate Locked(e: Entry, now: int) { e.Some? && Before(now, e.value.lockUntil) }

  /** recordFailedLogin. */
  function Fail(c: Settings, e: Entry, now: int): Entry
  {
    var a := Read(e);
    if a.count + 1 >= c.max then Some(Attempt(0, At(now + c.lock))) else Some(a.(count := a.count + 1))
  }

  /** The failed-login part of cleanupSessions. */
  function Cleanup(e: Entry, now: int): Entry
  {
    if e.Some? && After(now, e.value.lockUntil) && e.value.count == 0 then None else e
  }

  /** How handleLogin answers. */
  datatype Decision = Denied | Failed | Succeeded | BadRequest

  datatype Request = Good | Bad | Malformed

  /** handleLogin for requests handled one at a time. */
  function Login(c: Settings, e: Entry, req: Request, now: int): (Entry, Decision)
  {
    if Locked(e, now) then (e, Denied)
    else
      match req
      case Malformed => (e, BadRequest)
      case Bad => (Fail(c, e, now), Failed)
      case Good => (None, Succeeded)
  }

  /** A login attempt, with what the Go panel makes of its body and what the JavaScript panel does; or a pass of
      the cleanup, which may have read its clock some time before. */
  datatype Event = Try(req: Request, js: Request, at: int) | Tidy(at: int, reading: int)

  /** The entry of one address, with its history. */
  datatype State = State(entry: Entry, decisions: seq<Decision>, clock: int)

  function Apply(c: Settings, s: State, e: Event): State
  {
    match e
    case Tidy(at, reading) => s.(entry := Cleanup(s.entry, reading), clock := at)
    case Try(req, _, at) =>
      var (entry, d) := Login(c, s.entry, req, at);
      State(entry, s.decisions + [d], at)
  }

  function Exec(c: Settings, events: seq<Event>): State
  {
    if events == [] then State(None, [], 0)
    else Apply(c, Exec(c, events[..|events| - 1]), events[|events| - 1])
  }

  predicate Timed(events: seq<Event>)
  {
    && (forall i, j :: 0 <= i < j < |events| ==> events[i].at <= events[j].at)
    && (forall i :: 0 <= i < |events| ==> events[i].at >= 0)
    && (forall i :: 0 <= i < |events| && events[i].Tidy? ==> events[i].reading <= events[i].at)
  }

  lemma {:induction false} ClockIsLast(c: Settings, events: seq<Event>)
    requires Timed(events)
    ensures Exec(c, events).clock == if events == [] then 0 else events[|events| - 1].at
  {
  }

  // What the attempts say, without the entry.

  /** Barred at t: the failures evaluated since the last success are a positive multiple of the maximum, and the
      last of them is less than the lock time old. */
  predicate Barred(c: Settings, fails: seq<int>, t: int)
    requires Sane(c)
  {
    fails != [] && |fails| % c.max == 0 && t < fails[|fails| - 1] + c.lock
  }

  function Verdict(c: Settings, fails: seq<int>, req: Request, t: int): Decision
    requires Sane(c)
  {
    if Barred(c, fails, t) then Denied
    else
      match req
      case Malformed => BadRequest
      case Bad => Failed
      case Good => Succeeded
  }

  /** When the wrong passwords evaluated since the last success came. */
  function Fails(c: Settings, events: seq<Event>): seq<int>
    requires Sane(c)
  {
    if events == [] then []
    else
      var fails, e := Fails(c, events[..|events| - 1]), events[|events| - 1];
      if e.Tidy? || Barred(c, fails, e.at) then fails
      else
        match e.req
        case Malformed => fails
        case Bad => fails + [e.at]
        case Good => []
  }

  // The window.

  /** Among consecutive failures, any max + 1 span at least the lock time. */
  ghost predicate Spread(c: Settings, ts: seq<int>)
  {
    forall i :: 0 <= i < |ts| - c.max ==> ts[i + c.max] - ts[i] >= c.lock
  }

  predicate Sorted(ts: seq<int>)
  {
    forall i, j :: 0 <= i < j < |ts| ==> ts[i] <= ts[j]
  }

  /** The count is of the failures after the last one that locked, and that one set the lock. */
  ghost predicate WindowInv(c: Settings, entry: Entry, clock: int, fails: seq<int>)
    requires Sane(c)
  {
    var a, n := Read(entry), |fails|;
    && a.count < c.max && a.count <= n
    && Sorted(fails) && Spread(c, fails)
    && (n > 0 ==> fails[n - 1] <= clock)
    && a.count == n % c.max
    && (a.count > 0 ==> !Before(clock, a.lockUntil))
    && (if a.count == n then a.lockUntil == Zero
        else var unlock := fails[n - 1 - a.count] + c.lock;
             a.lockUntil == At(unlock) || (a.lockUntil == Zero && clock > unlock))
  }

  lemma CountsRound(n: nat, m: nat)
    requires m >= 1
    ensures (n + 1) % m == if n % m + 1 == m then 0 else n % m + 1
  {
    var q, r := n / m, n % m;
    assert n == m * q + r;
    if r + 1 == m {
      assert n + 1 == m * (q + 1) by { assert m * (q + 1) == m * q + m; }
      RemainderIs(n + 1, m, q + 1, 0);
    } else {
      RemainderIs(n + 1, m, q, r + 1);
    }
  }

  lemma RemainderIs(n: nat, m: nat, q: nat, r: nat)
    requires r < m && n == m * q + r
    ensures n % m == r
  {
    var d: int := n / m - q;
    assert m * d + n % m == r by {
      assert m * (n / m - q) == m * (n / m) - m * q;
    }
    assert d >= 1 ==> m * d >= m;
    assert d <= -1 ==> m * d <= 0 - m;
  }

  lemma FailKeepsWindow(c: Settings, entry: Entry, clock: int, fails: seq<int>, now: int)
    requires Sane(c) && WindowInv(c, entry, clock, fails) && clock <= now && !Locked(entry, now)
    ensures WindowInv(c, Fail(c, entry, now), now, fails + [now])
  {
    var a, n := Read(entry), |fails|;
    if n >= c.max {
      var g := n - 1 - a.count;
      assert n - c.max <= g && fails[n - c.max] <= fails[g];
    }
    SpreadSnoc(c, fails, now);
    CountsRound(n, c.max);
    hide Spread;
  }

  lemma SpreadSnoc(c: Settings, ts: seq<int>, t: int)
    requires Sane(c) && Spread(c, ts) && (|ts| >= c.max ==> t - ts[|ts| - c.max] >= c.lock)
    ensures Spread(c, ts + [t])
  {
  }

  /** The entry locks exactly when the history bars. */
  lemma LockedIsBarred(c: Settings, entry: Entry, clock: int, fails: seq<int>, t: int)
    requires Sane(c) && WindowInv(c, entry, clock, fails) && clock <= t
    ensures Locked(entry, t) <==> Barred(c, fails, t)
  {
    hide Spread, Sorted;
  }

  lemma StepKeepsWindow(c: Settings, s: State, fails: seq<int>, e: Event)
    requires Sane(c) && WindowInv(c, s.entry, s.clock, fails) && s.clock <= e.at && (e.Tidy? ==> e.reading <= e.at)
    ensures var s' := Apply(c, s, e);
            var fails' := if e.Tidy? || Barred(c, fails, e.at) || e.req.Malformed? then fails
                          else if e.req.Bad? then fails + [e.at] else [];
            WindowInv(c, s'.entry, s'.clock, fails')
  {
    LockedIsBarred(c, s.entry, s.clock, fails, e.at);
    if e.Try? && e.req.Bad? && !Locked(s.entry, e.at) {
      FailKeepsWindow(c, s.entry, s.clock, fails, e.at);
    }
    hide Barred, Spread;
  }

  lemma {:induction false} RunKeepsWindow(c: Settings, events: seq<Event>)
    requires Sane(c) && Timed(events)
    ensures WindowInv(c, Exec(c, events).entry, Exec(c, events).clock, Fails(c, events))
  {
    if events != [] {
      var before := events[..|events| - 1];
      RunKeepsWindow(c, before);
      ClockIsLast(c, before);
      StepKeepsWindow(c, Exec(c, before), Fails(c, before), events[|events| - 1]);
      hide WindowInv, Apply, Barred;
    }
  }

  /** How many of the times lie in [a, b). */
  function CountIn(ts: seq<int>, a: int, b: int): (n: nat)
    ensures n <= |ts|
  {
    if ts == [] then 0
    else CountIn(ts[..|ts| - 1], a, b) + if a <= ts[|ts| - 1] < b then 1 else 0
  }

  lemma {:induction false} CountInSkips(ts: seq<int>, a: int, b: int, k: nat)
    requires k <= |ts| && forall i :: 0 <= i < k ==> ts[i] < a
    ensures CountIn(ts, a, b) <= |ts| - k
  {
    if |ts| > k {
      CountInSkips(ts[..|ts| - 1], a, b, k);
    } else if ts != [] {
      CountInSkips(ts[..|ts| - 1], a, b, k - 1);
    }
  }

  lemma {:induction false} SpreadWindow(c: Settings, ts: seq<int>, a: int)
    requires Sane(c) && Sorted(ts) && Spread(c, ts)
    ensures CountIn(ts, a, a + c.lock) <= c.max
  {
    var n := |ts|;
    if n > c.max {
      if ts[n - 1] < a + c.lock {
        var k := n - c.max;
        assert ts[n - 1] - ts[k - 1] >= c.lock;
        CountInSkips(ts, a, a + c.lock, k);
      } else {
        SpreadWindow(c, ts[..n - 1], a);
      }
    }
  }

  /** Every half-open window as long as the lock time holds at most the allowed number of the failures evaluated
      since the last success, whenever cleanup runs. */
  lemma FailureWindow(rateLimitMax: int, lockMinutes: int, events: seq<Event>, a: int)
    requires Timed(events)
    ensures var c := InForce(rateLimitMax, lockMinutes);
            CountIn(Fails(c, events), a, a + c.lock) <= c.max
  {
    hide *;
    var c := InForce(rateLimitMax, lockMinutes);
    RunKeepsWindow(c, events);
    WindowIsSpread(c, Exec(c, events), Fails(c, events));
    SpreadWindow(c, Fails(c, events), a);
  }

  lemma WindowIsSpread(c: Settings, s: State, fails: seq<int>)
    requires Sane(c) && WindowInv(c, s.entry, s.clock, fails)
    ensures Sorted(fails) && Spread(c, fails)
  {
    hide Sorted, Spread;
  }

  /** Every answer in terms of the attempts alone: in every run, successes included, the next attempt is denied
      exactly when the history bars it, and otherwise answered by what its body says. */
  lemma DecidedExactly(rateLimitMax: int, lockMinutes: int, events: seq<Event>, req: Request, t: int)
    requires Timed(events)
    requires var c := InForce(rateLimitMax, lockMinutes); t >= Exec(c, events).clock
    ensures var c := InForce(rateLimitMax, lockMinutes);
            Login(c, Exec(c, events).entry, req, t).1 == Verdict(c, Fails(c, events), req, t)
  {
    var c := InForce(rateLimitMax, lockMinutes);
    RunKeepsWindow(c, events);
    LockedIsBarred(c, Exec(c, events).entry, Exec(c, events).clock, Fails(c, events), t);
    hide Exec, WindowInv, Timed, Barred, Fails, Fail, Locked;
  }

  // Cleanup is invisible.

  function WithoutTidy(events: seq<Event>): seq<Event>
  {
    if events == [] then []
    else
      var rest, e := WithoutTidy(events[..|events| - 1]), events[|events| - 1];
      if e.Tidy? then rest else rest + [e]
  }

  /** Two entries that answer alike from time now on: equal counts, and the same lock or none in force. */
  predicate Alike(e: Entry, f: Entry, now: int)
  {
    var a, b := Read(e), Read(f);
    a.count == b.count
    && (a.lockUntil == b.lockUntil || (!Before(now, a.lockUntil) && !Before(now, b.lockUntil)))
  }

  lemma CleanupIsAlike(e: Entry, f: Entry, was: int, now: int, reading: int)
    requires Alike(e, f, was) && was <= now && reading <= now
    ensures Alike(Cleanup(e, reading), f, now)
  {
  }

  lemma LoginIsAlike(c: Settings, e: Entry, f: Entry, req: Request, was: int, now: int)
    requires Alike(e, f, was) && was <= now
    ensures Login(c, e, req, now).1 == Login(c, f, req, now).1
    ensures Alike(Login(c, e, req, now).0, Login(c, f, req, now).0, now)
  {
  }

  /** Cleanup never changes a decision: with or without it every attempt is answered alike. */
  lemma {:induction false} CleanupIsInvisible(c: Settings, events: seq<Event>)
    requires Timed(events)
    ensures Exec(c, events).decisions == Exec(c, WithoutTidy(events)).decisions
    ensures Alike(Exec(c, events).entry, Exec(c, WithoutTidy(events)).entry, Exec(c, events).clock)
  {
    if events != [] {
      var before, e := events[..|events| - 1], events[|events| - 1];
      CleanupIsInvisible(c, before);
      ClockIsLast(c, before);
      var s, t := Exec(c, before), Exec(c, WithoutTidy(before));
      if e.Tidy? {
        CleanupIsAlike(s.entry, t.entry, s.clock, e.at, e.reading);
      } else {
        LoginIsAlike(c, s.entry, t.entry, e.req, s.clock, e.at);
        assert (WithoutTidy(before) + [e])[..|WithoutTidy(before)|] == WithoutTidy(before);
      }
    }
  }

  // The JavaScript panel: five failures, fifteen minutes; the count is reset at expiry.

  const JS_MAX: nat := 5
  const JS_LOCK: nat := 15 * 60 * 1000

  datatype JsAttempt = JsAttempt(count: nat, lockUntil: Option<int>)

  type JsEntry = Option<JsAttempt>

  /** checkLoginRateLimit: the entry afterwards, and whether the attempt is allowed. */
  function JsCheck(e: JsEntry, now: int): (JsEntry, bool)
  {
    if e.None? then (e, true)
    else if e.value.lockUntil.Some? && now < e.value.lockUntil.value then (e, false)
    else if e.value.lockUntil.Some? && now >= e.value.lockUntil.value then (None, true)
    else (e, e.value.count < JS_MAX)
  }

  /** recordLoginFailure. */
  function JsFail(e: JsEntry, now: int): JsEntry
  {
    var a := if e.None? then JsAttempt(0, None) else e.value;
    var n := a.count + 1;
    Some(if n >= JS_MAX then JsAttempt(n, Some(now + JS_LOCK)) else a.(count := n))
  }

  /** /api/login. A body that the JSON middleware refuses never gets there. */
  function JsLogin(e: JsEntry, req: Request, now: int): (JsEntry, Decision)
  {
    if req.Malformed? then (e, BadRequest)
    else
      var (e, allowed) := JsCheck(e, now);
      if !allowed then (e, Denied)
      else if req.Good? then (None, Succeeded)
      else (JsFail(e, now), Failed)
  }

  datatype JsState = JsState(entry: JsEntry, decisions: seq<Decision>)

  /** The same events; the Go panel's cleanup does not exist here. */
  function JsExec(events: seq<Event>): JsState
  {
    if events == [] then JsState(None, [])
    else
      var s, e := JsExec(events[..|events| - 1]), events[|events| - 1];
      if e.Tidy? then s
      else
        var (entry, d) := JsLogin(s.entry, e.js, e.at);
        JsState(entry, s.decisions + [d])
  }

  const Same := InForce(5, 15)

  /** How the entries correspond at time now. Go has already reset the count of a locked address. */
  predicate Matches(g: Entry, j: JsEntry, now: int)
  {
    var a := Read(g);
    if j.None? then a.count == 0 && !Before(now, a.lockUntil)
    else if j.value.lockUntil.None? then
      0 < j.value.count < JS_MAX && a.count == j.value.count && !Before(now, a.lockUntil)
    else
      a.count == 0 && (a.lockUntil == At(j.value.lockUntil.value)
                       || (now >= j.value.lockUntil.value && !Before(now, a.lockUntil)))
  }

  /** One attempt from corresponding entries is answered alike exactly when, locked, the JavaScript panel parses
      the body, and, not locked, both make the same of it; and then the entries correspond again. */
  lemma LoginsMatch(g: Entry, j: JsEntry, req: Request, js: Request, was: int, now: int)
    requires Matches(g, j, was) && was <= now
    ensures var (g', d) := Login(Same, g, req, now);
            var (j', d') := JsLogin(j, js, now);
            && (d == d' <==> if Locked(g, now) then !js.Malformed? else req == js)
            && (d == d' ==> Matches(g', j', now))
  {
  }

  /** The i-th event meets both panels in a way they answer alike. */
  predicate TakenAlike(events: seq<Event>, i: nat)
    requires i < |events|
  {
    events[i].Try? ==>
      if Locked(Exec(Same, events[..i]).entry, events[i].at) then !events[i].js.Malformed?
      else events[i].req == events[i].js
  }

  lemma TakenAlikeBefore(events: seq<Event>, n: nat)
    requires n <= |events|
    ensures forall i :: 0 <= i < n ==> (TakenAlike(events[..n], i) <==> TakenAlike(events, i))
  {
    forall i | 0 <= i < n
      ensures TakenAlike(events[..n], i) <==> TakenAlike(events, i)
    {
      assert events[..n][..i] == events[..i];
    }
  }

  /** For every timed sequence of attempts, with the Go cleanup anywhere between them, the Go panel set to five
      failures and fifteen minutes and the JavaScript panel decide alike exactly when every body that arrives
      unlocked is read alike and every body that arrives locked is JSON to the JavaScript panel. */
  lemma {:induction false} PanelsAgree(events: seq<Event>)
    requires Timed(events)
    ensures Exec(Same, events).decisions == JsExec(events).decisions <==>
            forall i :: 0 <= i < |events| ==> TakenAlike(events, i)
    ensures Exec(Same, events).decisions == JsExec(events).decisions ==>
              Matches(Exec(Same, events).entry, JsExec(events).entry, Exec(Same, events).clock)
  {
    if events != [] {
      var n := |events| - 1;
      var before, e := events[..n], events[n];
      PanelsAgree(before);
      ClockIsLast(Same, before);
      TakenAlikeBefore(events, n);
      SameLength(before);
      var s, j := Exec(Same, before), JsExec(before);
      hide Exec, JsExec, Login, JsLogin, Matches;
      OneMore(Same, events);
      if e.Try? {
        var d, d' := Login(Same, s.entry, e.req, e.at).1, JsLogin(j.entry, e.js, e.at).1;
        BothMore(s.decisions, j.decisions, d, d');
        if s.decisions == j.decisions {
          LoginsMatch(s.entry, j.entry, e.req, e.js, s.clock, e.at);
          assert TakenAlike(events, n) <==> d == d';
        }
      }
      if e.Tidy? && s.decisions == j.decisions {
        TidyMatches(s.entry, j.entry, s.clock, e.at, e.reading);
      }
    }
  }

  /** What the last event of a run does to both panels. */
  lemma OneMore(c: Settings, events: seq<Event>)
    requires events != []
    ensures var e := events[|events| - 1];
            var s, j := Exec(c, events[..|events| - 1]), JsExec(events[..|events| - 1]);
            var s', j' := Exec(c, events), JsExec(events);
            && s'.clock == e.at
            && (e.Tidy? ==> s'.entry == Cleanup(s.entry, e.reading) && s'.decisions == s.decisions && j' == j)
            && (e.Try? ==> var (g, d) := Login(c, s.entry, e.req, e.at);
                           var (h, d') := JsLogin(j.entry, e.js, e.at);
                           && s'.entry == g && s'.decisions == s.decisions + [d]
                           && j' == JsState(h, j.decisions + [d']))
  {
  }

  lemma BothMore(a: seq<Decision>, b: seq<Decision>, x: Decision, y: Decision)
    requires |a| == |b|
    ensures a + [x] == b + [y] <==> a == b && x == y
  {
    assert (a + [x])[..|a|] == a && (b + [y])[..|b|] == b;
    assert (a + [x])[|a|] == x && (b + [y])[|b|] == y;
  }

  lemma {:induction false} SameLength(events: seq<Event>)
    ensures |Exec(Same, events).decisions| == |JsExec(events).decisions|
  {
    if events != [] {
      SameLength(events[..|events| - 1]);
    }
  }

  lemma TidyMatches(g: Entry, j: JsEntry, was: int, now: int, reading: int)
    requires Matches(g, j, was) && was <= now && reading <= now
    ensures Matches(Cleanup(g, reading), j, now)
  {
  }

  /** For bodies that are JSON, where the JavaScript panel takes what Go cannot decode for a wrong password: the
      panels decide alike exactly when every such body arrives while the address is locked. */
  lemma PanelsAgreeOnJson(events: seq<Event>)
    requires Timed(events)
    requires forall i :: 0 <= i < |events| && events[i].Try? ==>
                           events[i].js == if events[i].req.Malformed? then Bad else events[i].req
    ensures Exec(Same, events).decisions == JsExec(events).decisions <==>
            forall i :: 0 <= i < |events| && events[i].Try? && events[i].req.Malformed? ==>
                          Locked(Exec(Same, events[..i]).entry, events[i].at)
  {
    PanelsAgree(events);
    hide Exec, JsExec, Timed;
    forall i | 0 <= i < |events|
      ensures TakenAlike(events, i) <==>
              (events[i].Try? && events[i].req.Malformed? ==> Locked(Exec(Same, events[..i]).entry, events[i].at))
    {
    }
  }

  /** n attempts whose password is a number, say: Go refuses the body, the JavaScript panel counts a failure. */
  function Numbers(n: nat, t: int): seq<Event>
  {
    seq(n, _ => Try(Malformed, Bad, t))
  }

  lemma {:induction false} AfterNumbers(n: nat, t: int)
    requires n <= 5
    ensures Exec(Same, Numbers(n, t)).entry == None
    ensures JsExec(Numbers(n, t)).entry ==
            if n == 0 then None
            else Some(JsAttempt(n, if n == 5 then Some(t + JS_LOCK) else None))
  {
    if n > 0 {
      assert Numbers(n, t)[..n - 1] == Numbers(n - 1, t);
      AfterNumbers(n - 1, t);
      OneMore(Same, Numbers(n, t));
    }
  }

  /** Where they part: after five such attempts the right password succeeds in Go and is denied in JavaScript. */
  lemma NumbersPartThem(t: int)
    ensures var events := Numbers(5, t) + [Try(Good, Good, t)];
            && |Exec(Same, events).decisions| > 0 && |JsExec(events).decisions| > 0
            && Exec(Same, events).decisions[|Exec(Same, events).decisions| - 1] == Succeeded
            && JsExec(events).decisions[|JsExec(events).decisions| - 1] == Denied
  {
    var events := Numbers(5, t) + [Try(Good, Good, t)];
    assert events[..5] == Numbers(5, t);
    AfterNumbers(5, t);
    OneMore(Same, events);
    hide Exec, JsExec;
  }

  // The maps.

  type Ip = string

  /** failedLogins of the Go panel. */
  class FailedLogins {
    var failedLogins: map<Ip, Attempt>
    const settings: Settings

    function At(ip: Ip): Entry
      reads this
    {
      if ip in failedLogins then Some(failedLogins[ip]) else None
    }

    constructor (settings: Settings)
      ensures this.settings == settings && failedLogins == map[]
    {
      this.settings := settings;
      failedLogins := map[];
    }

    method RecordFailedLogin(ip: Ip, now: int)
      modifies this
      ensures At(ip) == Fail(settings, old(At(ip)), now)
      ensures forall x :: x != ip ==> At(x) == old(At(x))
    {
      var attempt := if ip in failedLogins then failedLogins[ip] else Attempt(0, Zero);
      attempt := attempt.(count := attempt.count + 1);
      if attempt.count >= settings.max {
        attempt := Attempt(0, Time.At(now + settings.lock));
      }
      failedLogins := failedLogins[ip := attempt];
    }

    /** handleLogin: check, decode, compare, record. */
    method HandleLogin(ip: Ip, req: Request, now: int) returns (d: Decision)
      modifies this
      ensures (At(ip), d) == Login(settings, old(At(ip)), req, now)
      ensures forall x :: x != ip ==> At(x) == old(At(x))
    {
      if ip in failedLogins && Before(now, failedLogins[ip].lockUntil) {
        return Denied;
      }
      if req.Malformed? {
        return BadRequest;
      }
      if req.Bad? {
        RecordFailedLogin(ip, now);
        return Failed;
      }
      failedLogins := failedLogins - {ip};
      d := Succeeded;
    }

    /** The deleting loop, in any order. */
    method CleanupFailed(now: int)
      modifies this
      ensures forall ip :: At(ip) == Cleanup(old(At(ip)), now)
      ensures forall ip :: ip in old(failedLogins) && ip !in failedLogins <==>
                           ip in old(failedLogins) && old(failedLogins)[ip].count == 0
                           && (old(failedLogins)[ip].lockUntil.At? ==> now > old(failedLogins)[ip].lockUntil.ms)
      ensures forall ip :: ip in failedLogins ==> ip in old(failedLogins) && failedLogins[ip] == old(failedLogins)[ip]
    {
      var todo := failedLogins.Keys;
      while todo != {}
        invariant todo <= failedLogins.Keys
        invariant forall ip :: At(ip) == if ip in todo then old(At(ip)) else Cleanup(old(At(ip)), now)
        decreases todo
      {
        var ip :| ip in todo;
        todo := todo - {ip};
        if After(now, failedLogins[ip].lockUntil) && failedLogins[ip].count == 0 {
          failedLogins := failedLogins - {ip};
        }
      }
    }
  }

  /** loginAttempts of the JavaScript panel. */
  class LoginAttempts {
    var loginAttempts: map<Ip, JsAttempt>

    function At(ip: Ip): JsEntry
      reads this
    {
      if ip in loginAttempts then Some(loginAttempts[ip]) else None
    }

    constructor ()
      ensures loginAttempts == map[]
    {
      loginAttempts := map[];
    }

    method CheckLoginRateLimit(ip: Ip, now: int) returns (allowed: bool)
      modifies this
      ensures (At(ip), allowed) == JsCheck(old(At(ip)), now)
      ensures forall x :: x != ip ==> At(x) == old(At(x))
    {
      if ip !in loginAttempts {
        return true;
      }
      var attempt := loginAttempts[ip];
      if attempt.lockUntil.Some? && now < attempt.lockUntil.value {
        return false;
      }
      if attempt.lockUntil.Some? && now >= attempt.lockUntil.value {
        loginAttempts := loginAttempts - {ip};
        return true;
      }
      allowed := attempt.count < JS_MAX;
    }

    method RecordLoginFailure(ip: Ip, now: int)
      modifies this
      ensures At(ip) == JsFail(old(At(ip)), now)
      ensures forall x :: x != ip ==> At(x) == old(At(x))
    {
      if ip !in loginAttempts {
        loginAttempts := loginAttempts[ip := JsAttempt(0, None)];
      }
      loginAttempts := loginAttempts[ip := loginAttempts[ip].(count := loginAttempts[ip].count + 1)];
      if loginAttempts[ip].count >= JS_MAX {
        loginAttempts := loginAttempts[ip := loginAttempts[ip].(lockUntil := Some(now + JS_LOCK))];
      }
    }

    method HandleLogin(ip: Ip, req: Request, now: int) returns (d: Decision)
      modifies this
      ensures (At(ip), d) == JsLogin(old(At(ip)), req, now)
      ensures forall x :: x != ip ==> At(x) == old(At(x))
    {
      if req.Malformed? {
        return BadRequest;
      }
      var allowed := CheckLoginRateLimit(ip, now);
      if !allowed {
        return Denied;
      }
      if req.Good? {
        loginAttempts := loginAttempts - {ip};
        return Succeeded;
      }
      RecordLoginFailure(ip, now);
      d := Failed;
    }
  }
}
