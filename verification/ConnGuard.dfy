/** pkg/security/connguard.go: connection limits, offences and bans per address. Time is a parameter, in
    nanoseconds; whitelist membership is a fixed set. */
module ConnGuard {
  import opened Options

  type Ip = string

  const MAX_CONN: int := 200
  const MIN_INTERVAL: int := 1_000_000_000
  const BAN_DURATION: int := 60_000_000_000
  const BAN_THRESHOLD: int := 3

  predicate IsLoopback(ip: Ip) { ip == "127.0.0.1" || ip == "::1" || ip == "localhost" }

  /** Reading a missing key of a Go map of integers gives zero. */
  function Count(m: map<Ip, int>, ip: Ip): int { if ip in m then m[ip] else 0 }

  datatype Guard = Guard(
    connCount: map<Ip, int>, lastConn: map<Ip, int>, blacklist: map<Ip, int>, misbehavior: map<Ip, int>)

  datatype Call = Check | Release | BanForBadBehavior | ClearMisbehavior | BanIP

  /** Count one offence; the third bans and starts over. */
  function Offend(g: Guard, ip: Ip, now: int): Guard
  {
    var n := Count(g.misbehavior, ip) + 1;
    if n >= BAN_THRESHOLD
    then g.(blacklist := g.blacklist[ip := now], misbehavior := g.misbehavior[ip := 0])
    else g.(misbehavior := g.misbehavior[ip := n])
  }

  function Admit(g: Guard, ip: Ip, now: int): Guard
  {
    g.(lastConn := g.lastConn[ip := now], connCount := g.connCount[ip := Count(g.connCount, ip) + 1])
  }

  predicate IsBanned(g: Guard, ip: Ip, now: int)
  {
    ip in g.blacklist && now - g.blacklist[ip] < BAN_DURATION
  }

  /** Check, past the whitelist and loopback exemptions. */
  function CheckLimited(g: Guard, ip: Ip, now: int): (Guard, bool)
  {
    if IsBanned(g, ip, now) then (g, false)
    else
      var g := g.(blacklist := g.blacklist - {ip});
      if ip in g.lastConn && now - g.lastConn[ip] < MIN_INTERVAL then (Offend(g, ip, now), false)
      else if Count(g.connCount, ip) >= MAX_CONN then (Offend(g, ip, now), false)
      else (Admit(g, ip, now), true)
  }

  /** A call: the guard afterwards, and what Check answers. The other calls answer nothing, written true. */
  function Step(wl: set<Ip>, g: Guard, call: Call, ip: Ip, now: int): (Guard, bool)
  {
    match call
    case Check =>
      if ip in wl then (g, true)
      else if IsLoopback(ip) then (Admit(g, ip, now), true)
      else CheckLimited(g, ip, now)
    case Release =>
      (if Count(g.connCount, ip) > 0
       then g.(connCount := g.connCount[ip := Count(g.connCount, ip) - 1])
       else g, true)
    case BanForBadBehavior => (if ip in wl then g else Offend(g, ip, now), true)
    case ClearMisbehavior => (g.(misbehavior := g.misbehavior - {ip}), true)
    case BanIP => (if ip in wl then g else g.(blacklist := g.blacklist[ip := now]), true)
  }

  /** GetStats drops expired bans. */
  function Sweep(g: Guard, now: int): Guard
  {
    g.(blacklist := map ip | ip in g.blacklist && now - g.blacklist[ip] < BAN_DURATION :: g.blacklist[ip])
  }

  // Histories.

  /** A call and its answer. */
  datatype Entry = Entry(call: Call, ip: Ip, at: int, ok: bool)

  /** The guard with the history that led to it: the calls with their answers, and the connections that Check admitted
      and Release has not been called for, each with its address. */
  datatype Monitor = Monitor(guard: Guard, log: seq<Entry>, conns: map<nat, Ip>, clock: int)

  /** A call about connection c from ip. */
  function Observe(wl: set<Ip>, m: Monitor, call: Call, c: nat, ip: Ip, now: int): Monitor
  {
    var (g, ok) := Step(wl, m.guard, call, ip, now);
    var conns := if call.Check? && ok then m.conns[c := ip]
                 else if call.Release? then m.conns - {c}
                 else m.conns;
    Monitor(g, m.log + [Entry(call, ip, now, ok)], conns, now)
  }

  /** The discipline of handleClient: Check once for a new connection, Release once for each admitted one. */
  predicate Allowed(m: Monitor, call: Call, c: nat, ip: Ip)
  {
    && (call.Check? ==> c !in m.conns)
    && (call.Release? ==> c in m.conns && m.conns[c] == ip)
  }

  datatype Event = Called(call: Call, conn: nat, ip: Ip, at: int) | Swept(at: int)

  /** One step; a call that the discipline rules out does not happen. */
  function Apply(wl: set<Ip>, m: Monitor, e: Event): Monitor
  {
    match e
    case Called(call, c, ip, at) => if Allowed(m, call, c, ip) then Observe(wl, m, call, c, ip, at) else m
    case Swept(at) => m.(guard := Sweep(m.guard, at), clock := at)
  }

  /** The connections of an address that are admitted and not released. */
  function Live(conns: map<nat, Ip>, ip: Ip): set<nat>
  {
    set c | c in conns && conns[c] == ip
  }

  const Fresh := Guard(map[], map[], map[], map[])

  function Exec(wl: set<Ip>, events: seq<Event>): Monitor
  {
    if events == [] then Monitor(Fresh, [], map[], 0)
    else Apply(wl, Exec(wl, events[..|events| - 1]), events[|events| - 1])
  }

  /** The clock never goes back. */
  predicate Timed(events: seq<Event>)
  {
    && (forall i, j :: 0 <= i < j < |events| ==> events[i].at <= events[j].at)
    && (forall i :: 0 <= i < |events| ==> events[i].at >= 0)
  }

  // What the calls and their answers say, without the guard. Times in nanoseconds.

  /** A misbehaviour: reported, or a Check refused to an address that was not banned. */
  predicate IsOffence(wl: set<Ip>, log: seq<Entry>, e: Entry)
    decreases |log|, 2
  {
    e.ip !in wl && (e.call.BanForBadBehavior? || (e.call.Check? && !e.ok && !BannedAt(wl, log, e.ip, e.at)))
  }

  /** A ban: ordered, or the third offence. */
  predicate IsBan(wl: set<Ip>, log: seq<Entry>, e: Entry)
    decreases |log|, 3
  {
    e.ip !in wl && (e.call.BanIP? || (IsOffence(wl, log, e) && Strikes(wl, log, e.ip) == 2))
  }

  /** The offences of ip since it was last cleared or banned for its third. */
  function Strikes(wl: set<Ip>, log: seq<Entry>, ip: Ip): nat
    decreases |log|, 0
  {
    if log == [] then 0
    else
      var rest, e := log[..|log| - 1], log[|log| - 1];
      if e.ip != ip then Strikes(wl, rest, ip)
      else if IsOffence(wl, rest, e) then (if Strikes(wl, rest, ip) == 2 then 0 else Strikes(wl, rest, ip) + 1)
      else if e.call.ClearMisbehavior? then 0
      else Strikes(wl, rest, ip)
  }

  function LastBan(wl: set<Ip>, log: seq<Entry>, ip: Ip): Option<int>
    decreases |log|, 0
  {
    if log == [] then None
    else
      var rest, e := log[..|log| - 1], log[|log| - 1];
      if e.ip == ip && IsBan(wl, rest, e) then Some(e.at) else LastBan(wl, rest, ip)
  }

  /** The last ban is less than a minute old. */
  predicate BannedAt(wl: set<Ip>, log: seq<Entry>, ip: Ip, t: int)
    decreases |log|, 1
  {
    LastBan(wl, log, ip).Some? && t - LastBan(wl, log, ip).value < 60_000_000_000
  }

  /** When ip was admitted. */
  function Admissions(log: seq<Entry>, ip: Ip): seq<int>
  {
    if log == [] then []
    else
      var rest, e := Admissions(log[..|log| - 1], ip), log[|log| - 1];
      if e.ip == ip && e.call.Check? && e.ok then rest + [e.at] else rest
  }

  predicate Spaced(ts: seq<int>)
  {
    forall i :: 0 < i < |ts| ==> ts[i] - ts[i - 1] >= 1_000_000_000
  }

  // What every call keeps, per address.

  ghost predicate Accounting(wl: set<Ip>, m: Monitor, ip: Ip)
  {
    && Count(m.guard.connCount, ip) == (if ip in wl then 0 else |Live(m.conns, ip)|)
    && (ip !in wl && !IsLoopback(ip) ==> |Live(m.conns, ip)| <= 200)
  }

  ghost predicate Offences(wl: set<Ip>, m: Monitor, ip: Ip)
  {
    Count(m.guard.misbehavior, ip) == Strikes(wl, m.log, ip) < 3
  }

  ghost predicate Bans(wl: set<Ip>, m: Monitor, ip: Ip)
  {
    var last := LastBan(wl, m.log, ip);
    && (last.Some? ==> last.value <= m.clock)
    && (ip in wl ==> last.None?)
    && if ip in m.guard.blacklist then last == Some(m.guard.blacklist[ip])
       else last.Some? ==> m.clock - last.value >= 60_000_000_000
  }

  ghost predicate Spacing(wl: set<Ip>, m: Monitor, ip: Ip)
  {
    var ts := Admissions(m.log, ip);
    ip !in wl && !IsLoopback(ip) ==>
      && Spaced(ts)
      && (ip in m.guard.lastConn <==> ts != [])
      && (ts != [] ==> m.guard.lastConn[ip] == ts[|ts| - 1])
  }

  ghost predicate Good(wl: set<Ip>, m: Monitor, ip: Ip)
  {
    Accounting(wl, m, ip) && Offences(wl, m, ip) && Bans(wl, m, ip) && Spacing(wl, m, ip)
  }

  ghost predicate Inv(wl: set<Ip>, m: Monitor)
  {
    && (forall ip :: Good(wl, m, ip))
    && (forall i :: 0 <= i < |m.log| ==> m.log[i].at <= m.clock)
    && (forall i, j :: 0 <= i < j < |m.log| ==> m.log[i].at <= m.log[j].at)
  }

  /** How the readings of the log change with one more entry. */
  lemma LogSnoc(wl: set<Ip>, log: seq<Entry>, e: Entry, ip: Ip)
    ensures Strikes(wl, log + [e], ip) ==
            if e.ip != ip then Strikes(wl, log, ip)
            else if IsOffence(wl, log, e) then (if Strikes(wl, log, ip) == 2 then 0 else Strikes(wl, log, ip) + 1)
            else if e.call.ClearMisbehavior? then 0
            else Strikes(wl, log, ip)
    ensures LastBan(wl, log + [e], ip) == if e.ip == ip && IsBan(wl, log, e) then Some(e.at) else LastBan(wl, log, ip)
    ensures Admissions(log + [e], ip) ==
            if e.ip == ip && e.call.Check? && e.ok then Admissions(log, ip) + [e.at] else Admissions(log, ip)
  {
    assert (log + [e])[..|log|] == log;
    hide IsOffence, IsBan;
  }

  /** A call about one address leaves every address good. */
  lemma ObserveKeeps(wl: set<Ip>, m: Monitor, call: Call, c: nat, ip: Ip, now: int, x: Ip)
    requires Good(wl, m, x) && m.clock <= now && Allowed(m, call, c, ip)
    ensures Good(wl, Observe(wl, m, call, c, ip, now), x)
  {
    hide Accounting, Offences, Bans, Spacing, Observe;
    KeepsAccounting(wl, m, call, c, ip, now, x);
    KeepsOffencesAndBans(wl, m, call, c, ip, now, x);
    KeepsSpacing(wl, m, call, c, ip, now, x);
  }

  lemma KeepsAccounting(wl: set<Ip>, m: Monitor, call: Call, c: nat, ip: Ip, now: int, x: Ip)
    requires Accounting(wl, m, x) && Allowed(m, call, c, ip)
    ensures Accounting(wl, Observe(wl, m, call, c, ip, now), x)
  {
    ConnectionCounts(wl, m.guard, call, ip, now);
    LiveChanges(m.conns, c, ip, x);
    hide Step, IsLoopback, Live;
  }

  /** One more connection of an address, and one fewer. */
  lemma LiveChanges(conns: map<nat, Ip>, c: nat, ip: Ip, x: Ip)
    ensures c !in conns ==> |Live(conns[c := ip], x)| == |Live(conns, x)| + if x == ip then 1 else 0
    ensures c in conns && conns[c] == ip ==> |Live(conns - {c}, x)| == |Live(conns, x)| - if x == ip then 1 else 0
  {
    if c !in conns {
      assert Live(conns[c := ip], x) == Live(conns, x) + if x == ip then {c} else {};
    } else if conns[c] == ip {
      assert Live(conns - {c}, x) == Live(conns, x) - if x == ip then {c} else {};
    }
  }

  /** What a call does to the connection counters. */
  lemma ConnectionCounts(wl: set<Ip>, g: Guard, call: Call, ip: Ip, now: int)
    ensures var (g', ok) := Step(wl, g, call, ip, now);
            var n := Count(g.connCount, ip);
            && (forall x :: x != ip ==> Count(g'.connCount, x) == Count(g.connCount, x))
            && Count(g'.connCount, ip) ==
               (if call.Check? && ok && ip !in wl then n + 1
                else if call.Release? && n > 0 then n - 1
                else n)
            && (call.Check? && ok && ip !in wl && !IsLoopback(ip) ==> n < 200)
  {
    hide IsBanned, IsLoopback;
  }

  /** The guard and the history agree about who is banned. */
  lemma BannedAgrees(wl: set<Ip>, m: Monitor, ip: Ip, t: int)
    requires Bans(wl, m, ip) && m.clock <= t
    ensures IsBanned(m.guard, ip, t) <==> BannedAt(wl, m.log, ip, t)
  {
    hide LastBan;
  }

  lemma KeepsOffencesAndBans(wl: set<Ip>, m: Monitor, call: Call, c: nat, ip: Ip, now: int, x: Ip)
    requires Offences(wl, m, x) && Bans(wl, m, x) && m.clock <= now
    ensures Offences(wl, Observe(wl, m, call, c, ip, now), x)
    ensures Bans(wl, Observe(wl, m, call, c, ip, now), x)
  {
    var e := Entry(call, ip, now, Step(wl, m.guard, call, ip, now).1);
    LogSnoc(wl, m.log, e, x);
    OffencesAndBans(wl, m.guard, call, ip, now);
    if x == ip {
      BannedAgrees(wl, m, ip, now);
    }
    hide Step, IsBanned, BannedAt, LastBan, Strikes;
  }

  /** What a call does to the offence counters and the blacklist: a ban enters the time, and only an expired ban is
      dropped. */
  lemma OffencesAndBans(wl: set<Ip>, g: Guard, call: Call, ip: Ip, now: int)
    ensures var (g', ok) := Step(wl, g, call, ip, now);
            var n := Count(g.misbehavior, ip);
            var offends := ip !in wl && (call.BanForBadBehavior? || (call.Check? && !ok && !IsBanned(g, ip, now)));
            && (forall x :: x != ip ==> Count(g'.misbehavior, x) == Count(g.misbehavior, x))
            && Count(g'.misbehavior, ip) ==
               (if offends then (if n >= 2 then 0 else n + 1) else if call.ClearMisbehavior? then 0 else n)
            && (forall x :: x != ip ==> (x in g'.blacklist <==> x in g.blacklist))
            && (forall x :: x != ip && x in g.blacklist ==> g'.blacklist[x] == g.blacklist[x])
            && if ip !in wl && (call.BanIP? || (offends && n >= 2))
               then ip in g'.blacklist && g'.blacklist[ip] == now
               else if ip in g'.blacklist then ip in g.blacklist && g'.blacklist[ip] == g.blacklist[ip]
                 else ip in g.blacklist ==> now - g.blacklist[ip] >= 60_000_000_000
  {
    hide IsLoopback;
  }

  lemma KeepsSpacing(wl: set<Ip>, m: Monitor, call: Call, c: nat, ip: Ip, now: int, x: Ip)
    requires Spacing(wl, m, x)
    ensures Spacing(wl, Observe(wl, m, call, c, ip, now), x)
  {
    if x !in wl && !IsLoopback(x) {
      LastAdmissions(wl, m.guard, call, ip, now, x);
    }
    LogSnoc(wl, m.log, Entry(call, ip, now, Step(wl, m.guard, call, ip, now).1), x);
    hide Admissions, Step, IsLoopback;
  }

  /** What a call does to the times of the last connections. */
  lemma LastAdmissions(wl: set<Ip>, g: Guard, call: Call, ip: Ip, now: int, x: Ip)
    requires x !in wl && !IsLoopback(x)
    ensures var (g', ok) := Step(wl, g, call, ip, now);
            var admits := x == ip && call.Check? && ok;
            && (x in g'.lastConn <==> x in g.lastConn || admits)
            && (x in g'.lastConn ==> g'.lastConn[x] == if admits then now else g.lastConn[x])
            && (admits && ip in g.lastConn ==> now - g.lastConn[ip] >= 1_000_000_000)
  {
    hide IsBanned, IsLoopback;
  }

  lemma SweepKeeps(wl: set<Ip>, m: Monitor, now: int, x: Ip)
    requires Good(wl, m, x) && m.clock <= now
    ensures Good(wl, m.(guard := Sweep(m.guard, now), clock := now), x)
  {
    hide Strikes, LastBan, Admissions;
  }

  lemma StepKeeps(wl: set<Ip>, m: Monitor, e: Event)
    requires Inv(wl, m) && m.clock <= e.at
    ensures Inv(wl, Apply(wl, m, e))
  {
    hide Good, Step;
    forall x
      ensures Good(wl, Apply(wl, m, e), x)
    {
      if e.Swept? {
        SweepKeeps(wl, m, e.at, x);
      } else if Allowed(m, e.call, e.conn, e.ip) {
        ObserveKeeps(wl, m, e.call, e.conn, e.ip, e.at, x);
      }
    }
  }

  lemma GoodSpacing(wl: set<Ip>, m: Monitor, ip: Ip)
    requires Inv(wl, m) && ip !in wl && !IsLoopback(ip)
    ensures Spaced(Admissions(m.log, ip))
  {
    assert Good(wl, m, ip);
    hide Admissions;
  }

  /** In every run whose clock never goes back. */
  lemma {:induction false} RunKeeps(wl: set<Ip>, events: seq<Event>)
    requires Timed(events)
    ensures Inv(wl, Exec(wl, events))
    ensures events != [] ==> Exec(wl, events).clock <= events[|events| - 1].at
    ensures events == [] ==> Exec(wl, events).clock == 0
  {
    hide Step;
    if events != [] {
      RunKeeps(wl, events[..|events| - 1]);
      StepKeeps(wl, Exec(wl, events[..|events| - 1]), events[|events| - 1]);
    }
  }

  // The claims.

  /** Some ban of ip in the log is less than a minute old at time t. */
  ghost predicate RecentlyBanned(wl: set<Ip>, log: seq<Entry>, ip: Ip, t: int)
  {
    exists i :: 0 <= i < |log| && BansAt(wl, log, i, ip) && t - log[i].at < 60_000_000_000
  }

  /** Entry i of the log is a ban of ip. */
  predicate BansAt(wl: set<Ip>, log: seq<Entry>, i: nat, ip: Ip)
    requires i < |log|
  {
    log[i].ip == ip && IsBan(wl, log[..i], log[i])
  }

  lemma {:induction false} LastBanIsLatest(wl: set<Ip>, log: seq<Entry>, ip: Ip, t: int)
    requires forall i, j :: 0 <= i < j < |log| ==> log[i].at <= log[j].at
    ensures RecentlyBanned(wl, log, ip, t) <==> BannedAt(wl, log, ip, t)
  {
    if log != [] {
      var rest, e := log[..|log| - 1], log[|log| - 1];
      LastBanIsLatest(wl, rest, ip, t);
      forall i | 0 <= i < |rest|
        ensures BansAt(wl, rest, i, ip) <==> BansAt(wl, log, i, ip)
      {
        assert rest[..i] == log[..i];
      }
      hide IsBan, Strikes, IsOffence;
      if BansAt(wl, log, |rest|, ip) {
        assert t - e.at < 60_000_000_000 ==> RecentlyBanned(wl, log, ip, t);
      } else {
        OneLonger(wl, rest, log, ip, t);
      }
    }
  }

  lemma OneLonger(wl: set<Ip>, rest: seq<Entry>, log: seq<Entry>, ip: Ip, t: int)
    requires log != [] && rest == log[..|log| - 1] && !BansAt(wl, log, |rest|, ip)
    requires forall i :: 0 <= i < |rest| ==> (BansAt(wl, rest, i, ip) <==> BansAt(wl, log, i, ip))
    ensures RecentlyBanned(wl, rest, ip, t) <==> RecentlyBanned(wl, log, ip, t)
  {
    hide BansAt;
    if RecentlyBanned(wl, rest, ip, t) {
      var i :| 0 <= i < |rest| && BansAt(wl, rest, i, ip) && t - rest[i].at < 60_000_000_000;
      assert BansAt(wl, log, i, ip) && t - log[i].at < 60_000_000_000;
    }
    if RecentlyBanned(wl, log, ip, t) {
      var i :| 0 <= i < |log| && BansAt(wl, log, i, ip) && t - log[i].at < 60_000_000_000;
      assert BansAt(wl, rest, i, ip) && t - rest[i].at < 60_000_000_000;
    }
  }

  /** The addresses of the log with a recent ban. */
  ghost function BannedNow(wl: set<Ip>, log: seq<Entry>, t: int): set<Ip>
  {
    set i | 0 <= i < |log| && RecentlyBanned(wl, log, log[i].ip, t) :: log[i].ip
  }

  lemma InBannedNow(wl: set<Ip>, log: seq<Entry>, ip: Ip, t: int)
    ensures ip in BannedNow(wl, log, t) <==> RecentlyBanned(wl, log, ip, t)
  {
    if RecentlyBanned(wl, log, ip, t) {
      var i :| 0 <= i < |log| && BansAt(wl, log, i, ip) && t - log[i].at < 60_000_000_000;
      assert log[i].ip == ip;
    }
  }

  /** The lazily expired blacklist agrees with history: an address is banned at t exactly when some ban of it
      happened less than a minute before t; and while it is, a limited address is refused and nothing changes. */
  lemma BanAgreesWithHistory(wl: set<Ip>, events: seq<Event>, ip: Ip, t: int)
    requires Timed(events) && t >= Exec(wl, events).clock
    ensures var m := Exec(wl, events);
            && (IsBanned(m.guard, ip, t) <==> RecentlyBanned(wl, m.log, ip, t))
            && (IsBanned(m.guard, ip, t) <==> BannedAt(wl, m.log, ip, t))
    ensures var m := Exec(wl, events);
            IsLimited(wl, ip) && RecentlyBanned(wl, m.log, ip, t) ==> Step(wl, m.guard, Check, ip, t) == (m.guard, false)
  {
    RunKeeps(wl, events);
    var m := Exec(wl, events);
    GoodBans(wl, m, ip);
    BannedAgrees(wl, m, ip, t);
    LastBanIsLatest(wl, m.log, ip, t);
    hide Exec, RecentlyBanned, BannedAt, Bans;
  }

  /** Neither whitelisted nor local. */
  predicate IsLimited(wl: set<Ip>, ip: Ip)
  {
    ip !in wl && ip != "127.0.0.1" && ip != "::1" && ip != "localhost"
  }

  lemma GoodBans(wl: set<Ip>, m: Monitor, ip: Ip)
    requires Inv(wl, m)
    ensures Bans(wl, m, ip) && Offences(wl, m, ip)
    ensures forall i, j :: 0 <= i < j < |m.log| ==> m.log[i].at <= m.log[j].at
  {
    assert Good(wl, m, ip);
    hide Bans, Offences;
  }

  /** Admission in terms of history alone: a limited address is let in at t exactly when it was not banned
      within the last minute, not admitted within the last second, and has fewer than 200 live connections. */
  lemma AdmittedExactly(wl: set<Ip>, events: seq<Event>, ip: Ip, t: int)
    requires Timed(events) && t >= Exec(wl, events).clock && IsLimited(wl, ip)
    ensures var m := Exec(wl, events);
            var ts := Admissions(m.log, ip);
            Step(wl, m.guard, Check, ip, t).1 <==>
            !RecentlyBanned(wl, m.log, ip, t) && NoneWithinSecond(ts, t) && |Live(m.conns, ip)| < 200
  {
    BanAgreesWithHistory(wl, events, ip, t);
    RunKeeps(wl, events);
    LimitedIsNotLoopback(wl, ip);
    hide *;
    GoodParts(wl, Exec(wl, events), ip);
    AdmittedWhen(wl, Exec(wl, events), ip, t);
  }

  lemma LimitedIsNotLoopback(wl: set<Ip>, ip: Ip)
    ensures IsLimited(wl, ip) <==> ip !in wl && !IsLoopback(ip)
  {
  }

  lemma GoodParts(wl: set<Ip>, m: Monitor, ip: Ip)
    requires Inv(wl, m)
    ensures Accounting(wl, m, ip) && Spacing(wl, m, ip)
  {
    assert Good(wl, m, ip);
    hide Accounting, Spacing;
  }

  /** None of the times is less than a second before t. */
  ghost predicate NoneWithinSecond(ts: seq<int>, t: int)
  {
    forall i :: 0 <= i < |ts| ==> t - ts[i] >= 1_000_000_000
  }

  lemma AdmittedWhen(wl: set<Ip>, m: Monitor, ip: Ip, t: int)
    requires Accounting(wl, m, ip) && Spacing(wl, m, ip) && ip !in wl && !IsLoopback(ip)
    ensures var ts := Admissions(m.log, ip);
            Step(wl, m.guard, Check, ip, t).1 <==>
            !IsBanned(m.guard, ip, t) && NoneWithinSecond(ts, t) && |Live(m.conns, ip)| < 200
  {
    LastDecides(Admissions(m.log, ip), t);
    CheckOutcome(wl, m.guard, ip, t);
    hide Admissions, Spaced, Step, IsLoopback, NoneWithinSecond, IsBanned;
  }

  lemma CheckOutcome(wl: set<Ip>, g: Guard, ip: Ip, t: int)
    requires ip !in wl && !IsLoopback(ip)
    ensures Step(wl, g, Check, ip, t).1 <==>
            !IsBanned(g, ip, t) && (ip in g.lastConn ==> t - g.lastConn[ip] >= 1_000_000_000)
            && Count(g.connCount, ip) < 200
  {
    hide IsBanned, IsLoopback;
  }

  /** Of spaced times only the last matters. */
  lemma LastDecides(ts: seq<int>, t: int)
    requires Spaced(ts)
    ensures NoneWithinSecond(ts, t) <==> (ts != [] ==> t - ts[|ts| - 1] >= 1_000_000_000)
  {
    forall i | 0 <= i < |ts|
      ensures ts[i] <= ts[|ts| - 1]
    {
      if i < |ts| - 1 {
        SpacedBelow(ts, i);
      }
    }
  }

  /** After the third offence since the last clear or threshold ban a limited address is refused for a minute,
      whatever else happens meanwhile. */
  lemma ThirdStrikeBans(wl: set<Ip>, events: seq<Event>, i: nat, t: int)
    requires Timed(events) && i < |Exec(wl, events).log|
    requires var log := Exec(wl, events).log;
             && IsLimited(wl, log[i].ip) && IsOffence(wl, log[..i], log[i])
             && Strikes(wl, log[..i], log[i].ip) == 2
             && Exec(wl, events).clock <= t < log[i].at + 60_000_000_000
    ensures !Step(wl, Exec(wl, events).guard, Check, Exec(wl, events).log[i].ip, t).1
  {
    var log := Exec(wl, events).log;
    assert BansAt(wl, log, i, log[i].ip);
    assert RecentlyBanned(wl, log, log[i].ip, t);
    BanAgreesWithHistory(wl, events, log[i].ip, t);
  }

  /** An offence of an address that is not banned bans it exactly when it is the third. */
  lemma OffenceBansExactly(wl: set<Ip>, events: seq<Event>, call: Call, c: nat, ip: Ip, t: int)
    requires Timed(events) && t >= Exec(wl, events).clock && IsLimited(wl, ip)
    requires call.BanForBadBehavior? || (call.Check? && !Step(wl, Exec(wl, events).guard, Check, ip, t).1)
    requires !BannedAt(wl, Exec(wl, events).log, ip, t)
    ensures IsBanned(Observe(wl, Exec(wl, events), call, c, ip, t).guard, ip, t)
       <==> Strikes(wl, Exec(wl, events).log, ip) == 2
  {
    RunKeeps(wl, events);
    var m := Exec(wl, events);
    GoodBans(wl, m, ip);
    BannedAgrees(wl, m, ip, t);
    OffencesAndBans(wl, m.guard, call, ip, t);
    hide Exec, Step, LastBan, Strikes, BannedAt;
  }

  /** Four connections within a second: a limited address with no strikes is let in once, refused three times, and
      then refused for a minute. */
  lemma FastConnectionsBan(wl: set<Ip>, events: seq<Event>, ip: Ip, c: nat, t0: int, t1: int, t2: int, t3: int, t: int)
    requires Timed(events) && IsLimited(wl, ip) && c !in Exec(wl, events).conns
    requires Exec(wl, events).clock <= t0 <= t1 <= t2 <= t3 < t0 + 1_000_000_000
    requires t3 <= t < t3 + 60_000_000_000
    requires Strikes(wl, Exec(wl, events).log, ip) == 0 && Step(wl, Exec(wl, events).guard, Check, ip, t0).1
    ensures var m1 := Observe(wl, Exec(wl, events), Check, c, ip, t0);
            var m2 := Observe(wl, m1, Check, c + 1, ip, t1);
            var m3 := Observe(wl, m2, Check, c + 1, ip, t2);
            var m4 := Observe(wl, m3, Check, c + 1, ip, t3);
            && !Step(wl, m1.guard, Check, ip, t1).1 && !Step(wl, m2.guard, Check, ip, t2).1
            && !Step(wl, m3.guard, Check, ip, t3).1 && !Step(wl, m4.guard, Check, ip, t).1
  {
    RunKeeps(wl, events);
    var g := Exec(wl, events).guard;
    GoodBans(wl, Exec(wl, events), ip);
    LimitedIsNotLoopback(wl, ip);
    hide Exec, Strikes, IsLoopback;
    var g1 := Step(wl, g, Check, ip, t0).0;
    assert Count(g1.misbehavior, ip) == 0 && g1.lastConn[ip] == t0 && ip !in g1.blacklist;
    TooFast(wl, g1, ip, t1);
    var g2 := Step(wl, g1, Check, ip, t1).0;
    TooFast(wl, g2, ip, t2);
    var g3 := Step(wl, g2, Check, ip, t2).0;
    TooFast(wl, g3, ip, t3);
    var g4 := Step(wl, g3, Check, ip, t3).0;
    hide Offend, Admit;
    assert !Step(wl, g4, Check, ip, t).1;
  }

  lemma TooFast(wl: set<Ip>, g: Guard, ip: Ip, t: int)
    requires ip !in wl && !IsLoopback(ip) && ip in g.lastConn && t - g.lastConn[ip] < 1_000_000_000
    requires ip !in g.blacklist
    ensures var (g', ok) := Step(wl, g, Check, ip, t);
            && !ok && g'.lastConn == g.lastConn
            && (Count(g.misbehavior, ip) < 2 ==>
                  Count(g'.misbehavior, ip) == Count(g.misbehavior, ip) + 1 && ip !in g'.blacklist)
            && (Count(g.misbehavior, ip) == 2 ==> ip in g'.blacklist && g'.blacklist[ip] == t)
  {
    hide IsLoopback;
  }

  /** A whitelisted address is always admitted, without a trace, and never banned. */
  lemma WhitelistedIsExempt(wl: set<Ip>, events: seq<Event>, ip: Ip, t: int)
    requires Timed(events) && ip in wl && t >= Exec(wl, events).clock
    ensures Step(wl, Exec(wl, events).guard, Check, ip, t) == (Exec(wl, events).guard, true)
    ensures !IsBanned(Exec(wl, events).guard, ip, t)
  {
    RunKeeps(wl, events);
    GoodBans(wl, Exec(wl, events), ip);
    BannedAgrees(wl, Exec(wl, events), ip, t);
    hide Exec, LastBan;
  }

  /** A local address off the whitelist is always admitted and counted. */
  lemma LoopbackIsAdmitted(wl: set<Ip>, g: Guard, ip: Ip, t: int)
    requires ip !in wl && (ip == "127.0.0.1" || ip == "::1" || ip == "localhost")
    ensures var (g', ok) := Step(wl, g, Check, ip, t); ok && Count(g'.connCount, ip) == Count(g.connCount, ip) + 1
  {
  }

  /** Under handleClient's discipline the counter of an address is the number of its admitted connections that
      are not released, 0 on the whitelist, and a limited address never has more than the maximum. */
  lemma CountsAreLive(wl: set<Ip>, events: seq<Event>, ip: Ip)
    requires Timed(events)
    ensures var m := Exec(wl, events);
            && Count(m.guard.connCount, ip) == (if ip in wl then 0 else |Live(m.conns, ip)|)
            && (IsLimited(wl, ip) ==> |Live(m.conns, ip)| <= 200)
  {
    RunKeeps(wl, events);
    GoodParts(wl, Exec(wl, events), ip);
    hide Exec, Live;
  }

  /** How many of the times lie in [a, b]. */
  function CountIn(ts: seq<int>, a: int, b: int): nat
  {
    if ts == [] then 0
    else CountIn(ts[..|ts| - 1], a, b) + if a <= ts[|ts| - 1] <= b then 1 else 0
  }

  lemma {:induction false} CountInEarlier(ts: seq<int>, a: int, b: int, c: int)
    requires c <= b && forall i :: 0 <= i < |ts| ==> ts[i] <= c
    ensures CountIn(ts, a, b) == CountIn(ts, a, c)
  {
    if ts != [] {
      CountInEarlier(ts[..|ts| - 1], a, b, c);
    }
  }

  lemma {:induction false} SpacedBelow(ts: seq<int>, i: nat)
    requires Spaced(ts) && i < |ts| - 1
    ensures ts[i] <= ts[|ts| - 1] - 1_000_000_000
    decreases |ts|
  {
    if i < |ts| - 2 {
      SpacedBelow(ts[..|ts| - 1], i);
    }
  }

  /** Times at least an interval apart: a window holds at most one per interval, and one more. */
  lemma {:induction false} SpacedWindow(ts: seq<int>, a: int, b: int)
    requires Spaced(ts) && a <= b
    ensures CountIn(ts, a, b) <= (b - a) / 1_000_000_000 + 1
    decreases |ts|
  {
    if ts != [] {
      var rest, t := ts[..|ts| - 1], ts[|ts| - 1];
      if a <= t <= b {
        var c := t - 1_000_000_000;
        forall i | 0 <= i < |rest|
          ensures rest[i] <= c
        {
          SpacedBelow(ts, i);
        }
        CountInEarlier(rest, a, b, c);
        if a <= c {
          SpacedWindow(rest, a, c);
        } else {
          NothingIn(rest, a, c);
        }
      } else {
        SpacedWindow(rest, a, b);
      }
    }
  }

  lemma {:induction false} NothingIn(ts: seq<int>, a: int, b: int)
    requires b < a
    ensures CountIn(ts, a, b) == 0
  {
    if ts != [] {
      NothingIn(ts[..|ts| - 1], a, b);
    }
  }

  /** Any window of length w holds at most floor(w / interval) + 1 admissions of a limited address. */
  lemma AdmissionRate(wl: set<Ip>, events: seq<Event>, ip: Ip, a: int, w: nat)
    requires Timed(events) && IsLimited(wl, ip)
    ensures CountIn(Admissions(Exec(wl, events).log, ip), a, a + w) <= w / 1_000_000_000 + 1
  {
    LimitedIsNotLoopback(wl, ip);
    hide *;
    RunKeeps(wl, events);
    GoodSpacing(wl, Exec(wl, events), ip);
    SpacedWindow(Admissions(Exec(wl, events).log, ip), a, a + w);
  }

  /** The live connections of addresses outside a set. */
  function Limited(conns: map<nat, Ip>, skip: set<Ip>): set<nat>
  {
    set c | c in conns && conns[c] !in skip
  }

  /** Skipping one more address leaves out its live connections. */
  lemma LimitedStep(conns: map<nat, Ip>, skip: set<Ip>, ip: Ip)
    ensures |Limited(conns, skip + {ip})| == |Limited(conns, skip)| - if ip in skip then 0 else |Live(conns, ip)|
  {
    if ip in skip {
      assert skip + {ip} == skip;
    } else {
      assert Limited(conns, skip) == Limited(conns, skip + {ip}) + Live(conns, ip);
    }
  }

  /** Every live connection is of a whitelisted address or of one with a counter. */
  lemma NothingUncounted(wl: set<Ip>, m: Monitor)
    requires forall ip :: Accounting(wl, m, ip)
    ensures Limited(m.conns, wl + m.guard.connCount.Keys) == {}
  {
    forall c | c in m.conns && m.conns[c] !in wl
      ensures m.conns[c] in m.guard.connCount
    {
      assert Accounting(wl, m, m.conns[c]);
      assert c in Live(m.conns, m.conns[c]);
    }
  }

  /** The guard itself, with its history kept beside it. */
  class ConnectionGuard {
    const whitelist: set<Ip>
    var connCount: map<Ip, int>
    var lastConn: map<Ip, int>
    var blacklist: map<Ip, int>
    var misbehavior: map<Ip, int>
    ghost var monitor: Monitor

    ghost function View(): Guard
      reads this
    {
      Guard(connCount, lastConn, blacklist, misbehavior)
    }

    ghost predicate Valid()
      reads this
    {
      monitor.guard == View() && Inv(whitelist, monitor)
    }

    constructor (whitelist: set<Ip>)
      ensures Valid() && this.whitelist == whitelist && monitor == Monitor(Fresh, [], map[], 0)
    {
      this.whitelist := whitelist;
      connCount, lastConn, blacklist, misbehavior := map[], map[], map[], map[];
      monitor := Monitor(Fresh, [], map[], 0);
    }

    /** Records a call in the history. */
    ghost method Note(call: Call, conn: nat, ip: Ip, now: int)
      requires Inv(whitelist, monitor) && monitor.clock <= now && Allowed(monitor, call, conn, ip)
      modifies this`monitor
      ensures monitor == Observe(whitelist, old(monitor), call, conn, ip, now) && Inv(whitelist, monitor)
    {
      StepKeeps(whitelist, monitor, Called(call, conn, ip, now));
      monitor := Observe(whitelist, monitor, call, conn, ip, now);
    }

    /** The block that Check and BanForBadBehavior share. */
    method Strike(ip: Ip, now: int)
      modifies this`misbehavior, this`blacklist
      ensures View() == Offend(old(View()), ip, now)
    {
      misbehavior := misbehavior[ip := (if ip in misbehavior then misbehavior[ip] else 0) + 1];
      if misbehavior[ip] >= BAN_THRESHOLD {
        blacklist := blacklist[ip := now];
        misbehavior := misbehavior[ip := 0];
      }
    }

    /** ip is the address of conn. The history is kept when conn is a new connection. */
    method Check(conn: nat, ip: Ip, now: int) returns (ok: bool)
      requires Valid() && monitor.clock <= now
      modifies this
      ensures View() == Step(whitelist, old(View()), Call.Check, ip, now).0
      ensures ok <==> Step(whitelist, old(View()), Call.Check, ip, now).1
      ensures conn !in old(monitor).conns ==>
                && Valid() && monitor == Observe(whitelist, old(monitor), Call.Check, conn, ip, now)
                && (ok <==> conn in monitor.conns)
    {
      hide Inv;
      ok := CheckFields(ip, now);
      if conn !in monitor.conns {
        Note(Call.Check, conn, ip, now);
      }
    }

    method CheckFields(ip: Ip, now: int) returns (ok: bool)
      modifies this`connCount, this`lastConn, this`blacklist, this`misbehavior
      ensures View() == Step(whitelist, old(View()), Call.Check, ip, now).0
      ensures ok <==> Step(whitelist, old(View()), Call.Check, ip, now).1
    {
      if ip in whitelist {
        return true;
      }
      if IsLoopback(ip) {
        lastConn := lastConn[ip := now];
        connCount := connCount[ip := Count(connCount, ip) + 1];
        return true;
      }
      if ip in blacklist {
        if now - blacklist[ip] < BAN_DURATION {
          return false;
        }
        blacklist := blacklist - {ip};
      }
      assert blacklist == old(blacklist) - {ip};
      if ip in lastConn && now - lastConn[ip] < MIN_INTERVAL {
        Strike(ip, now);
        return false;
      }
      if Count(connCount, ip) >= MAX_CONN {
        Strike(ip, now);
        return false;
      }
      lastConn := lastConn[ip := now];
      connCount := connCount[ip := Count(connCount, ip) + 1];
      ok := true;
    }

    /** The history is kept when conn was admitted and not released before. */
    method Release(conn: nat, ip: Ip, now: int)
      requires Valid() && monitor.clock <= now
      modifies this
      ensures View() == Step(whitelist, old(View()), Call.Release, ip, now).0
      ensures conn in old(monitor).conns && old(monitor).conns[conn] == ip ==>
                && Valid() && monitor == Observe(whitelist, old(monitor), Call.Release, conn, ip, now)
                && conn !in monitor.conns
    {
      hide Inv;
      if Count(connCount, ip) > 0 {
        connCount := connCount[ip := connCount[ip] - 1];
      }
      if conn in monitor.conns && monitor.conns[conn] == ip {
        Note(Call.Release, conn, ip, now);
      }
    }

    method BanForBadBehavior(conn: nat, ip: Ip, now: int)
      requires Valid() && monitor.clock <= now
      modifies this
      ensures Valid() && monitor == Observe(whitelist, old(monitor), Call.BanForBadBehavior, conn, ip, now)
    {
      hide Inv;
      if ip !in whitelist {
        Strike(ip, now);
      }
      Note(Call.BanForBadBehavior, conn, ip, now);
    }

    method ClearMisbehavior(ip: Ip, now: int)
      requires Valid() && monitor.clock <= now
      modifies this
      ensures Valid() && monitor == Observe(whitelist, old(monitor), Call.ClearMisbehavior, 0, ip, now)
    {
      hide Inv;
      misbehavior := misbehavior - {ip};
      Note(Call.ClearMisbehavior, 0, ip, now);
    }

    method BanIP(ip: Ip, now: int)
      requires Valid() && monitor.clock <= now
      modifies this
      ensures Valid() && monitor == Observe(whitelist, old(monitor), Call.BanIP, 0, ip, now)
    {
      hide Inv;
      if ip !in whitelist {
        blacklist := blacklist[ip := now];
      }
      Note(Call.BanIP, 0, ip, now);
    }

    method IsBannedNow(ip: Ip, now: int) returns (banned: bool)
      requires Valid() && monitor.clock <= now
      ensures banned <==> RecentlyBanned(whitelist, monitor.log, ip, now)
    {
      banned := ip in blacklist && now - blacklist[ip] < BAN_DURATION;
      GoodBans(whitelist, monitor, ip);
      BannedAgrees(whitelist, monitor, ip, now);
      LastBanIsLatest(whitelist, monitor.log, ip, now);
      hide Inv, RecentlyBanned, BannedAt;
    }

    /** The number of addresses with a recent ban, and of admitted and unreleased connections off the
        whitelist. */
    method GetStats(now: int) returns (blacklistCount: int, totalConns: int)
      requires Valid() && monitor.clock <= now
      modifies this
      ensures Valid() && monitor == Apply(whitelist, old(monitor), Swept(now))
      ensures blacklistCount == |BannedNow(whitelist, monitor.log, now)|
      ensures totalConns == |Limited(monitor.conns, whitelist)|
    {
      BlacklistIsRecent(now);
      StepKeeps(whitelist, monitor, Swept(now));
      hide Inv, RecentlyBanned;
      SweepBlacklist(now);
      monitor := Apply(whitelist, monitor, Swept(now));
      assert blacklist.Keys == BannedNow(whitelist, monitor.log, now);
      blacklistCount := |blacklist|;
      totalConns := SumCounts();
    }

    lemma BlacklistIsRecent(now: int)
      requires Valid() && monitor.clock <= now
      ensures forall ip :: ip in BannedNow(whitelist, monitor.log, now) <==> ip in blacklist && now - blacklist[ip] < BAN_DURATION
    {
      forall ip
        ensures ip in BannedNow(whitelist, monitor.log, now) <==> ip in blacklist && now - blacklist[ip] < BAN_DURATION
      {
        GoodBans(whitelist, monitor, ip);
        BannedAgrees(whitelist, monitor, ip, now);
        LastBanIsLatest(whitelist, monitor.log, ip, now);
        InBannedNow(whitelist, monitor.log, ip, now);
      }
    }

    /** The deleting loop, in any order. */
    method SweepBlacklist(now: int)
      modifies this`blacklist
      ensures View() == Sweep(old(View()), now)
    {
      var todo := blacklist.Keys;
      while todo != {}
        invariant todo <= blacklist.Keys <= old(blacklist).Keys
        invariant forall ip :: ip in old(blacklist) && ip !in todo ==>
                                 (ip in blacklist <==> now - old(blacklist)[ip] < BAN_DURATION)
        invariant forall ip :: ip in blacklist ==> blacklist[ip] == old(blacklist)[ip]
        decreases todo
      {
        var ip :| ip in todo;
        todo := todo - {ip};
        if now - blacklist[ip] >= BAN_DURATION {
          blacklist := blacklist - {ip};
        }
      }
    }

    /** The summing loop, in any order. */
    method SumCounts() returns (total: int)
      requires Valid()
      ensures total == |Limited(monitor.conns, whitelist)|
    {
      forall ip
        ensures Accounting(whitelist, monitor, ip)
      {
        GoodParts(whitelist, monitor, ip);
      }
      hide Inv;
      total := 0;
      var todo := connCount.Keys;
      ghost var skip := whitelist;
      NothingUncounted(whitelist, monitor);
      while todo != {}
        invariant todo <= connCount.Keys
        invariant skip == whitelist + (connCount.Keys - todo)
        invariant total + |Limited(monitor.conns, skip)| == |Limited(monitor.conns, whitelist)|
        decreases todo
      {
        var ip :| ip in todo;
        assert Accounting(whitelist, monitor, ip);
        LimitedStep(monitor.conns, skip, ip);
        todo := todo - {ip};
        skip := skip + {ip};
        total := total + connCount[ip];
      }
      assert skip == whitelist + connCount.Keys;
    }
  }
}
