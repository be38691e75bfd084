/** The UDP session table of a server proxy: getOrCreateSession, client close and idle cleanup. */
module UdpSessions {
  import opened Bytes

  /** A user address in the form that keys addrIndex (userAddr.String()). */
  type Addr = string
  type Sid = seq<byte>

  const IDLE_LIMIT: int := 300  // five minutes

  // Session ids: fmt.Sprintf("%016x", n).

  function HexDigit(d: nat): byte
    requires d < 16
  {
    if d < 10 then 48 + d else 87 + d
  }

  /** n in k lower-case hexadecimal digits. */
  function Hex(n: nat, k: nat): (s: seq<byte>)
    ensures |s| == k
  {
    if k == 0 then [] else Hex(n / 16, k - 1) + [HexDigit(n % 16)]
  }

  function Pow16(k: nat): nat
  {
    if k == 0 then 1 else 16 * Pow16(k - 1)
  }

  function SessionId(n: nat): (s: Sid)
    ensures |s| == 16
  {
    Hex(n, 16)
  }

  /** What a digit stands for; any other character for nothing. */
  function DigitValue(b: byte): nat
  {
    if '0' as int <= b <= '9' as int then b - '0' as int
    else if 'a' as int <= b <= 'f' as int then b - 'a' as int + 10
    else 0
  }

  /** The number that a string of hexadecimal digits spells. */
  function HexValue(s: seq<byte>): nat
  {
    if s == [] then 0 else 16 * HexValue(s[..|s| - 1]) + DigitValue(s[|s| - 1])
  }

  lemma {:induction false} HexSpells(n: nat, k: nat)
    requires n < Pow16(k)
    ensures HexValue(Hex(n, k)) == n
  {
    if k > 0 {
      assert Hex(n, k)[..k - 1] == Hex(n / 16, k - 1);
      assert DigitValue(HexDigit(n % 16)) == n % 16;
      HexSpells(n / 16, k - 1);
    }
  }

  lemma Pow16Sixteen()
    ensures Pow16(16) == 0x1_0000_0000_0000_0000
  {
    assert Pow16(4) == 0x1_0000;
    assert Pow16(8) == 0x1_0000 * Pow16(4);
    assert Pow16(12) == 0x1_0000 * Pow16(8);
    assert Pow16(16) == 0x1_0000 * Pow16(12);
  }

  /** An id is sixteen lower-case hexadecimal digits that spell the 64-bit counter. */
  lemma SessionIdSpells(n: nat)
    requires n < TWO_64
    ensures |SessionId(n)| == 16 && HexValue(SessionId(n)) == n
    ensures forall i :: 0 <= i < 16 ==> IsHexDigit(SessionId(n)[i])
  {
    Pow16Sixteen();
    HexSpells(n, 16);
    HexDigits(n, 16);
  }

  predicate IsHexDigit(b: byte)
  {
    '0' as int <= b <= '9' as int || 'a' as int <= b <= 'f' as int
  }

  lemma {:induction false} HexDigits(n: nat, k: nat)
    ensures forall i :: 0 <= i < k ==> IsHexDigit(Hex(n, k)[i])
  {
    if k > 0 {
      HexDigits(n / 16, k - 1);
    }
  }

  /** So different numbers have different ids. */
  lemma SessionIdInjective(m: nat, n: nat)
    requires m < TWO_64 && n < TWO_64 && SessionId(m) == SessionId(n)
    ensures m == n
  {
    SessionIdSpells(m);
    SessionIdSpells(n);
    hide SessionId;
  }

  /** The id of the n-th session of a proxy: the counter has 64 bits. */
  function IdOf(n: nat): (s: Sid)
  {
    SessionId(n % 0x1_0000_0000_0000_0000)
  }

  /** Two sessions have the same id exactly when the counter has gone round a whole number of times between
      them. */
  lemma IdOfInjective(m: nat, n: nat)
    ensures IdOf(m) == IdOf(n) <==> m % 0x1_0000_0000_0000_0000 == n % 0x1_0000_0000_0000_0000
  {
    if IdOf(m) == IdOf(n) {
      SessionIdInjective(m % 0x1_0000_0000_0000_0000, n % 0x1_0000_0000_0000_0000);
    }
  }

  // The table.

  datatype Session = Session(user: Addr, lastActive: int)

  datatype Table = Table(sessions: map<Sid, Session>, addrIndex: map<Addr, Sid>, counter: nat)

  /** The two maps are inverse to each other. */
  ghost predicate Inverse(t: Table)
  {
    && (forall sid :: sid in t.sessions ==>
                        t.sessions[sid].user in t.addrIndex && t.addrIndex[t.sessions[sid].user] == sid)
    && (forall u :: u in t.addrIndex ==> t.addrIndex[u] in t.sessions && t.sessions[t.addrIndex[u]].user == u)
  }

  /** The id the next new session gets: atomic.AddUint64 wraps. */
  function NextCounter(t: Table): nat { (t.counter + 1) % 0x1_0000_0000_0000_0000 }
  function NextId(t: Table): Sid { SessionId(NextCounter(t)) }

  function Touch(t: Table, sid: Sid, now: int): Table
  {
    if sid in t.sessions then t.(sessions := t.sessions[sid := t.sessions[sid].(lastActive := now)]) else t
  }

  /** getOrCreateSession. */
  function GetOrCreate(t: Table, user: Addr, now: int): (Table, Sid, bool)
  {
    if user in t.addrIndex then (Touch(t, t.addrIndex[user], now), t.addrIndex[user], false)
    else
      var sid := NextId(t);
      (Table(t.sessions[sid := Session(user, now)], t.addrIndex[user := sid], NextCounter(t)), sid, true)
  }

  /** The client's close notice. */
  function Close(t: Table, sid: Sid): Table
  {
    if sid in t.sessions
    then t.(sessions := t.sessions - {sid}, addrIndex := t.addrIndex - {t.sessions[sid].user})
    else t
  }

  /** Sessions idle for more than the limit. */
  function Idle(t: Table, now: int): set<Sid>
  {
    set sid | sid in t.sessions && now - t.sessions[sid].lastActive > IDLE_LIMIT
  }

  /** One pass of cleanupUDPSessions. */
  function Expire(t: Table, now: int): Table
  {
    t.(sessions := t.sessions - Idle(t, now),
    addrIndex := t.addrIndex - (set sid | sid in Idle(t, now) :: t.sessions[sid].user))
  }

  /** Creating a session keeps the maps inverse exactly when its id is not already in use. */
  lemma CreateKeepsInverse(t: Table, user: Addr, now: int)
    requires Inverse(t) && user !in t.addrIndex
    ensures Inverse(GetOrCreate(t, user, now).0) <==> NextId(t) !in t.sessions
  {
    hide SessionId;
    var t', sid := GetOrCreate(t, user, now).0, NextId(t);
    if sid in t.sessions {
      var other := t.sessions[sid].user;
      assert other in t'.addrIndex && t'.addrIndex[other] == sid && t'.sessions[sid].user == user;
    }
  }

  lemma ReuseKeepsInverse(t: Table, user: Addr, now: int)
    requires Inverse(t) && user in t.addrIndex
    ensures Inverse(GetOrCreate(t, user, now).0)
    ensures GetOrCreate(t, user, now).0.sessions[GetOrCreate(t, user, now).1] == Session(user, now)
  {
  }

  lemma CloseKeepsInverse(t: Table, sid: Sid)
    requires Inverse(t)
    ensures Inverse(Close(t, sid)) && sid !in Close(t, sid).sessions
    ensures forall s :: s in t.sessions && s != sid ==> s in Close(t, sid).sessions
  {
  }

  lemma ExpireKeepsInverse(t: Table, now: int)
    requires Inverse(t)
    ensures Inverse(Expire(t, now))
    ensures forall sid :: sid in Expire(t, now).sessions <==>
                          sid in t.sessions && now - t.sessions[sid].lastActive <= 300
  {
    forall u | u in Expire(t, now).addrIndex
      ensures t.addrIndex[u] !in Idle(t, now)
    {
    }
  }

  /** The fields of Proxy that sessionMu guards, and the critical sections over them. */
  class SessionTable {
    var sessions: map<Sid, Session>
    var addrIndex: map<Addr, Sid>
    var sessionSeq: nat

    function View(): Table
      reads this
    {
      Table(sessions, addrIndex, sessionSeq)
    }

    ghost predicate Valid()
      reads this
    {
      Inverse(View())
    }

    constructor ()
      ensures Valid() && View() == Table(map[], map[], 0)
    {
      sessions, addrIndex, sessionSeq := map[], map[], 0;
    }

    /** The table stays valid exactly when a new session's id is not in use. */
    method GetOrCreateSession(user: Addr, now: int) returns (sid: Sid, isNew: bool)
      requires Valid()
      modifies this
      ensures (View(), sid, isNew) == GetOrCreate(old(View()), user, now)
      ensures Valid() <==> (isNew ==> sid !in old(sessions))
      ensures user in addrIndex && addrIndex[user] == sid && sid in sessions && sessions[sid] == Session(user, now)
    {
      if user in addrIndex {
        ReuseKeepsInverse(View(), user, now);
        sid := addrIndex[user];
        if sid in sessions {
          sessions := sessions[sid := sessions[sid].(lastActive := now)];
        }
        return sid, false;
      }
      CreateKeepsInverse(View(), user, now);
      hide Inverse, SessionId;
      sessionSeq := (sessionSeq + 1) % 0x1_0000_0000_0000_0000;
      sid := SessionId(sessionSeq);
      sessions := sessions[sid := Session(user, now)];
      addrIndex := addrIndex[user := sid];
      isNew := true;
    }

    method CloseSession(sid: Sid)
      requires Valid()
      modifies this
      ensures Valid() && View() == Close(old(View()), sid)
      ensures sid !in sessions && forall u :: u in addrIndex ==> addrIndex[u] != sid
    {
      CloseKeepsInverse(View(), sid);
      if sid in sessions {
        var sess := sessions[sid];
        sessions := sessions - {sid};
        addrIndex := addrIndex - {sess.user};
      }
    }

    method TouchSession(sid: Sid, now: int)
      requires Valid()
      modifies this
      ensures Valid() && View() == Touch(old(View()), sid, now)
    {
      if sid in sessions {
        sessions := sessions[sid := sessions[sid].(lastActive := now)];
      }
    }

    /** One pass of cleanupUDPSessions. */
    method CleanupIdle(now: int)
      requires Valid()
      modifies this
      ensures Valid() && View() == Expire(old(View()), now)
      ensures forall sid :: sid in sessions <==> sid in old(sessions) && now - old(sessions)[sid].lastActive <= 300
    {
      ExpireKeepsInverse(View(), now);
      hide Inverse, Expire;
      DeleteIdle(now);
    }

    /** The loop over the map, in any order, deleting as it goes. */
    method DeleteIdle(now: int)
      modifies this
      ensures View() == Expire(old(View()), now)
    {
      ghost var t := View();
      var todo := sessions.Keys;
      ghost var done: set<Sid> := {};
      while todo != {}
        invariant done + todo == t.sessions.Keys && done !! todo
        invariant sessions == t.sessions - (done * Idle(t, now))
        invariant addrIndex == t.addrIndex - (set sid | sid in done * Idle(t, now) :: t.sessions[sid].user)
        invariant sessionSeq == t.counter
        decreases todo
      {
        var sid :| sid in todo;
        var sess := sessions[sid];
        todo := todo - {sid};
        done := done + {sid};
        if now - sess.lastActive > IDLE_LIMIT {
          sessions := sessions - {sid};
          addrIndex := addrIndex - {sess.user};
        }
      }
      assert done * Idle(t, now) == Idle(t, now);
    }
  }
}
