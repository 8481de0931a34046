/** Connections, their session tables and the idle reaper (src/server/state.rs), one call at a time. */
module SessionTable {
  import opened Bytes
  import opened Counting

  function IdleFor(now: nat, last: nat): nat { if now < last then 0 else now - last }

  /** A registered session: its last activity and its cancellation token. */
  datatype Handle = Handle(last: nat, token: nat)

  type Sessions = map<u32, Handle>

  /** What the clock shows while one connection is visited: for each session, and for the connection itself. */
  datatype Reading = Reading(session: u32 -> nat, conn: nat)

  /** The sessions that have been idle too long, and the table without them. */
  function Expired(ss: Sessions, r: Reading, idle: nat): set<u32> {
    set sid | sid in ss && IdleFor(r.session(sid), ss[sid].last) > idle
  }

  function Live(ss: Sessions, r: Reading, idle: nat): Sessions {
    map sid | sid in ss && IdleFor(r.session(sid), ss[sid].last) <= idle :: ss[sid]
  }

  /** The tokens of some of the sessions. */
  function Tokens(ss: Sessions, gone: set<u32>): set<nat> { set sid | sid in gone && sid in ss :: ss[sid].token }

  /** One authenticated connection. */
  class ConnState {
    var sessions: Sessions
    var tcpRoutes: set<u32>
    var udpRoutes: set<u32>
    /** The session tokens cancelled so far. */
    var stopped: set<nat>
    var lastActive: nat
    var cancelled: bool

    constructor (now: nat)
      ensures Value(this) == Conn(map[], {}, {}, {}, now, false)
    {
      sessions, tcpRoutes, udpRoutes, stopped, lastActive, cancelled := map[], {}, {}, {}, now, false;
    }

    /** `try_register_with`: a taken sid is never overwritten. */
    method TryRegister(sid: u32, token: nat, now: nat) returns (ok: bool)
      modifies this`sessions, this`lastActive
      ensures ok == (sid !in old(sessions)) && lastActive == now
      ensures sessions == if ok then old(sessions)[sid := Handle(now, token)] else old(sessions)
    {
      lastActive := now;
      ok := sid !in sessions;
      if ok {
        sessions := sessions[sid := Handle(now, token)];
      }
    }

    /** `drop_session`: true exactly when a handle was removed, and then its token is cancelled. */
    method DropSession(sid: u32) returns (removed: bool)
      modifies this`sessions, this`tcpRoutes, this`udpRoutes, this`stopped
      ensures removed == (sid in old(sessions)) && sessions == Minus(old(sessions), {sid})
      ensures tcpRoutes == Less(old(tcpRoutes), {sid}) && udpRoutes == Less(old(udpRoutes), {sid})
      ensures stopped == old(stopped) + Tokens(old(sessions), {sid})
      ensures |old(sessions)| == |sessions| + One(removed)
    {
      tcpRoutes := tcpRoutes - {sid};
      udpRoutes := udpRoutes - {sid};
      removed := sid in sessions;
      RemoveOne(sessions, sid);
      if removed {
        stopped := stopped + {sessions[sid].token};
      }
      sessions := sessions - {sid};
    }

    method Touch(sid: u32, now: nat)
      modifies this`sessions, this`lastActive
      ensures lastActive == now
      ensures sessions == if sid in old(sessions) then old(sessions)[sid := old(sessions)[sid].(last := now)] else old(sessions)
    {
      lastActive := now;
      if sid in sessions {
        sessions := sessions[sid := sessions[sid].(last := now)];
      }
    }

    /** The reaper's inner loop: collect first, then drop; `released` counts the quota given back. */
    method ReapSessions(r: Reading, idle: nat) returns (released: nat)
      modifies this`sessions, this`tcpRoutes, this`udpRoutes, this`stopped
      ensures sessions == Live(old(sessions), r, idle)
      ensures tcpRoutes == Less(old(tcpRoutes), Expired(old(sessions), r, idle))
      ensures udpRoutes == Less(old(udpRoutes), Expired(old(sessions), r, idle))
      ensures stopped == old(stopped) + Tokens(old(sessions), Expired(old(sessions), r, idle))
      ensures |old(sessions)| == |sessions| + released
    {
      var expired := Expired(sessions, r, idle);
      ghost var ss, tcp, udp, off, gone := sessions, tcpRoutes, udpRoutes, stopped, {};
      released := 0;
      hide Minus, Less, Expired, Both, Tokens;
      BothEnds(expired);
      NothingGone(ss, tcp, off);
      NothingGone(ss, udp, off);
      while expired != {}
        invariant Both(expired, gone) == Expired(ss, r, idle)
        invariant sessions == Minus(ss, gone) && tcpRoutes == Less(tcp, gone) && udpRoutes == Less(udp, gone)
        invariant stopped == off + Tokens(ss, gone) && |ss| == |sessions| + released
        decreases expired
      {
        var sid :| sid in expired;
        BothMoves(expired, gone, sid);
        expired := expired - {sid};
        var removed := DropSession(sid);
        MinusMore(ss, gone, sid);
        LessMore(tcp, gone, sid);
        LessMore(udp, gone, sid);
        TokensMore(ss, gone, sid, off);
        gone := gone + {sid};
        if removed {
          released := released + 1;
        }
      }
      BothEnds(gone);
      LiveIsMinus(ss, r, idle);
    }
  }

  function Minus(ss: Sessions, gone: set<u32>): Sessions { ss - gone }

  function Less(a: set<u32>, gone: set<u32>): set<u32> { a - gone }

  lemma MinusMore(ss: Sessions, gone: set<u32>, sid: u32)
    ensures Minus(Minus(ss, gone), {sid}) == Minus(ss, gone + {sid})
  {
  }

  lemma LessMore(a: set<u32>, gone: set<u32>, sid: u32)
    ensures Less(Less(a, gone), {sid}) == Less(a, gone + {sid})
  {
  }

  lemma TokensMore(ss: Sessions, gone: set<u32>, sid: u32, off: set<nat>)
    ensures off + Tokens(ss, gone) + Tokens(Minus(ss, gone), {sid}) == off + Tokens(ss, gone + {sid})
  {
    var a, b := Tokens(ss, gone) + Tokens(Minus(ss, gone), {sid}), Tokens(ss, gone + {sid});
    forall t | t in a ensures t in b {
      if t in Tokens(ss, gone) {
        var x :| x in gone && x in ss && ss[x].token == t;
        assert x in gone + {sid};
      } else {
        assert sid in ss && ss[sid].token == t && sid in gone + {sid};
      }
    }
    forall t | t in b ensures t in a {
      var x :| x in gone + {sid} && x in ss && ss[x].token == t;
      if x !in gone { assert sid in Minus(ss, gone) && Minus(ss, gone)[sid].token == t && sid in {sid}; }
    }
  }

  function Both(a: set<u32>, b: set<u32>): set<u32> { a + b }

  lemma BothEnds(a: set<u32>)
    ensures Both(a, {}) == a && Both({}, a) == a
  {
  }

  lemma BothMoves(a: set<u32>, b: set<u32>, sid: u32)
    requires sid in a
    ensures Both(a - {sid}, b + {sid}) == Both(a, b)
  {
  }

  lemma NothingGone(ss: Sessions, a: set<u32>, off: set<nat>)
    ensures Minus(ss, {}) == ss && Less(a, {}) == a && off + Tokens(ss, {}) == off
  {
  }

  lemma LiveIsMinus(ss: Sessions, r: Reading, idle: nat)
    ensures Minus(ss, Expired(ss, r, idle)) == Live(ss, r, idle)
  {
  }

  lemma RemoveOne(ss: Sessions, sid: u32)
    ensures |ss| == |ss - {sid}| + One(sid in ss)
  {
    assert |ss| == |ss.Keys| && |ss - {sid}| == |(ss - {sid}).Keys|;
    if sid in ss {
      assert ss.Keys == (ss - {sid}).Keys + {sid};
    } else {
      assert ss - {sid} == ss;
    }
  }

  // ------------------------------------------------------------------------
  // The whole table
  // ------------------------------------------------------------------------

  /** A connection's fields. */
  datatype Conn = Conn(
    sessions: Sessions, tcpRoutes: set<u32>, udpRoutes: set<u32>, stopped: set<nat>, lastActive: nat,
    cancelled: bool)

  /** A connection the reaper tears down: no sessions, and quiet three times as long as a session may be. */
  predicate Dead(v: Conn, r: Reading, idle: nat) {
    v.sessions == map[] && IdleFor(r.conn, v.lastActive) > 3 * idle
  }

  /** A connection after the reaper: exactly the expired sessions are gone, with their routes, and their tokens cancelled. */
  function Reaped(v: Conn, r: Reading, idle: nat): Conn {
    var gone := Expired(v.sessions, r, idle);
    var w := v.(sessions := Live(v.sessions, r, idle), tcpRoutes := v.tcpRoutes - gone, udpRoutes := v.udpRoutes - gone,
                stopped := v.stopped + Tokens(v.sessions, gone));
    if Dead(w, r, idle) then w.(cancelled := true) else w
  }

  /** The sessions of the first n connections together. */
  function Total(vs: seq<Conn>, n: nat): nat
    requires n <= |vs|
  {
    if n == 0 then 0 else Total(vs, n - 1) + |vs[n - 1].sessions|
  }

  function ReapedAll(vs: seq<Conn>, rs: seq<Reading>, idle: nat): (ws: seq<Conn>)
    requires |rs| == |vs|
    ensures |ws| == |vs|
  {
    seq(|vs|, i requires 0 <= i < |vs| => Reaped(vs[i], rs[i], idle))
  }

  function Value(c: ConnState): Conn
    reads c
  {
    Conn(c.sessions, c.tcpRoutes, c.udpRoutes, c.stopped, c.lastActive, c.cancelled)
  }

  function Values(cs: seq<ConnState>): (vs: seq<Conn>)
    reads cs
    ensures |vs| == |cs|
  {
    seq(|cs|, i requires 0 <= i < |cs| reads cs => Value(cs[i]))
  }

  /** Which of the first n connections stay in the table, by what became of them. */
  function Alive(cs: seq<ConnState>, vs: seq<Conn>, rs: seq<Reading>, idle: nat, n: nat): seq<ConnState>
    requires n <= |cs| == |vs| == |rs|
  {
    if n == 0 then []
    else Alive(cs, vs, rs, idle, n - 1) + if Dead(vs[n - 1], rs[n - 1], idle) then [] else [cs[n - 1]]
  }

  method ReapConn(c: ConnState, r: Reading, idle: nat) returns (released: nat, dead: bool)
    modifies c
    ensures Value(c) == Reaped(old(Value(c)), r, idle) && dead == Dead(Value(c), r, idle)
    ensures |old(Value(c)).sessions| == |Value(c).sessions| + released
  {
    released := c.ReapSessions(r, idle);
    dead := c.sessions == map[] && IdleFor(r.conn, c.lastActive) > 3 * idle;
    if dead {
      c.cancelled := true;
    }
  }

  predicate Distinct(cs: seq<ConnState>) { forall i, j :: 0 <= i < j < |cs| ==> cs[i] != cs[j] }

  lemma OthersDiffer(cs: seq<ConnState>, i: nat)
    requires Distinct(cs) && i < |cs|
    ensures forall j :: 0 <= j < |cs| && j != i ==> cs[j] != cs[i]
  {
  }

  lemma ValuesAt(cs: seq<ConnState>)
    ensures |Values(cs)| == |cs| && forall j :: 0 <= j < |cs| ==> Value(cs[j]) == Values(cs)[j]
  {
  }

  lemma ValuesAre(cs: seq<ConnState>, vs: seq<Conn>)
    requires |vs| == |cs| && forall j :: 0 <= j < |cs| ==> Value(cs[j]) == vs[j]
    ensures Values(cs) == vs
  {
  }

  lemma ReapedAt(vs: seq<Conn>, rs: seq<Reading>, idle: nat, i: nat)
    requires i < |vs| == |rs|
    ensures ReapedAll(vs, rs, idle)[i] == Reaped(vs[i], rs[i], idle)
  {
  }

  /** What the reaper releases. */
  lemma {:induction false} TotalShrinks(vs: seq<Conn>, rs: seq<Reading>, idle: nat, n: nat)
    requires n <= |vs| == |rs|
    ensures Total(ReapedAll(vs, rs, idle), n) <= Total(vs, n)
  {
    hide Reaped, ReapedAll;
    if n > 0 {
      TotalShrinks(vs, rs, idle, n - 1);
      ReapedAt(vs, rs, idle, n - 1);
      ReapedIsSmaller(vs[n - 1], rs[n - 1], idle);
    }
  }

  lemma ReapedIsSmaller(v: Conn, r: Reading, idle: nat)
    ensures |Reaped(v, r, idle).sessions| <= |v.sessions|
  {
    var ss := v.sessions;
    CardinalityMonotone(Live(ss, r, idle).Keys, ss.Keys);
    assert |ss.Keys| == |ss| && |Live(ss, r, idle).Keys| == |Live(ss, r, idle)|;
  }

  /** The reaper's outer loop. */
  method ReapAll(cs: seq<ConnState>, rs: seq<Reading>, idle: nat) returns (released: nat, alive: seq<ConnState>)
    requires Distinct(cs) && |rs| == |cs|
    modifies cs
    ensures Values(cs) == ReapedAll(old(Values(cs)), rs, idle)
    ensures old(Total(Values(cs), |cs|)) == Total(Values(cs), |cs|) + released
    ensures alive == Alive(cs, Values(cs), rs, idle, |cs|)
  {
    hide Reaped, ReapedAll, Dead, Value, Values, Distinct;
    ghost var before := Values(cs);
    ghost var after := ReapedAll(before, rs, idle);
    ValuesAt(cs);
    released, alive := 0, [];
    var i := 0;
    while i < |cs|
      invariant |before| == |after| == |cs| && i <= |cs|
      invariant Total(before, i) == Total(after, i) + released
      invariant forall j :: i <= j < |cs| ==> Value(cs[j]) == before[j]
      invariant forall j :: 0 <= j < i ==> Value(cs[j]) == after[j]
      invariant alive == Alive(cs, after, rs, idle, i)
    {
      ReapedAt(before, rs, idle, i);
      OthersDiffer(cs, i);
      var n, dead := ReapConn(cs[i], rs[i], idle);
      released := released + n;
      if !dead {
        alive := alive + [cs[i]];
      }
      i := i + 1;
    }
    ValuesAre(cs, after);
  }

  class ServerState {
    const idle: nat
    var active: nat
    /** The connection table, in the order an iteration visits it. */
    var conns: seq<ConnState>

    constructor (idle: nat)
      ensures this.idle == idle && active == 0 && conns == []
    {
      this.idle := idle;
      active, conns := 0, [];
    }

    /**
      `reap_idle`, with one clock reading per session and connection: every connection loses exactly its expired sessions; the quota drops by exactly the number of handles
      removed, never below zero; a connection leaves the table exactly when it is dead.
    */
    method ReapIdle(rs: seq<Reading>)
      requires Distinct(conns) && |rs| == |conns| && Total(Values(conns), |conns|) <= active
      modifies this, conns
      ensures Values(old(conns)) == ReapedAll(old(Values(conns)), rs, idle)
      ensures active - Total(Values(old(conns)), |old(conns)|) == old(active) - old(Total(Values(conns), |conns|))
      ensures conns == Alive(old(conns), Values(old(conns)), rs, idle, |old(conns)|)
    {
      TotalShrinks(Values(conns), rs, idle, |conns|);
      var released, alive := ReapAll(conns, rs, idle);
      active := active - released;
      conns := alive;
    }
  }
}
