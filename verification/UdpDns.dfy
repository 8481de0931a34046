/** The UDP target cache (src/server/state.rs) and target resolution through it (src/server/hub.rs). */
module UdpDns {
  import opened Bytes
  import opened Text
  import opened Egress
  import Counting

  const CAP := 4096

  datatype OpenError = Denied | DialFailed
  datatype Result<T> = Ok(value: T) | Err(error: OpenError)

  datatype Target = Address(addr: SocketAddr) | Domain(host: Str, port: u16)

  /** One lookup that was made: for which name, what it gave, when it was asked for, and whether the table took it. */
  datatype Lookup = Lookup(host: Str, port: u16, addr: SocketAddr, at: nat, stored: bool)

  type Table = map<Str, (SocketAddr, nat)>

  predicate Passes(allowPrivate: bool, a: SocketAddr) {
    allowPrivate || IsPublicTarget(a)
  }

  function Key(host: Str, port: u16): Str { Lowered(host) + [COLON] + Decimal(port) }

  /** Two targets share a key exactly when they are the same host, up to letter case, and the same port. */
  lemma KeyInjective(h: Str, p: u16, h': Str, p': u16)
    ensures Key(h, p) == Key(h', p') <==> Lowered(h) == Lowered(h') && p == p'
  {
    if Key(h, p) == Key(h', p') {
      NoColon(p);
      NoColon(p');
      LastSeparator(Lowered(h), Decimal(p), Lowered(h'), Decimal(p'), COLON);
      DecimalValue(p);
      DecimalValue(p');
    }
  }

  lemma NoColon(n: nat)
    ensures COLON !in Decimal(n)
  {
    assert forall i :: 0 <= i < |Decimal(n)| ==> IsDigit(Decimal(n)[i]);
  }

  /** The age of an entry; an entry from the future is new. */
  function Age(now: nat, at: nat): nat { if now < at then 0 else now - at }

  function Current(t: Table, ttl: nat, now: nat): Table { map k | k in t && Age(now, t[k].1) <= ttl :: t[k] }

  function Stored(t: Table, ttl: nat, key: Str, addr: SocketAddr, now: nat): Table {
    if ttl == 0 then t
    else
      var room := if |t| >= CAP then Current(t, ttl, now) else t;
      if |room| >= CAP then room else room[key := (addr, now)]
  }

  function Hit(t: Table, ttl: nat, key: Str, now: nat): Option<SocketAddr> {
    if ttl > 0 && key in t && Age(now, t[key].1) <= ttl then Some(t[key].0) else None
  }

  // ------------------------------------------------------------------------
  // What the cache knows, by the lookups that were made
  // ------------------------------------------------------------------------

  /** The last lookup under a key that the table took. */
  function LastStored(log: seq<Lookup>, key: Str): (r: Option<Lookup>)
    ensures r.Some? ==> r.value in log && r.value.stored && Key(r.value.host, r.value.port) == key
  {
    if log == [] then None
    else
      var l := log[|log| - 1];
      if l.stored && Key(l.host, l.port) == key then Some(l) else LastStored(log[..|log| - 1], key)
  }

  /** The address a request may reuse: that of the last lookup taken, while it is no older than the TTL. */
  function Reusable(log: seq<Lookup>, ttl: nat, key: Str, now: nat): Option<SocketAddr> {
    var l := LastStored(log, key);
    if l.Some? && Age(now, l.value.at) <= ttl then Some(l.value.addr) else None
  }

  /** The table agrees with the log on one key, as of the latest request. */
  predicate Agrees(t: Table, log: seq<Lookup>, ttl: nat, clock: nat, allowPrivate: bool, key: Str) {
    match LastStored(log, key)
    case None => key !in t
    case Some(l) =>
      && ttl > 0 && l.at <= clock && Passes(allowPrivate, l.addr)
      && (if key in t then t[key] == (l.addr, l.at) else Age(clock, l.at) > ttl)
  }

  lemma HitIsReusable(t: Table, log: seq<Lookup>, ttl: nat, clock: nat, allowPrivate: bool, key: Str, now: nat)
    requires Agrees(t, log, ttl, clock, allowPrivate, key) && clock <= now
    ensures Hit(t, ttl, key, now) == Reusable(log, ttl, key, now)
    ensures Hit(t, ttl, key, now).Some? ==> Passes(allowPrivate, Hit(t, ttl, key, now).value)
  {
    hide Passes, Key;
  }

  /** Storing keeps the agreement, on the stored key and on every other. */
  lemma AgreesAfterStore(t: Table, log: seq<Lookup>, ttl: nat, clock: nat, allowPrivate: bool, l: Lookup, key: Str)
    requires Agrees(t, log, ttl, clock, allowPrivate, key) && clock <= l.at && Passes(allowPrivate, l.addr)
    requires
      var own, t' := Key(l.host, l.port), Stored(t, ttl, Key(l.host, l.port), l.addr, l.at);
      && l.stored == (ttl > 0 && own in t' && t'[own] == (l.addr, l.at))
      && (Hit(t, ttl, own, l.at).None?)
    ensures Agrees(Stored(t, ttl, Key(l.host, l.port), l.addr, l.at), log + [l], ttl, l.at, allowPrivate, key)
  {
    hide Passes, Key;
    assert (log + [l])[..|log|] == log;
  }

  lemma CurrentIsSmaller(t: Table, ttl: nat, now: nat)
    ensures |Current(t, ttl, now)| <= |t|
  {
    Counting.CardinalityMonotone(Current(t, ttl, now).Keys, t.Keys);
    assert |Current(t, ttl, now).Keys| == |Current(t, ttl, now)| && |t.Keys| == |t|;
  }

  /** Caching is on, and the table has room, if need be after dropping expired entries. */
  predicate HasRoom(t: Table, ttl: nat, now: nat) { ttl > 0 && (|t| < CAP || |Current(t, ttl, now)| < CAP) }

  /** A lookup is taken by the table exactly when there is room. */
  lemma TakenExactly(t: Table, ttl: nat, key: Str, addr: SocketAddr, now: nat)
    requires Hit(t, ttl, key, now).None?
    ensures
      var t' := Stored(t, ttl, key, addr, now);
      HasRoom(t, ttl, now) <==> ttl > 0 && key in t' && t'[key] == (addr, now)
  {
  }

  /** What the policy leaves of a lookup's answer. */
  function Allowed(allowPrivate: bool, answer: seq<SocketAddr>): seq<SocketAddr> {
    if answer == [] then []
    else
      var n := |answer| - 1;
      Allowed(allowPrivate, answer[..n]) + if Passes(allowPrivate, answer[n]) then [answer[n]] else []
  }

  lemma {:induction false} AllowedPasses(allowPrivate: bool, answer: seq<SocketAddr>)
    ensures forall a :: a in Allowed(allowPrivate, answer) <==> a in answer && Passes(allowPrivate, a)
  {
    hide Passes;
    if answer != [] {
      var n := |answer| - 1;
      AllowedPasses(allowPrivate, answer[..n]);
      assert answer == answer[..n] + [answer[n]];
    }
  }

  class DnsCache {
    const ttl: nat
    const allowPrivate: bool
    var table: Table
    /** Every successful lookup so far, and the time of the latest request. */
    ghost var log: seq<Lookup>
    ghost var clock: nat

    ghost predicate Valid()
      reads this
    {
      |table| <= CAP && forall key: Str :: Agrees(table, log, ttl, clock, allowPrivate, key)
    }

    constructor (ttl: nat, allowPrivate: bool)
      ensures Valid() && this.ttl == ttl && this.allowPrivate == allowPrivate && log == [] && clock == 0
    {
      this.ttl := ttl;
      this.allowPrivate := allowPrivate;
      table := map[];
      log := [];
      clock := 0;
    }

    /** `udp_dns_cached`: exactly what the lookups made so far allow to be reused, and nothing the policy refuses. */
    method Cached(key: Str, now: nat) returns (r: Option<SocketAddr>)
      requires Valid() && clock <= now
      ensures r == Reusable(log, ttl, key, now)
      ensures r.Some? ==> Passes(allowPrivate, r.value)
    {
      hide Passes;
      HitIsReusable(table, log, ttl, clock, allowPrivate, key, now);
      if ttl == 0 || key !in table {
        return None;
      }
      var (addr, at) := table[key];
      return if Age(now, at) <= ttl then Some(addr) else None;
    }

    /** `udp_dns_store`. */
    method Store(key: Str, addr: SocketAddr, now: nat)
      requires |table| <= CAP
      modifies this`table
      ensures table == Stored(old(table), ttl, key, addr, now) && |table| <= CAP
    {
      if ttl == 0 {
        return;
      }
      if |table| >= CAP {
        CurrentIsSmaller(table, ttl, now);
        table := Current(table, ttl, now);
        if |table| >= CAP {
          return;
        }
      }
      table := table[key := (addr, now)];
    }

    /** `resolve_target`: the lookup's answer (none when it failed or timed out), filtered by the policy. */
    method ResolveTarget(answer: Option<seq<SocketAddr>>) returns (r: Result<seq<SocketAddr>>)
      ensures answer.None? ==> r == Err(DialFailed)
      ensures answer.Some? ==>
        var ok := Allowed(allowPrivate, answer.value);
        r == if ok == [] then Err(Denied) else Ok(ok)
    {
      if answer.None? {
        return Err(DialFailed);
      }
      hide Passes;
      var addrs: seq<SocketAddr>, all := [], answer.value;
      for i := 0 to |all|
        invariant addrs == Allowed(allowPrivate, all[..i])
      {
        assert all[..i + 1][..i] == all[..i];
        if Passes(allowPrivate, all[i]) {
          addrs := addrs + [all[i]];
        }
      }
      assert all[..|all|] == all;
      return if addrs == [] then Err(Denied) else Ok(addrs);
    }

    /**
      `resolve_udp_target` at time now; answer is what a lookup would give. Whatever is handed out passes the policy. A
      name is answered from the cache exactly when its last stored lookup is at most one TTL old, with that address, and
      is then never denied; otherwise the first allowed address of the answer is handed out and the lookup recorded.
    */
    method ResolveUdp(dst: Target, answer: Option<seq<SocketAddr>>, now: nat) returns (r: Result<SocketAddr>)
      requires Valid() && clock <= now
      modifies this
      ensures Valid() && clock <= now
      ensures r.Ok? ==> Passes(allowPrivate, r.value)
      ensures dst.Address? ==> r == (if Passes(allowPrivate, dst.addr) then Ok(dst.addr) else Err(Denied)) && log == old(log)
      ensures dst.Domain? ==>
        var reuse := Reusable(old(log), ttl, Key(dst.host, dst.port), now);
        if reuse.Some? then r == Ok(reuse.value) && log == old(log)
        else if answer.None? then r == Err(DialFailed) && log == old(log)
        else
          var ok := Allowed(allowPrivate, answer.value);
          if ok == [] then r == Err(Denied) && log == old(log)
          else
            && r == Ok(ok[0]) && log == old(log) + [Lookup(dst.host, dst.port, ok[0], now, HasRoom(old(table), ttl, now))]
            && table == Stored(old(table), ttl, Key(dst.host, dst.port), ok[0], now)
    {
      hide IsPublicTarget, Agrees, Reusable, Stored, HasRoom;
      if dst.Address? {
        return if Passes(allowPrivate, dst.addr) then Ok(dst.addr) else Err(Denied);
      }
      var key := Key(dst.host, dst.port);
      var hit := Cached(key, now);
      if hit.Some? {
        return if Passes(allowPrivate, hit.value) then Ok(hit.value) else Err(Denied);
      }
      var found := ResolveTarget(answer);
      if found.Err? {
        return Err(found.error);
      }
      AllowedPasses(allowPrivate, answer.value);
      var addr := found.value[0];
      assert addr in Allowed(allowPrivate, answer.value);
      Remember(dst.host, dst.port, addr, now);
      return Ok(addr);
    }

    method Remember(host: Str, port: u16, addr: SocketAddr, now: nat)
      requires Valid() && clock <= now && Passes(allowPrivate, addr) && Reusable(log, ttl, Key(host, port), now).None?
      modifies this
      ensures Valid() && clock == now
      ensures log == old(log) + [Lookup(host, port, addr, now, HasRoom(old(table), ttl, now))]
      ensures table == Stored(old(table), ttl, Key(host, port), addr, now)
    {
      hide Passes, Key, Stored, Agrees, HasRoom;
      var key := Key(host, port);
      ghost var before, was, since := log, table, clock;
      HitIsReusable(table, log, ttl, clock, allowPrivate, key, now);
      Store(key, addr, now);
      TakenExactly(was, ttl, key, addr, now);
      ghost var l := Lookup(host, port, addr, now, HasRoom(was, ttl, now));
      log := log + [l];
      clock := now;
      forall k: Str ensures Agrees(table, log, ttl, clock, allowPrivate, k) {
        AgreesAfterStore(was, before, ttl, since, allowPrivate, l, k);
      }
    }
  }

  /** Reuse is by name: the address was looked up for the same host, up to letter case, and the same port. */
  lemma ReuseIsForTheName(log: seq<Lookup>, ttl: nat, host: Str, port: u16, now: nat)
    requires Reusable(log, ttl, Key(host, port), now).Some?
    ensures exists i ::
      && 0 <= i < |log| && log[i].stored && log[i].addr == Reusable(log, ttl, Key(host, port), now).value
      && Age(now, log[i].at) <= ttl && Lowered(log[i].host) == Lowered(host) && log[i].port == port
  {
    hide Key;
    var l := LastStored(log, Key(host, port)).value;
    var i :| 0 <= i < |log| && log[i] == l;
    KeyInjective(l.host, l.port, host, port);
  }
}
