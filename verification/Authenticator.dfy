/** The two ways in (src/server/mod.rs): a bearer header and an Auth frame, both through one replay cache. */
module Authenticator {
  import opened Bytes
  import opened Text
  import opened Bearer
  import opened ReplayCache
  import opened HandshakeCodec
  import FrameCodec

  /** What one static key computes. */
  datatype Secret = Secret(mac: Mac, cipher: FrameCodec.Cipher)

  ghost predicate MacIs32(s: Secret) {
    forall uid: Str, ts: u64, nonce: seq<byte> :: |s.mac(uid, ts, nonce)| == 32
  }

  datatype AuthOutcome =
    | Admitted(uid: Str, payload: AuthPayload)
    | VersionMismatch(client: byte, server: byte)
    | Rejected

  /** The payload a frame carries for a user: it opens under the user's key, decodes, and names that user. */
  function Carried(f: FrameCodec.Frame, uid: Str, s: Secret): Option<AuthPayload> {
    var pt := s.cipher.open(f.counter, f.aad, f.payload);
    if pt.None? then None
    else
      var ap := DecodeAuth(pt.value);
      if ap.Some? && ap.value.uid == uid then ap else None
  }

  /** The payload's mac and timestamp hold under the user's key. */
  predicate Verified(ap: AuthPayload, s: Secret, now: u64) {
    InWindow(ap.ts, now, AUTH_WINDOW) && ap.mac == s.mac(ap.uid, ap.ts, ap.nonce)
  }

  function AttemptOf(ap: AuthPayload, verifiedAt: u64, recordedAt: u64): Attempt {
    Attempt(ap.uid, ap.ts, ap.nonce, verifiedAt, recordedAt)
  }

  /** The loop over users stops at this one. */
  predicate Stops(f: FrameCodec.Frame, uid: Str, s: Secret, now: u64) {
    var ap := Carried(f, uid, s);
    ap.Some? && (ap.value.version != FrameCodec.PROTO_VERSION || Verified(ap.value, s, now))
  }

  lemma CarriedLengths(f: FrameCodec.Frame, uid: Str, s: Secret)
    requires Carried(f, uid, s).Some?
    ensures |Carried(f, uid, s).value.mac| == 32
  {
  }

  const UPPER := Ascii("Bearer ")
  const LOWER := Ascii("bearer ")

  /** `strip_prefix`, in either spelling. */
  function Stripped(h: Str): Option<Str> {
    if UPPER <= h then Some(h[|UPPER|..]) else if LOWER <= h then Some(h[|LOWER|..]) else None
  }

  /** What a header proves: the uid, timestamp and nonce of a token that verifies under that uid's key. */
  function Claim(keys: map<Str, Secret>, header: Option<Str>, now: u64): Option<(Str, u64, seq<byte>)> {
    var token := if header.Some? then Stripped(header.value) else None;
    var uid := if token.Some? then BearerUid(token.value) else None;
    if uid.None? || uid.value !in keys then None
    else
      var v := VerifyBearer(keys[uid.value].mac, token.value, uid.value, AUTH_WINDOW, now);
      if v.None? then None else Some((uid.value, v.value.0, v.value.1))
  }

  /** The part of the cache that is above the cutoff, outside the keys still to be visited. */
  function Visited(c: Cache, todo: set<Str>, cutoff: nat): Cache {
    map k | k in c && k !in todo && c[k] > cutoff :: c[k]
  }

  lemma VisitOne(c: Cache, todo: set<Str>, cutoff: nat, k: Str)
    requires k in todo && k in c
    ensures Visited(c, todo - {k}, cutoff) ==
      if c[k] > cutoff then Visited(c, todo, cutoff)[k := c[k]] else Visited(c, todo, cutoff)
  {
  }

  lemma VisitEnds(c: Cache, now: u64)
    ensures Visited(c, c.Keys, Cutoff(now)) == map[] && Visited(c, {}, Cutoff(now)) == Purged(c, now)
  {
  }

  /** `retain`: the loop over the keys. */
  method Retain(c: Cache, now: u64) returns (kept: Cache)
    ensures kept == Purged(c, now)
  {
    var cutoff := Cutoff(now);
    var todo := c.Keys;
    kept := map[];
    VisitEnds(c, now);
    hide Visited, Purged, Cutoff;
    while todo != {}
      invariant todo <= c.Keys && kept == Visited(c, todo, cutoff)
      decreases todo
    {
      var k :| k in todo;
      VisitOne(c, todo, cutoff, k);
      if c[k] > cutoff {
        kept := kept[k := c[k]];
      }
      todo := todo - {k};
    }
  }

  class ServerAuth {
    const keys: map<Str, Secret>
    var seen: Cache
    /** Every call of the cache so far. */
    ghost var log: seq<Attempt>

    ghost predicate Valid()
      reads this
    {
      seen == After(log) && forall u :: u in keys ==> MacIs32(keys[u])
    }

    constructor (keys: map<Str, Secret>)
      requires forall u :: u in keys ==> MacIs32(keys[u])
      ensures Valid() && log == [] && this.keys == keys
    {
      this.keys := keys;
      seen := map[];
      log := [];
    }

    /** `check_and_remember_nonce`. */
    method CheckAndRemember(a: Attempt) returns (novel: bool)
      requires Valid()
      modifies this
      ensures Valid() && log == old(log) + [a] && novel == Accepted(log, |old(log)|)
      ensures seen == Recorded(old(seen), a)
    {
      hide Key, Purged, MacIs32;
      ghost var before := log;
      log := log + [a];
      assert log[..|before|] == before;
      var key := Key(a);
      if key in seen {
        return false;
      }
      seen := Retain(seen, a.recordedAt);
      if |seen| >= NONCE_CAP {
        return false;
      }
      seen := seen[key := a.ts];
      return true;
    }

    /** `bearer_user`: an unverified header leaves the cache alone. */
    method BearerUser(header: Option<Str>, verifiedAt: u64, recordedAt: u64) returns (user: Option<Str>)
      requires Valid()
      modifies this
      ensures Valid()
      ensures
        var v := Claim(keys, header, verifiedAt);
        if v.None? then user.None? && log == old(log) && seen == old(seen)
        else
          var a := Attempt(v.value.0, v.value.1, v.value.2, verifiedAt, recordedAt);
          log == old(log) + [a] && user == if Accepted(log, |old(log)|) then Some(a.uid) else None
    {
      user := None;
      if header.None? {
        return;
      }
      var token := Stripped(header.value);
      if token.None? {
        return;
      }
      var uid := BearerUid(token.value);
      if uid.None? || uid.value !in keys {
        return;
      }
      var parts := VerifyBearer(keys[uid.value].mac, token.value, uid.value, AUTH_WINDOW, verifiedAt);
      if parts.None? {
        return;
      }
      var novel := CheckAndRemember(Attempt(uid.value, parts.value.0, parts.value.1, verifiedAt, recordedAt));
      if novel {
        user := uid;
      }
    }

    /** `auth_from_frame`: users are tried in the given order, user i at time clock[i]. */
    method AuthFromFrame(f: FrameCodec.Frame, users: seq<Str>, clock: seq<u64>, recordedAt: u64)
      returns (r: AuthOutcome, ghost at: nat)
      requires Valid() && |clock| == |users| && forall i :: 0 <= i < |users| ==> users[i] in keys
      modifies this
      ensures Valid() && at <= |users|
      // at is the first user whose key the frame fits
      ensures forall i :: 0 <= i < at ==> !Stops(f, users[i], keys[users[i]], clock[i])
      ensures at == |users| ==> r == Rejected && log == old(log) && seen == old(seen)
      ensures at < |users| ==> Stops(f, users[at], keys[users[at]], clock[at])
      ensures at < |users| ==>
        var ap := Carried(f, users[at], keys[users[at]]).value;
        if ap.version != FrameCodec.PROTO_VERSION then
          r == VersionMismatch(ap.version, FrameCodec.PROTO_VERSION) && log == old(log) && seen == old(seen)
        else
          && log == old(log) + [AttemptOf(ap, clock[at], recordedAt)]
          && r == if Accepted(log, |old(log)|) then Admitted(users[at], ap) else Rejected
    {
      at := 0;
      for i := 0 to |users|
        invariant at == i && Valid() && log == old(log) && seen == old(seen)
        invariant forall k :: 0 <= k < i ==> !Stops(f, users[k], keys[users[k]], clock[k])
      {
        var s := keys[users[i]];
        var ap := Carried(f, users[i], s);
        if ap.Some? {
          if ap.value.version != FrameCodec.PROTO_VERSION {
            r := VersionMismatch(ap.value.version, FrameCodec.PROTO_VERSION);
            return;
          }
          if InWindow(ap.value.ts, clock[i], AUTH_WINDOW) {
            CarriedLengths(f, users[i], s);
            assert MacIs32(s);
            var same := SameBytes(s.mac(ap.value.uid, ap.value.ts, ap.value.nonce), ap.value.mac);
            if same {
              var novel := CheckAndRemember(AttemptOf(ap.value, clock[i], recordedAt));
              r := if novel then Admitted(users[i], ap.value) else Rejected;
              return;
            }
          }
        }
        at := at + 1;
      }
      r := Rejected;
    }
  }

  // ------------------------------------------------------------------------
  // What the client makes, the server reads back
  // ------------------------------------------------------------------------

  /** A client's Auth frame carries its payload, whatever padding follows. */
  lemma ClientFrameCarries(f: FrameCodec.Frame, s: Secret, ap: AuthPayload, pad: seq<byte>)
    requires FrameCodec.Lawful(s.cipher) && WellFormed(ap)
    requires f.payload == s.cipher.seal(f.counter, f.aad, EncodeAuth(ap) + pad)
    ensures Carried(f, ap.uid, s) == Some(ap)
  {
    AuthRoundTrip(ap, pad);
  }

  /** A client's header proves its claim exactly while the clocks agree to a minute. */
  lemma ClientHeaderClaims(keys: map<Str, Secret>, uid: Str, ts: u64, nonce: seq<byte>, now: u64)
    requires uid in keys && MacIs32(keys[uid]) && |nonce| == 16 && uid != [] && DOT !in uid
    ensures Claim(keys, Some(UPPER + MakeBearer(keys[uid].mac, uid, ts, nonce)), now) ==
      if InWindow(ts, now, AUTH_WINDOW) then Some((uid, ts, nonce)) else None
  {
    var token := MakeBearer(keys[uid].mac, uid, ts, nonce);
    BearerRoundTrip(keys[uid].mac, uid, ts, nonce, AUTH_WINDOW, now);
    assert (UPPER + token)[|UPPER|..] == token;
    assert Stripped(UPPER + token) == Some(token);
  }

  // ------------------------------------------------------------------------
  // Once
  // ------------------------------------------------------------------------

  /** A request that wants in, either way; users are tried in the given order at the given times. */
  datatype Request =
    | ByHeader(header: Option<Str>, verifiedAt: u64, recordedAt: u64)
    | ByFrame(frame: FrameCodec.Frame, users: seq<Str>, clock: seq<u64>, recordedAt: u64)

  predicate Fits(q: Request, keys: map<Str, Secret>) {
    q.ByFrame? ==> |q.clock| == |q.users| && forall i :: 0 <= i < |q.users| ==> q.users[i] in keys
  }

  /** Who proved what: uid, timestamp and nonce. */
  type Proof = (Str, u64, seq<byte>)

  function ProofOf(a: Attempt): Proof { (a.uid, a.ts, a.nonce) }

  /** The log shows that call n admitted this proof. */
  predicate Shows(log: seq<Attempt>, n: nat, p: Proof) {
    n < |log| && Accepted(log, n) && ProofOf(log[n]) == p
  }

  lemma ShowsLater(log: seq<Attempt>, n: nat, p: Proof, a: Attempt)
    requires Shows(log, n, p)
    ensures Shows(log + [a], n, p)
  {
    assert (log + [a])[..n] == log[..n];
  }

  method Admit(s: ServerAuth, q: Request) returns (p: Option<Proof>)
    requires s.Valid() && Fits(q, s.keys)
    modifies s
    ensures s.Valid() && |s.log| <= |old(s.log)| + 1 && old(s.log) <= s.log
    ensures p.Some? ==> |s.log| == |old(s.log)| + 1 && Shows(s.log, |old(s.log)|, p.value)
  {
    hide Accepted;
    match q {
      case ByHeader(h, v, r) =>
        var user := s.BearerUser(h, v, r);
        if user.None? {
          return None;
        }
        return Claim(s.keys, h, v);
      case ByFrame(f, users, clock, r) =>
        var outcome, at := s.AuthFromFrame(f, users, clock, r);
        if !outcome.Admitted? {
          return None;
        }
        return Some((outcome.uid, outcome.payload.ts, outcome.payload.nonce));
    }
  }

  /**
    Over every sequence of requests through both doors, with the promises of the clock, no two are admitted on the same
    uid, timestamp and nonce.
  */
  method AdmitAll(s: ServerAuth, qs: seq<Request>) returns (ps: seq<Option<Proof>>)
    requires s.Valid() && forall i :: 0 <= i < |qs| ==> Fits(qs[i], s.keys)
    modifies s
    ensures s.Valid() && |ps| == |qs|
    ensures Timely(s.log) ==> forall i, j :: 0 <= i < j < |qs| && ps[i].Some? && ps[j].Some? ==> ps[i] != ps[j]
  {
    ps := [];
    ghost var at: seq<nat> := [];
    for i := 0 to |qs|
      invariant s.Valid() && |ps| == |at| == i
      invariant forall k :: 0 <= k < i && ps[k].Some? ==> Shows(s.log, at[k], ps[k].value)
      invariant forall j, k :: 0 <= j < k < i && ps[j].Some? && ps[k].Some? ==> at[j] < at[k]
    {
      hide Shows, Fits;
      ghost var before := s.log;
      var p := Admit(s, qs[i]);
      forall k | 0 <= k < i && ps[k].Some? ensures Shows(s.log, at[k], ps[k].value) && at[k] < |before| {
        ShowsKept(before, s.log, at[k], ps[k].value);
      }
      ps, at := ps + [p], at + [|before|];
    }
    if Timely(s.log) {
      forall i, j | 0 <= i < j < |qs| && ps[i].Some? && ps[j].Some? ensures ps[i] != ps[j] {
        OnlyOnce(s.log, at[i], at[j], ps[i].value, ps[j].value);
      }
    }
  }

  lemma ShowsKept(log: seq<Attempt>, longer: seq<Attempt>, n: nat, p: Proof)
    requires Shows(log, n, p) && log <= longer && |longer| <= |log| + 1
    ensures Shows(longer, n, p) && n < |log|
  {
    if |longer| == |log| {
      assert longer == log;
    } else {
      assert longer == log + [longer[|log|]];
      ShowsLater(log, n, p, longer[|log|]);
    }
  }

  lemma OnlyOnce(log: seq<Attempt>, i: nat, j: nat, p: Proof, p': Proof)
    requires Timely(log) && Shows(log, i, p) && Shows(log, j, p') && i < j
    ensures p != p'
  {
    hide Timely, Accepted;
    if p == p' { AtMostOnce(log, i, j); }
  }
}
