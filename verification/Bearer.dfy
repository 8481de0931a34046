/** Bearer tokens (src/proto/crypto.rs): `uid.ts.nonce.mac`, verified within a time window. */
module Bearer {
  import opened Bytes
  import opened Text

  const AUTH_WINDOW: u64 := 60

  /** HMAC-SHA256 under one user's key, over the uid, the timestamp and the nonce. */
  type Mac = (Str, u64, seq<byte>) -> seq<byte>

  function SatSub(a: nat, b: nat): nat { if a < b then 0 else a - b }

  predicate InWindow(ts: u64, now: u64, window: nat) {
    SatSub(now, ts) <= window && SatSub(ts, now) <= window
  }

  function MakeBearer(mac: Mac, uid: Str, ts: u64, nonce: seq<byte>): Str {
    uid + [DOT] + (Decimal(ts) + [DOT] + (Hex(nonce) + [DOT] + Hex(mac(uid, ts, nonce))))
  }

  function Fixed(s: Str, n: nat): Option<seq<byte>> {
    var b := Unhex(s);
    if b.Some? && |b.value| == n then b else None
  }

  function VerifyBearer(mac: Mac, token: Str, uid: Str, window: nat, now: u64): Option<(u64, seq<byte>)> {
    var parts := SplitOn(token, DOT);
    if |parts| != 4 || parts[0] != uid then None
    else
      var ts, nonce, tag := ParseU64(parts[1]), Fixed(parts[2], 16), Fixed(parts[3], 32);
      if ts.None? || nonce.None? || tag.None? then None
      else if !InWindow(ts.value, now, window) then None
      else if tag.value != mac(uid, ts.value, nonce.value) then None
      else Some((ts.value, nonce.value))
  }

  /** The uid a token claims: its first piece, unless empty. */
  function BearerUid(token: Str): Option<Str> {
    var first := SplitOn(token, DOT)[0];
    if first == [] then None else Some(first)
  }

  lemma NoDots(n: nat, b: seq<byte>)
    ensures DOT !in Decimal(n) && DOT !in Hex(b)
  {
    HexIsHex(b);
    assert forall i :: 0 <= i < |Decimal(n)| ==> IsDigit(Decimal(n)[i]);
  }

  lemma TokenPieces(uid: Str, a: Str, b: Str, c: Str)
    requires DOT !in uid && DOT !in a && DOT !in b && DOT !in c
    ensures SplitOn(uid + [DOT] + (a + [DOT] + (b + [DOT] + c)), DOT) == [uid, a, b, c]
  {
    SplitFirst(uid, DOT, a + [DOT] + (b + [DOT] + c));
    SplitFirst(a, DOT, b + [DOT] + c);
    SplitFirst(b, DOT, c);
    SplitNone(c, DOT);
  }

  /** A made token verifies, to what it was made from, exactly when its uid has no dot and its time is in the window. */
  lemma BearerRoundTrip(mac: Mac, uid: Str, ts: u64, nonce: seq<byte>, window: nat, now: u64)
    requires |nonce| == 16 && |mac(uid, ts, nonce)| == 32
    ensures VerifyBearer(mac, MakeBearer(mac, uid, ts, nonce), uid, window, now) ==
      if DOT !in uid && InWindow(ts, now, window) then Some((ts, nonce)) else None
    ensures DOT !in uid ==> BearerUid(MakeBearer(mac, uid, ts, nonce)) == if uid == [] then None else Some(uid)
  {
    var tag := mac(uid, ts, nonce);
    var token := MakeBearer(mac, uid, ts, nonce);
    if DOT in uid {
      PiecesHaveNoSeparator(token, DOT);
    } else {
      NoDots(ts, nonce);
      NoDots(ts, tag);
      TokenPieces(uid, Decimal(ts), Hex(nonce), Hex(tag));
      ParsePrinted(ts);
      UnhexHex(nonce);
      UnhexHex(tag);
    }
  }

  /** The pieces of a string, joined again, are the string. */
  function Join(parts: seq<Str>, c: byte): Str {
    if parts == [] then [] else if |parts| == 1 then parts[0] else parts[0] + [c] + Join(parts[1..], c)
  }

  lemma JoinCons(a: Str, rest: seq<Str>, c: byte)
    requires rest != []
    ensures Join([a] + rest, c) == a + [c] + Join(rest, c)
  {
    assert ([a] + rest)[1..] == rest;
  }

  lemma JoinHead(x: Str, rest: seq<Str>, c: byte)
    requires rest != []
    ensures Join([x + rest[0]] + rest[1..], c) == x + Join(rest, c)
  {
    if |rest| == 1 {
      assert [x + rest[0]] + rest[1..] == [x + rest[0]];
    } else {
      JoinCons(x + rest[0], rest[1..], c);
      Prepend(x, rest[0], [c], Join(rest[1..], c));
    }
  }

  lemma {:induction false} JoinSplit(s: Str, c: byte)
    ensures Join(SplitOn(s, c), c) == s
  {
    if s != [] {
      JoinSplit(s[1..], c);
      hide Join;
      var rest := SplitOn(s[1..], c);
      assert s == [s[0]] + s[1..];
      if s[0] == c {
        JoinCons([], rest, c);
        assert [] + [c] + Join(rest, c) == [c] + Join(rest, c);
      } else {
        JoinHead([s[0]], rest, c);
      }
    }
  }

  lemma Prepend(x: Str, a: Str, b: Str, t: Str)
    ensures x + (a + b + t) == (x + a) + b + t
  {
  }

  /** A verified token is the made one, up to letter case in the hex pieces and how the timestamp is spelled. */
  lemma BearerSound(mac: Mac, token: Str, uid: Str, window: nat, now: u64)
    requires VerifyBearer(mac, token, uid, window, now).Some?
    ensures
      var (ts, nonce) := VerifyBearer(mac, token, uid, window, now).value;
      var parts := SplitOn(token, DOT);
      && InWindow(ts, now, window) && DOT !in uid && |nonce| == 16 && |parts| == 4
      && token == uid + [DOT] + (parts[1] + [DOT] + (parts[2] + [DOT] + parts[3]))
      && ParseU64(parts[1]) == Some(ts)
      && Lowered(parts[2]) == Hex(nonce) && Lowered(parts[3]) == Hex(mac(uid, ts, nonce))
  {
    var parts := SplitOn(token, DOT);
    PiecesHaveNoSeparator(token, DOT);
    JoinSplit(token, DOT);
    assert parts == [parts[0], parts[1], parts[2], parts[3]];
    assert Join(parts, DOT) == parts[0] + [DOT] + Join(parts[1..], DOT);
    assert Join(parts[1..], DOT) == parts[1] + [DOT] + Join(parts[1..][1..], DOT);
    assert Join(parts[2..], DOT) == parts[2] + [DOT] + Join(parts[2..][1..], DOT);
    assert parts[1..][1..] == parts[2..] && parts[2..][1..] == [parts[3]];
    HexUnhex(parts[2]);
    HexUnhex(parts[3]);
  }

  // ------------------------------------------------------------------------
  // The constant-time comparison
  // ------------------------------------------------------------------------

  /** `a ^ b` and `a | b`, bit by bit. */
  function Xor(a: nat, b: nat): nat {
    if a == 0 && b == 0 then 0 else (a + b) % 2 + 2 * Xor(a / 2, b / 2)
  }

  function Or(a: nat, b: nat): nat {
    if a == 0 && b == 0 then 0 else (if a % 2 == 1 || b % 2 == 1 then 1 else 0) + 2 * Or(a / 2, b / 2)
  }

  lemma {:induction false} XorZero(a: nat, b: nat)
    ensures Xor(a, b) == 0 <==> a == b
  {
    if a != 0 || b != 0 { XorZero(a / 2, b / 2); }
  }

  lemma {:induction false} OrZero(a: nat, b: nat)
    ensures Or(a, b) == 0 <==> a == 0 && b == 0
  {
    if a != 0 || b != 0 { OrZero(a / 2, b / 2); }
  }

  /** Differences are accumulated, never branched on. */
  method SameBytes(a: seq<byte>, b: seq<byte>) returns (same: bool)
    requires |a| == |b|
    ensures same == (a == b)
  {
    var diff := 0;
    for i := 0 to |a|
      invariant diff == 0 <==> a[..i] == b[..i]
    {
      var x := Xor(a[i], b[i]);
      XorZero(a[i], b[i]);
      OrZero(diff, x);
      assert a[..i + 1] == a[..i] + [a[i]] && b[..i + 1] == b[..i] + [b[i]];
      diff := Or(diff, x);
    }
    assert a[..|a|] == a && b[..|b|] == b;
    return diff == 0;
  }
}
