/** The Auth payload (src/proto/crypto.rs) and the Open payload (src/proto/frame.rs). */
module HandshakeCodec {
  import opened Bytes
  import Utf8

  const BASELINE: u32 := 16 * 1024

  // ------------------------------------------------------------------------
  // AuthPayload
  // ------------------------------------------------------------------------

  datatype AuthPayload = AuthPayload(
    version: byte, salt: seq<byte>, ts: u64, nonce: seq<byte>, uid: seq<byte>, mac: seq<byte>, maxPlaintext: u32)

  predicate WellFormed(a: AuthPayload) {
    |a.salt| == 16 && |a.nonce| == 16 && |a.mac| == 32 && |a.uid| <= 255 && Utf8.Valid(a.uid)
  }

  function EncodeAuth(a: AuthPayload): seq<byte> {
    [a.version] + (a.salt + (ToLe(a.ts, 8) + (a.nonce + ([|a.uid| % 256] + (a.uid + (a.mac + ToLe(a.maxPlaintext, 4)))))))
  }

  /** A version 1 peer stops before the frame limit. */
  function EncodeAuthV1(a: AuthPayload): seq<byte> {
    [a.version] + (a.salt + (ToLe(a.ts, 8) + (a.nonce + ([|a.uid| % 256] + (a.uid + a.mac)))))
  }

  /** Fields are read by prefix; whatever follows them is ignored. */
  function DecodeAuth(b: seq<byte>): Option<AuthPayload> {
    if |b| < 1 + 16 + 8 + 16 + 1 + 32 then None
    else
      Pow256Values();
      var r1 := b[1..];
      var r2 := r1[16..];
      var r3 := r2[8..];
      var r4 := r3[16..];
      var ul: nat := r4[0];
      var r5 := r4[1..];
      if |r5| < ul + 32 || !Utf8.Valid(r5[..ul]) then None
      else
        var r6 := r5[ul..];
        var r7 := r6[32..];
        Some(AuthPayload(
          b[0], r1[..16], FromLe(r2[..8]), r3[..16], r5[..ul], r6[..32],
          if |r7| >= 4 then FromLe(r7[..4]) else BASELINE))
  }

  lemma FirstByte(x: byte, rest: seq<byte>)
    ensures ([x] + rest)[0] == x && ([x] + rest)[1..] == rest
  {
  }

  lemma DecodeFields(a: AuthPayload, r7: seq<byte>)
    requires WellFormed(a)
    ensures
      var b := [a.version] + (a.salt + (ToLe(a.ts, 8) + (a.nonce + ([|a.uid|] + (a.uid + (a.mac + r7))))));
      DecodeAuth(b) == Some(a.(maxPlaintext := if |r7| >= 4 then (Pow256Values(); FromLe(r7[..4])) else BASELINE))
  {
    hide ToLe, Utf8.Valid;
    Pow256Values();
    LeRoundTrip(a.ts, 8);
    var r6 := a.mac + r7;
    var r5 := a.uid + r6;
    var r4 := [|a.uid|] + r5;
    var r3 := a.nonce + r4;
    var r2 := ToLe(a.ts, 8) + r3;
    var r1 := a.salt + r2;
    FirstByte(a.version, r1);
    Split(a.salt, r2);
    Split(ToLe(a.ts, 8), r3);
    Split(a.nonce, r4);
    FirstByte(|a.uid|, r5);
    Split(a.uid, r6);
    Split(a.mac, r7);
  }

  lemma Regroup(a: AuthPayload, tail: seq<byte>)
    requires WellFormed(a)
    ensures EncodeAuth(a) + tail ==
      [a.version] + (a.salt + (ToLe(a.ts, 8) + (a.nonce + ([|a.uid|] + (a.uid + (a.mac + (ToLe(a.maxPlaintext, 4) + tail)))))))
    ensures EncodeAuthV1(a) + tail ==
      [a.version] + (a.salt + (ToLe(a.ts, 8) + (a.nonce + ([|a.uid|] + (a.uid + (a.mac + tail))))))
  {
  }

  /** The Auth payload decodes to the original under any appended padding. */
  lemma AuthRoundTrip(a: AuthPayload, tail: seq<byte>)
    requires WellFormed(a)
    ensures DecodeAuth(EncodeAuth(a) + tail) == Some(a)
  {
    Regroup(a, tail);
    var r7 := ToLe(a.maxPlaintext, 4) + tail;
    DecodeFields(a, r7);
    Split(ToLe(a.maxPlaintext, 4), tail);
    Pow256Values();
    LeRoundTrip(a.maxPlaintext, 4);
  }

  /** A version 1 payload decodes with the 16 KiB baseline limit. */
  lemma AuthV1RoundTrip(a: AuthPayload, tail: seq<byte>)
    requires WellFormed(a) && |tail| < 4
    ensures DecodeAuth(EncodeAuthV1(a) + tail) == Some(a.(maxPlaintext := BASELINE))
  {
    Regroup(a, tail);
    DecodeFields(a, tail);
  }

  /** Whatever decodes was encoded so: decoding loses only the tail. */
  lemma AuthUnique(b: seq<byte>)
    requires DecodeAuth(b).Some?
    ensures
      var a := DecodeAuth(b).value;
      && WellFormed(a) && EncodeAuthV1(a) <= b
      && (if |b| >= |EncodeAuthV1(a)| + 4 then EncodeAuth(a) <= b else a.maxPlaintext == BASELINE)
  {
    hide ToLe, FromLe, Utf8.Valid;
    var a := DecodeAuth(b).value;
    var n := |a.uid|;
    LeUnique(b[17..25]);
    Slices(b, a);
    assert EncodeAuthV1(a) == b[..74 + n];
    if |b| >= 78 + n {
      LeUnique(b[74 + n..78 + n]);
      assert EncodeAuth(a) == b[..78 + n];
    }
  }

  /** The fields by their offsets. */
  lemma Slices(b: seq<byte>, a: AuthPayload)
    requires DecodeAuth(b) == Some(a)
    ensures |a.uid| <= 255 && |b| >= 74 + |a.uid|
    ensures
      var n := |a.uid|;
      && b[0] == a.version && b[1..17] == a.salt && FromLe(b[17..25]) == a.ts && b[25..41] == a.nonce
      && b[41] == n && b[42..42 + n] == a.uid && b[42 + n..74 + n] == a.mac
      && (|b| >= 78 + n ==> FromLe(b[74 + n..78 + n]) == a.maxPlaintext)
  {
    hide FromLe, Utf8.Valid;
    var n := |a.uid|;
    assert b[1..][..16] == b[1..17] && b[1..][16..] == b[17..];
    assert b[17..][..8] == b[17..25] && b[17..][8..] == b[25..];
    assert b[25..][..16] == b[25..41] && b[25..][16..] == b[41..];
    assert b[41..][1..] == b[42..] && b[42..][..n] == b[42..42 + n] && b[42..][n..] == b[42 + n..];
    assert b[42 + n..][..32] == b[42 + n..74 + n] && b[42 + n..][32..] == b[74 + n..];
    if |b| >= 78 + n { assert b[74 + n..][..4] == b[74 + n..78 + n]; }
  }

  // ------------------------------------------------------------------------
  // Open payload
  // ------------------------------------------------------------------------

  function EncodeOpen(host: seq<byte>, port: u16): seq<byte> {
    ToLe(|host| % 0x1_0000, 2) + (host + ToLe(port, 2))
  }

  function DecodeOpen(p: seq<byte>): Option<(seq<byte>, u16)> {
    if |p| < 4 then None
    else
      Pow256Values();
      var hl := FromLe(p[..2]);
      if |p| < 2 + hl + 2 || hl == 0 || hl > 255 || !Utf8.Valid(p[2..2 + hl]) then None
      else Some((p[2..2 + hl], FromLe(p[2 + hl..2 + hl + 2])))
  }

  lemma OpenParts(host: seq<byte>, port: u16, tail: seq<byte>)
    requires |host| < 0x1_0000
    ensures
      var p, n := EncodeOpen(host, port) + tail, |host|;
      && |p| >= n + 4 && p[..2] == ToLe(n, 2)
      && p[2..2 + n] == host && p[2 + n..2 + n + 2] == ToLe(port, 2)
  {
    hide ToLe;
    var a, b := ToLe(|host|, 2), ToLe(port, 2);
    assert |host| % 0x1_0000 == |host|;
    Three(a, host, b, tail);
  }

  lemma Three(a: seq<byte>, h: seq<byte>, b: seq<byte>, tail: seq<byte>)
    ensures
      var p := a + (h + b) + tail;
      && p[..|a|] == a && p[|a|..|a| + |h|] == h && p[|a| + |h|..|a| + |h| + |b|] == b
  {
  }

  lemma DecodeOpenParts(p: seq<byte>, n: nat, host: seq<byte>, port: u16)
    requires |p| >= n + 4 && FromLe(p[..2]) == n
    requires p[2..2 + n] == host && FromLe(p[2 + n..2 + n + 2]) == port && Utf8.Valid(host)
    ensures DecodeOpen(p) == if 1 <= n <= 255 then Some((host, port)) else None
  {
    hide FromLe, Utf8.Valid;
  }

  lemma DecodedLength(p: seq<byte>)
    requires DecodeOpen(p).Some?
    ensures 1 <= |DecodeOpen(p).value.0| <= 255
  {
  }

  /** The Open payload decodes to the original, whatever tail follows, exactly for hosts of 1 to 255 bytes. */
  lemma OpenRoundTrip(host: seq<byte>, port: u16, tail: seq<byte>)
    requires Utf8.Valid(host)
    ensures DecodeOpen(EncodeOpen(host, port) + tail) == Some((host, port)) <==> 1 <= |host| <= 255
  {
    hide EncodeOpen, DecodeOpen, Utf8.Valid;
    var p := EncodeOpen(host, port) + tail;
    if DecodeOpen(p).Some? { DecodedLength(p); }
    if |host| <= 255 {
      OpenParts(host, port, tail);
      Pow256Values();
      LeRoundTrip(|host|, 2);
      LeRoundTrip(port, 2);
      DecodeOpenParts(EncodeOpen(host, port) + tail, |host|, host, port);
    }
  }

  /** Whatever decodes was encoded so: decoding loses only the tail. */
  lemma OpenUnique(p: seq<byte>)
    requires DecodeOpen(p).Some?
    ensures
      var (host, port) := DecodeOpen(p).value;
      EncodeOpen(host, port) <= p
  {
    var (host, port) := DecodeOpen(p).value;
    LeUnique(p[..2]);
    LeUnique(p[2 + |host|..2 + |host| + 2]);
    assert EncodeOpen(host, port) == p[..2] + (p[2..2 + |host|] + p[2 + |host|..2 + |host| + 2]);
  }
}
