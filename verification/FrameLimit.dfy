/** Agreeing on the largest frame (src/proto/frame.rs, the auth exchange on both sides, src/config.rs). */
module FrameLimit {
  import opened Bytes
  import opened FrameCodec
  import HandshakeCodec

  function Clamp(x: nat, lo: nat, hi: nat): nat
    requires lo <= hi
  {
    if x < lo then lo else if x > hi then hi else x
  }

  function Negotiate(client: u32, server: u32): nat {
    Clamp(if client <= server then client else server, MAX_PLAINTEXT, MAX_PLAINTEXT_CAP)
  }

  /** What the server settles on after decoding the client's Auth payload, and what it replies. */
  function ServerLimit(auth: seq<byte>, own: u32): Option<nat> {
    var ap := HandshakeCodec.DecodeAuth(auth);
    if ap.None? then None else Some(Negotiate(ap.value.maxPlaintext, own))
  }

  function AuthOk(limit: nat): seq<byte> { ToLe(limit, 4) }

  /** What the client settles on after the reply. */
  function ClientLimit(reply: seq<byte>, own: u32): Option<nat> {
    if |reply| < 4 then None
    else
      Pow256Values();
      Some(Negotiate(FromLe(reply[..4]), own))
  }

  /** For all advertisements the client adopts exactly the server's limit, between 16 KiB and 1 MiB. */
  lemma Agreement(client: u32, server: u32)
    ensures
      var limit := Negotiate(client, server);
      && ClientLimit(AuthOk(limit), client) == Some(limit)
      && MAX_PLAINTEXT <= limit <= MAX_PLAINTEXT_CAP && Negotiate(server, client) == limit
  {
    var limit := Negotiate(client, server);
    Pow256Values();
    LeRoundTrip(limit, 4);
    assert AuthOk(limit)[..4] == AuthOk(limit);
  }

  /** Through the whole exchange: padded Auth payload out, limit back, both sides equal. */
  lemma ExchangeAgrees(ap: HandshakeCodec.AuthPayload, pad: seq<byte>, server: u32)
    requires HandshakeCodec.WellFormed(ap)
    ensures
      var s := ServerLimit(HandshakeCodec.EncodeAuth(ap) + pad, server);
      && s == Some(Negotiate(ap.maxPlaintext, server))
      && ClientLimit(AuthOk(s.value), ap.maxPlaintext) == s
  {
    HandshakeCodec.AuthRoundTrip(ap, pad);
    Agreement(ap.maxPlaintext, server);
  }

  /** A decoder delivers an encoded frame exactly when its payload is within the decoder's limit. */
  lemma LengthCheckExact(d: Decoder, c: Cipher, p: Plain, rest: seq<byte>)
    requires Lawful(c) && d.cipher == Some(c) && !d.raw && d.window.None? && d.limit <= MAX_PLAINTEXT_CAP
    requires |p.payload| <= MAX_PLAINTEXT_CAP && d.buf == Encode(c, p) + rest
    ensures Next(d).1 == if |p.payload| <= d.limit then Got(FrameOf(p)) else Bad(BadLength(|p.payload| + TAG_LEN))
  {
    hide ParseHeader, BuildHeader, Encode;
    EncodedFrameFound(c, p, rest);
    if |p.payload| <= d.limit { NextOfEncoded(d, c, p, rest); }
  }

  /** Whatever one side may encode, the other side decodes; a 16 KiB chunk always may be encoded. */
  lemma PeersAccept(d: Decoder, c: Cipher, ps: seq<Plain>, client: u32, server: u32)
    requires Lawful(c) && d.cipher == Some(c) && !d.raw && d.window.None?
    requires Some(d.limit) == ClientLimit(AuthOk(Negotiate(client, server)), client) || d.limit == Negotiate(client, server)
    requires d.buf == EncodeAll(c, ps)
    requires forall i :: 0 <= i < |ps| ==> |ps[i].payload| <= MAX_PLAINTEXT || |ps[i].payload| <= Negotiate(client, server)
    ensures Drain(d) == Drained(FramesOf(ps), d.(buf := []), None)
  {
    Agreement(client, server);
    StreamRoundTrip(d, c, ps);
  }

  /** `--max-frame-kb`. */
  function MaxFrameBytes(kb: u64): Option<nat> {
    if 16 <= kb <= MAX_PLAINTEXT_CAP / 1024 then Some(kb * 1024) else None
  }

  /** Through the whole exchange, two configured limits end as the smaller of the two on both sides, never clamped. */
  lemma ConfiguredIsKept(a: u64, b: u64, ap: HandshakeCodec.AuthPayload, pad: seq<byte>)
    requires MaxFrameBytes(a).Some? && MaxFrameBytes(b).Some?
    requires HandshakeCodec.WellFormed(ap) && ap.maxPlaintext == MaxFrameBytes(a).value
    ensures
      var x, y := MaxFrameBytes(a).value, MaxFrameBytes(b).value;
      var least := if x <= y then x else y;
      && y < 0x1_0000_0000
      && ServerLimit(HandshakeCodec.EncodeAuth(ap) + pad, y) == Some(least)
      && ClientLimit(AuthOk(least), x) == Some(least)
  {
    ExchangeAgrees(ap, pad, MaxFrameBytes(b).value);
  }
}
