/**
  The frame codec (src/proto/frame.rs): header, encoder and the buffered incremental decoder.
  The AEAD is a parameter; only its round-trip and length laws are used.
*/
module FrameCodec {
  import opened Bytes
  import RW = ReplayWindow

  const PROTO_VERSION: byte := 2
  const HEADER_LEN := 20
  const TAG_LEN := 16
  const MAX_PLAINTEXT := 16 * 1024
  const MAX_PLAINTEXT_CAP := 1024 * 1024

  // ------------------------------------------------------------------------
  // AEAD
  // ------------------------------------------------------------------------

  /** A cipher under one key: seal(counter, aad, plaintext), open(counter, aad, ciphertext). */
  datatype Cipher = Cipher(
    seal: (u64, seq<byte>, seq<byte>) -> seq<byte>,
    open: (u64, seq<byte>, seq<byte>) -> Option<seq<byte>>)

  ghost predicate Lawful(c: Cipher) {
    forall n: u64, aad: seq<byte>, p: seq<byte> ::
      |c.seal(n, aad, p)| == |p| + TAG_LEN && c.open(n, aad, c.seal(n, aad, p)) == Some(p)
  }

  /** The law can be met. */
  lemma LawfulExists() returns (c: Cipher)
    ensures Lawful(c)
  {
    c := Cipher(
      (n: u64, aad: seq<byte>, p: seq<byte>) => p + seq(TAG_LEN, _ => 0),
      (n: u64, aad: seq<byte>, s: seq<byte>) => if |s| < TAG_LEN then None else Some(s[..|s| - TAG_LEN]));
  }

  // ------------------------------------------------------------------------
  // Header
  // ------------------------------------------------------------------------

  datatype FrameType =
    | Auth | AuthOk | Open | OpenOk | OpenErr | Data | Close | Ping | Pong
    | UdpAssociate | UdpOk | UdpData | Error

  function TypeByte(t: FrameType): byte {
    match t
    case Auth => 1 case AuthOk => 2 case Open => 3 case OpenOk => 4 case OpenErr => 5
    case Data => 6 case Close => 7 case Ping => 8 case Pong => 9
    case UdpAssociate => 10 case UdpOk => 11 case UdpData => 12 case Error => 13
  }

  function TypeOf(b: byte): Option<FrameType> {
    match b
    case 1 => Some(Auth) case 2 => Some(AuthOk) case 3 => Some(Open) case 4 => Some(OpenOk)
    case 5 => Some(OpenErr) case 6 => Some(Data) case 7 => Some(Close) case 8 => Some(Ping)
    case 9 => Some(Pong) case 10 => Some(UdpAssociate) case 11 => Some(UdpOk)
    case 12 => Some(UdpData) case 13 => Some(Error)
    case _ => None
  }

  datatype Frame = Frame(
    ftype: FrameType, flags: u16, sid: u32, counter: u64, aad: seq<byte>, payload: seq<byte>)

  datatype DecodeError = BadVersion(v: byte) | BadType(t: byte) | BadLength(n: nat) | OpenFailed | Replayed

  datatype Header =
    | Header(ftype: FrameType, flags: u16, sid: u32, ctLen: nat, counter: u64, aad: seq<byte>)
    | BadHeader(error: DecodeError)

  function BuildHeader(t: FrameType, flags: u16, sid: u32, ctLen: nat, counter: u64): (h: seq<byte>)
    ensures |h| == HEADER_LEN
  {
    [PROTO_VERSION, TypeByte(t)] + ToLe(flags, 2) + ToLe(sid, 4) + ToLe(ctLen % 0x1_0000_0000, 4) + ToLe(counter, 8)
  }

  function ParseHeader(h: seq<byte>): Header
    requires |h| == HEADER_LEN
  {
    Pow256Values();
    if h[0] != PROTO_VERSION then BadHeader(BadVersion(h[0]))
    else if TypeOf(h[1]).None? then BadHeader(BadType(h[1]))
    else Header(TypeOf(h[1]).value, FromLe(h[2..4]), FromLe(h[4..8]), FromLe(h[8..12]), FromLe(h[12..20]), h[..12])
  }

  lemma SliceOfPrefix(s: seq<byte>, i: nat, j: nat, k: nat)
    requires i <= j <= k <= |s|
    ensures s[..k][i..j] == s[i..j] && s[..j] == s[..k][..j]
  {
  }

  lemma HeaderFields(t: FrameType, flags: u16, sid: u32, ctLen: u32, counter: u64)
    ensures
      var h := BuildHeader(t, flags, sid, ctLen, counter);
      && h[..2] == [PROTO_VERSION, TypeByte(t)]
      && h[2..4] == ToLe(flags, 2) && h[4..8] == ToLe(sid, 4)
      && h[8..12] == ToLe(ctLen, 4) && h[12..20] == ToLe(counter, 8)
  {
    hide ToLe;
    var h := BuildHeader(t, flags, sid, ctLen, counter);
    var a := [PROTO_VERSION, TypeByte(t)];
    var b := a + ToLe(flags, 2);
    var c := b + ToLe(sid, 4);
    var e := c + ToLe(ctLen, 4);
    Split(e, ToLe(counter, 8));
    Split(c, ToLe(ctLen, 4));
    Split(b, ToLe(sid, 4));
    Split(a, ToLe(flags, 2));
    SliceOfPrefix(h, 8, 12, 12);
    SliceOfPrefix(h, 4, 8, 12);
    SliceOfPrefix(e, 4, 8, 8);
    SliceOfPrefix(h, 2, 4, 12);
    SliceOfPrefix(e, 2, 4, 8);
    SliceOfPrefix(c, 2, 4, 4);
    SliceOfPrefix(h, 0, 2, 12);
    SliceOfPrefix(e, 0, 2, 8);
    SliceOfPrefix(c, 0, 2, 4);
  }

  lemma HeaderRoundTrip(t: FrameType, flags: u16, sid: u32, ctLen: u32, counter: u64)
    ensures
      var h := BuildHeader(t, flags, sid, ctLen, counter);
      ParseHeader(h) == Header(t, flags, sid, ctLen, counter, h[..12])
  {
    hide BuildHeader, ToLe, FromLe;
    var h := BuildHeader(t, flags, sid, ctLen, counter);
    HeaderFields(t, flags, sid, ctLen, counter);
    assert h[0] == h[..2][0] && h[1] == h[..2][1];
    Pow256Values();
    LeRoundTrip(flags, 2);
    LeRoundTrip(sid, 4);
    LeRoundTrip(ctLen, 4);
    LeRoundTrip(counter, 8);
  }

  // ------------------------------------------------------------------------
  // Decoder
  // ------------------------------------------------------------------------

  datatype Decoder = Decoder(
    cipher: Option<Cipher>, window: Option<RW.Window>, limit: nat, raw: bool, buf: seq<byte>)

  datatype Outcome = NeedMore | Got(frame: Frame) | Bad(error: DecodeError)

  /** The payload of a complete frame, with the replay window afterwards: authenticate, then advance. */
  function Unseal(cipher: Option<Cipher>, window: Option<RW.Window>, raw: bool, h: Header, ct: seq<byte>):
      (Option<RW.Window>, Outcome)
    requires h.Header?
  {
    var frame := (p: seq<byte>) => Got(Frame(h.ftype, h.flags, h.sid, h.counter, h.aad, p));
    if raw || cipher.None? then (window, frame(ct))
    else
      var plain := cipher.value.open(h.counter, h.aad, ct);
      if plain.None? then (window, Bad(OpenFailed))
      else if window.None? then (window, frame(plain.value))
      else
        var (w, ok) := RW.Check(window.value, h.counter);
        (Some(w), if ok then frame(plain.value) else Bad(Replayed))
  }

  /** `next_frame`: the decoder afterwards and what it returned. */
  function Next(d: Decoder): (Decoder, Outcome) {
    if |d.buf| < HEADER_LEN then (d, NeedMore)
    else
      var h := ParseHeader(d.buf[..HEADER_LEN]);
      if h.BadHeader? then (d, Bad(h.error))
      else if !(TAG_LEN <= h.ctLen <= d.limit + TAG_LEN) then (d, Bad(BadLength(h.ctLen)))
      else if |d.buf| < HEADER_LEN + h.ctLen then (d, NeedMore)
      else
        var end := HEADER_LEN + h.ctLen;
        var (w, o) := Unseal(d.cipher, d.window, d.raw, h, d.buf[HEADER_LEN..end]);
        (d.(buf := d.buf[end..], window := w), o)
  }

  function Feed(d: Decoder, x: seq<byte>): Decoder {
    d.(buf := d.buf + x)
  }

  /** `set_cipher` keeps the buffered bytes. */
  function SetCipher(d: Decoder, c: Cipher): Decoder {
    d.(cipher := Some(c), raw := false)
  }

  /** Frames decoded until more bytes are needed or an error stops the reader. */
  datatype Drained = Drained(frames: seq<Frame>, dec: Decoder, error: Option<DecodeError>)

  function Drain(d: Decoder): Drained
    decreases |d.buf|
  {
    var (d', o) := Next(d);
    match o
    case NeedMore => Drained([], d, None)
    case Bad(e) => Drained([], d', Some(e))
    case Got(f) =>
      var r := Drain(d');
      Drained([f] + r.frames, r.dec, r.error)
  }

  lemma DrainStep(d: Decoder)
    ensures
      var (d', o) := Next(d);
      Drain(d) == match o
        case NeedMore => Drained([], d, None)
        case Bad(e) => Drained([], d', Some(e))
        case Got(f) => Drained([f] + Drain(d').frames, Drain(d').dec, Drain(d').error)
  {
  }

  /** Feeding chunk by chunk, draining after each one, stopping at the first error. */
  function DrainChunks(d: Decoder, chunks: seq<seq<byte>>): Drained
    decreases |chunks|
  {
    if chunks == [] then Drained([], d, None)
    else
      var r := Drain(Feed(d, chunks[0]));
      if r.error.Some? then r
      else
        var r' := DrainChunks(r.dec, chunks[1..]);
        Drained(r.frames + r'.frames, r'.dec, r'.error)
  }

  function Concat(chunks: seq<seq<byte>>): seq<byte> {
    if chunks == [] then [] else chunks[0] + Concat(chunks[1..])
  }

  /** A decision taken on the buffered bytes is not changed by bytes that follow them. */
  lemma NextExtends(d: Decoder, x: seq<byte>)
    requires !Next(d).1.NeedMore?
    ensures Next(Feed(d, x)).1 == Next(d).1
    ensures Next(d).1.Got? ==> Next(Feed(d, x)).0 == Feed(Next(d).0, x)
  {
    hide Unseal, ParseHeader;
    var e := Feed(d, x);
    assert e.buf[..HEADER_LEN] == d.buf[..HEADER_LEN];
    var h := ParseHeader(d.buf[..HEADER_LEN]);
    if h.Header? && TAG_LEN <= h.ctLen <= d.limit + TAG_LEN {
      var end := HEADER_LEN + h.ctLen;
      assert e.buf[HEADER_LEN..end] == d.buf[HEADER_LEN..end];
      assert e.buf[end..] == d.buf[end..] + x;
    }
  }

  lemma NextShrinks(d: Decoder)
    ensures Next(d).1.Got? ==> |Next(d).0.buf| < |d.buf| && Next(d).0.limit == d.limit
    ensures Next(d).1.NeedMore? ==> Next(d).0 == d && |d.buf| < HEADER_LEN + d.limit + TAG_LEN
  {
  }

  lemma {:induction false} DrainExtends(d: Decoder, x: seq<byte>)
    ensures
      var r, s := Drain(d), Drain(Feed(d, x));
      if r.error.Some? then s.frames == r.frames && s.error == r.error
      else
        var t := Drain(Feed(r.dec, x));
        s == Drained(r.frames + t.frames, t.dec, t.error)
    decreases |d.buf|
  {
    hide Next;
    NextShrinks(d);
    var (d', o) := Next(d);
    if !o.NeedMore? { NextExtends(d, x); }
    if o.Got? {
      DrainExtends(d', x);
      var r' := Drain(d');
      if r'.error.None? {
        var t := Drain(Feed(r'.dec, x));
        assert [o.frame] + (r'.frames + t.frames) == ([o.frame] + r'.frames) + t.frames;
      }
    }
  }

  /**
    Chunking invariance: however a byte stream is split into reads, empty ones included, the decoder
    yields the frames, the first error and the final state of decoding it whole.
  */
  lemma {:induction false} ChunkingInvariance(d: Decoder, chunks: seq<seq<byte>>)
    requires Next(d).1.NeedMore?
    ensures
      var r, s := DrainChunks(d, chunks), Drain(Feed(d, Concat(chunks)));
      && r.frames == s.frames && r.error == s.error
      && (s.error.None? ==> r.dec == s.dec)
    decreases |chunks|
  {
    if chunks == [] {
      assert d.buf + [] == d.buf;
    } else {
      var rest := Concat(chunks[1..]);
      var r := Drain(Feed(d, chunks[0]));
      assert Feed(d, Concat(chunks)) == Feed(Feed(d, chunks[0]), rest) by {
        assert d.buf + (chunks[0] + rest) == (d.buf + chunks[0]) + rest;
      }
      DrainExtends(Feed(d, chunks[0]), rest);
      if r.error.None? {
        DrainStops(Feed(d, chunks[0]));
        ChunkingInvariance(r.dec, chunks[1..]);
      }
    }
  }

  /** A drain without error ends where more bytes are needed, with less than one frame buffered. */
  lemma {:induction false} DrainStops(d: Decoder)
    requires Drain(d).error.None?
    ensures Next(Drain(d).dec).1.NeedMore?
    ensures |Drain(d).dec.buf| < HEADER_LEN + d.limit + TAG_LEN
    ensures Drain(d).dec.limit == d.limit
    decreases |d.buf|
  {
    hide Next;
    NextShrinks(d);
    var (d', o) := Next(d);
    if o.Got? { DrainStops(d'); }
  }

  // ------------------------------------------------------------------------
  // Encoder and round trip
  // ------------------------------------------------------------------------

  /** What a sender hands to the encoder, with the counter the generator gave it. */
  datatype Plain = Plain(ftype: FrameType, flags: u16, sid: u32, counter: u64, payload: seq<byte>)

  function HeaderOf(p: Plain): seq<byte> {
    BuildHeader(p.ftype, p.flags, p.sid, |p.payload| + TAG_LEN, p.counter)
  }

  /** The wire bytes of one frame; the first twelve header bytes are the additional data. */
  function Encode(c: Cipher, p: Plain): seq<byte> {
    HeaderOf(p) + c.seal(p.counter, HeaderOf(p)[..12], p.payload)
  }

  function EncodeAll(c: Cipher, ps: seq<Plain>): seq<byte> {
    if ps == [] then [] else Encode(c, ps[0]) + EncodeAll(c, ps[1..])
  }

  /** The frame a receiver with the same key reports for p. */
  function FrameOf(p: Plain): Frame {
    Frame(p.ftype, p.flags, p.sid, p.counter, HeaderOf(p)[..12], p.payload)
  }

  function FramesOf(ps: seq<Plain>): seq<Frame> {
    seq(|ps|, i requires 0 <= i < |ps| => FrameOf(ps[i]))
  }

  predicate Fits(p: Plain, limit: nat) {
    |p.payload| <= limit <= MAX_PLAINTEXT_CAP
  }

  /** The decoder finds a complete encoded frame at the front of its buffer, whatever follows. */
  lemma EncodedFrameFound(c: Cipher, p: Plain, rest: seq<byte>)
    requires Lawful(c) && |p.payload| <= MAX_PLAINTEXT_CAP
    ensures
      var b, ct := Encode(c, p) + rest, |p.payload| + TAG_LEN;
      && |b| >= HEADER_LEN + ct
      && ParseHeader(b[..HEADER_LEN]) == Header(p.ftype, p.flags, p.sid, ct, p.counter, HeaderOf(p)[..12])
      && b[HEADER_LEN..HEADER_LEN + ct] == c.seal(p.counter, HeaderOf(p)[..12], p.payload)
      && b[HEADER_LEN + ct..] == rest
  {
    hide ParseHeader, BuildHeader;
    var h, s := HeaderOf(p), c.seal(p.counter, HeaderOf(p)[..12], p.payload);
    HeaderRoundTrip(p.ftype, p.flags, p.sid, |p.payload| + TAG_LEN, p.counter);
    assert (h + s + rest)[..HEADER_LEN] == h;
    assert (h + s + rest)[HEADER_LEN..HEADER_LEN + |s|] == s;
    assert (h + s + rest)[HEADER_LEN + |s|..] == rest;
  }

  lemma NextOfEncoded(d: Decoder, c: Cipher, p: Plain, rest: seq<byte>)
    requires Lawful(c) && Fits(p, d.limit) && d.buf == Encode(c, p) + rest
    ensures d.cipher == Some(c) && !d.raw && d.window.None? ==> Next(d) == (d.(buf := rest), Got(FrameOf(p)))
    ensures d.raw ==>
      Next(d) == (d.(buf := rest),
                  Got(FrameOf(p).(payload := c.seal(p.counter, HeaderOf(p)[..12], p.payload))))
  {
    hide ParseHeader, BuildHeader, Encode;
    EncodedFrameFound(c, p, rest);
  }

  /** Round trip: a stream of encoded frames decodes to exactly those frames, leaving nothing behind. */
  lemma {:induction false} StreamRoundTrip(d: Decoder, c: Cipher, ps: seq<Plain>)
    requires Lawful(c) && d.cipher == Some(c) && !d.raw && d.window.None?
    requires forall i :: 0 <= i < |ps| ==> Fits(ps[i], d.limit)
    requires d.buf == EncodeAll(c, ps)
    ensures Drain(d) == Drained(FramesOf(ps), d.(buf := []), None)
    decreases |ps|
  {
    hide Encode, FrameOf;
    if ps == [] {
      assert FramesOf(ps) == [];
    } else {
      var rest := EncodeAll(c, ps[1..]);
      NextOfEncoded(d, c, ps[0], rest);
      StreamRoundTrip(d.(buf := rest), c, ps[1..]);
      assert [FrameOf(ps[0])] + FramesOf(ps[1..]) == FramesOf(ps);
    }
  }

  /**
    Any split of the encoded stream into reads yields exactly the frames that were encoded.
  */
  lemma ChunkedRoundTrip(d: Decoder, c: Cipher, ps: seq<Plain>, chunks: seq<seq<byte>>)
    requires Lawful(c) && d.cipher == Some(c) && !d.raw && d.window.None? && d.buf == []
    requires forall i :: 0 <= i < |ps| ==> Fits(ps[i], d.limit)
    requires Concat(chunks) == EncodeAll(c, ps)
    ensures DrainChunks(d, chunks) == Drained(FramesOf(ps), d, None)
  {
    ChunkingInvariance(d, chunks);
    assert Feed(d, Concat(chunks)).buf == EncodeAll(c, ps);
    StreamRoundTrip(Feed(d, Concat(chunks)), c, ps);
  }

  /**
    The raw-to-cipher handover: the server reads the Auth frame undecrypted, opens it with the static
    key, installs the session cipher and the negotiated limit, and decodes the rest. Whatever part of
    the rest was already buffered with the Auth frame is decoded; no pipelined byte is lost.
  */
  lemma HandoverRoundTrip(d: Decoder, auth: Plain, st: Cipher, c: Cipher, limit: nat, ps: seq<Plain>,
                          early: seq<byte>, late: seq<byte>)
    requires Lawful(st) && Lawful(c) && d.raw && d.window.None? && Fits(auth, d.limit)
    requires forall i :: 0 <= i < |ps| ==> Fits(ps[i], limit)
    requires early + late == EncodeAll(c, ps)
    requires d.buf == Encode(st, auth) + early
    ensures
      var (d1, o) := Next(d);
      && o.Got? && st.open(o.frame.counter, o.frame.aad, o.frame.payload) == Some(auth.payload)
      && o.frame.ftype == auth.ftype
      && var d2 := SetCipher(d1, c).(limit := limit);
         Drain(Feed(d2, late)) == Drained(FramesOf(ps), d2.(buf := []), None)
  {
    hide Encode, BuildHeader;
    NextOfEncoded(d, st, auth, early);
    var d2 := SetCipher(Next(d).0, c).(limit := limit);
    StreamRoundTrip(Feed(d2, late), c, ps);
  }
}
