/**
  The objects around the codec: the byte-stream adapter (src/proto/stream.rs), the buffered decoder,
  the pull reader and the encoder (src/proto/frame.rs), updated in place.
*/
module FrameReader {
  import opened Bytes
  import opened FrameCodec
  import opened Nonce
  import RW = ReplayWindow

  // ------------------------------------------------------------------------
  // StreamAsRead
  // ------------------------------------------------------------------------

  /** What polling the underlying message stream yields; the end of the items is the end of the stream. */
  datatype Item = NotReady | Chunk(data: seq<byte>) | Failed

  datatype Poll = Pending | Ready(data: seq<byte>) | IoError

  /** The bytes an undisturbed reader still gets, up to the first stream error. */
  function BytesOf(items: seq<Item>): seq<byte> {
    if items == [] then []
    else match items[0]
      case NotReady => BytesOf(items[1..])
      case Chunk(b) => b + BytesOf(items[1..])
      case Failed => []
  }

  class StreamAsRead {
    var items: seq<Item>
    var buf: seq<byte>
    var done: bool

    constructor (items: seq<Item>)
      ensures this.items == items && Content() == BytesOf(items) && Valid()
    {
      this.items, buf, done := items, [], false;
    }

    ghost predicate Valid()
      reads this
    {
      done ==> items == []
    }

    function Content(): seq<byte>
      reads this
    {
      buf + BytesOf(items)
    }

    /** `poll_read` with room for n bytes; an empty item is not the end of the stream. */
    method PollRead(n: nat) returns (r: Poll)
      requires Valid() && n > 0
      modifies this
      ensures Valid() && |items| <= |old(items)| && (Failed in items ==> Failed in old(items))
      ensures r.Ready? ==> r.data + Content() == old(Content()) && |r.data| <= n
      ensures r.Ready? && r.data == [] ==> items == [] && buf == []
      ensures r.Pending? ==> Content() == old(Content()) && |items| < |old(items)|
      ensures r.IoError? ==> Failed in old(items) && |items| < |old(items)|
    {
      while true
        invariant Valid() && |items| <= |old(items)|
        invariant Content() == old(Content())
        invariant Failed in items ==> Failed in old(items)
        decreases |items|, if done then 0 else 1
      {
        if buf != [] {
          var k := if |buf| < n then |buf| else n;
          var b := buf[..k];
          buf := buf[k..];
          assert b + (buf + BytesOf(items)) == (b + buf) + BytesOf(items);
          return Ready(b);
        }
        if done {
          return Ready([]);
        }
        if items == [] {
          done := true;
        } else {
          var item := items[0];
          items := items[1..];
          match item {
            case NotReady => return Pending;
            case Failed => return IoError;
            case Chunk(b) =>
              assert (buf + b) + BytesOf(items) == buf + (b + BytesOf(items));
              buf := buf + b;
          }
        }
      }
    }
  }

  // ------------------------------------------------------------------------
  // FrameDecoder
  // ------------------------------------------------------------------------

  class FrameDecoder {
    var cipher: Option<Cipher>
    var window: Option<RW.Window>
    var limit: nat
    var raw: bool
    var buf: seq<byte>

    constructor (cipher: Option<Cipher>, window: Option<RW.Window>, limit: nat)
      ensures Value() == Decoder(cipher, window, limit, false, [])
    {
      this.cipher, this.window, this.limit, raw, buf := cipher, window, limit, false, [];
    }

    function Value(): Decoder
      reads this
    {
      Decoder(cipher, window, limit, raw, buf)
    }

    method InstallCipher(c: Cipher)
      modifies this
      ensures Value() == SetCipher(old(Value()), c)
    {
      cipher := Some(c);
      raw := false;
    }

    method FeedBytes(data: seq<byte>)
      modifies this
      ensures Value() == Feed(old(Value()), data)
    {
      buf := buf + data;
    }

    method Clear()
      modifies this
      ensures Value() == old(Value()).(buf := [])
    {
      buf := [];
    }

    method NextFrame() returns (o: Outcome)
      modifies this
      ensures (Value(), o) == Next(old(Value()))
    {
      if |buf| < HEADER_LEN {
        return NeedMore;
      }
      var h := ParseHeader(buf[..HEADER_LEN]);
      if h.BadHeader? {
        return Bad(h.error);
      }
      if h.ctLen < TAG_LEN || h.ctLen > limit + TAG_LEN {
        return Bad(BadLength(h.ctLen));
      }
      if |buf| < HEADER_LEN + h.ctLen {
        return NeedMore;
      }
      var ct := buf[HEADER_LEN..HEADER_LEN + h.ctLen];
      buf := buf[HEADER_LEN + h.ctLen..];
      var payload := ct;
      if !raw && cipher.Some? {
        // Authenticate before advancing the replay window.
        var plain := cipher.value.open(h.counter, h.aad, ct);
        if plain.None? {
          return Bad(OpenFailed);
        }
        payload := plain.value;
        if window.Some? {
          var (w, ok) := RW.Check(window.value, h.counter);
          window := Some(w);
          if !ok {
            return Bad(Replayed);
          }
        }
      }
      return Got(Frame(h.ftype, h.flags, h.sid, h.counter, h.aad, payload));
    }
  }

  // ------------------------------------------------------------------------
  // FrameReader
  // ------------------------------------------------------------------------

  lemma EmptyNeedsMore(d: Decoder)
    requires d.buf == []
    ensures Next(d) == (d, NeedMore)
  {
  }

  datatype Read = NotYet | Received(frame: Frame) | Eof | Corrupt(error: DecodeError) | Truncated | StreamError

  class Reader {
    const dec: FrameDecoder
    const src: StreamAsRead

    constructor (dec: FrameDecoder, src: StreamAsRead)
      ensures this.dec == dec && this.src == src
    {
      this.dec, this.src := dec, src;
    }

    /** The decoder with everything it will ever be fed already in its buffer. */
    ghost function Whole(): Decoder
      reads this, dec, src
    {
      Feed(dec.Value(), src.Content())
    }

    /**
      One poll of `read`. The result is the one the whole stream determines, whatever its chunking;
      a poll that is not ready, and so may be abandoned, loses no byte.
    */
    method ReadFrame() returns (r: Read)
      requires src.Valid()
      modifies dec, src
      ensures src.Valid() && |src.items| <= |old(src.items)| && (Failed in src.items ==> Failed in old(src.items))
      ensures r.Received? ==> Next(old(Whole())) == (Whole(), Got(r.frame))
      ensures r.NotYet? ==> Whole() == old(Whole()) && |src.items| < |old(src.items)|
      ensures r.Corrupt? ==> Next(old(Whole())).1 == Bad(r.error)
      ensures r.Eof? ==> Whole() == old(Whole()) && Whole().buf == [] && src.items == []
      ensures r.Truncated? ==>
        Whole() == old(Whole()) && Next(Whole()).1.NeedMore? && Whole().buf != [] && src.items == []
      ensures r.StreamError? ==> Failed in old(src.items)
    {
      while true
        invariant src.Valid() && |src.items| <= |old(src.items)|
        invariant Whole() == old(Whole())
        invariant Failed in src.items ==> Failed in old(src.items)
        decreases |src.Content()|, |src.items|
      {
        ghost var before := dec.Value();
        var o := dec.NextFrame();
        match o {
          case Got(f) =>
            NextExtends(before, src.Content());
            return Received(f);
          case Bad(e) =>
            NextExtends(before, src.Content());
            return Corrupt(e);
          case NeedMore =>
            NextShrinks(before);
            ghost var content := src.Content();
            ghost var items := src.items;
            var p := src.PollRead(16 * 1024);
            match p {
              case Pending => return NotYet;
              case IoError => return StreamError;
              case Ready(b) =>
                if b == [] {
                  assert src.Content() == [];
                  assert dec.buf + [] == dec.buf;
                  return if dec.buf == [] then Eof else Truncated;
                }
                assert (dec.buf + b) + src.Content() == dec.buf + content;
                dec.FeedBytes(b);
            }
        }
      }
    }

    /**
      The reader loop (`run_client_reader`): polls again after every suspension and stops at the end,
      at a corrupt frame or at a stream error. Its frames are those of the whole stream.
    */
    method ReadToEnd() returns (frames: seq<Frame>, end: Read)
      requires src.Valid()
      modifies dec, src
      ensures !end.NotYet? && !end.Received?
      ensures end.Eof? ==> Drain(old(Whole())) == Drained(frames, Whole(), None) && Whole().buf == []
      ensures end.Truncated? ==> Drain(old(Whole())) == Drained(frames, Whole(), None) && Whole().buf != []
      ensures end.Corrupt? ==> Drain(old(Whole())).frames == frames && Drain(old(Whole())).error == Some(end.error)
      ensures end.StreamError? ==> frames <= Drain(old(Whole())).frames && Failed in old(src.items)
    {
      hide Next, Drain;
      frames := [];
      assert [] + Drain(Whole()).frames == Drain(Whole()).frames;
      while true
        invariant src.Valid() && (Failed in src.items ==> Failed in old(src.items))
        invariant Drain(old(Whole())) == Drained(frames + Drain(Whole()).frames, Drain(Whole()).dec, Drain(Whole()).error)
        decreases |src.items|, |Whole().buf|
      {
        ghost var before := Whole();
        end := ReadFrame();
        DrainStep(before);
        match end {
          case Received(f) =>
            NextShrinks(before);
            assert frames + ([f] + Drain(Whole()).frames) == (frames + [f]) + Drain(Whole()).frames;
            frames := frames + [f];
          case NotYet =>
          case _ =>
            if end.Eof? { EmptyNeedsMore(before); }
            assert frames + [] == frames;
            return;
        }
      }
    }
  }

  /**
    A whole mode-A channel on the server: read the raw Auth frame, open it with the static key, install the session
    cipher and the negotiated limit it leads to, read to the end. However the stream is cut into items and suspended,
    the Auth payload and exactly the frames sent under the session key come out, and nothing else.
  */
  method ServeChannel(rd: Reader, st: Cipher, derive: seq<byte> -> Option<(Cipher, nat)>,
                      ghost auth: Plain, ghost ps: seq<Plain>)
      returns (payload: Option<seq<byte>>, frames: seq<Frame>, end: Read)
    requires rd.src.Valid() && Failed !in rd.src.items && rd.dec.raw && rd.dec.window.None?
    requires Lawful(st) && Fits(auth, rd.dec.limit) && derive(auth.payload).Some?
    requires
      var (c, limit) := derive(auth.payload).value;
      && Lawful(c) && (forall i :: 0 <= i < |ps| ==> Fits(ps[i], limit))
      && rd.Whole().buf == Encode(st, auth) + EncodeAll(c, ps)
    modifies rd.dec, rd.src
    ensures payload == Some(auth.payload) && frames == FramesOf(ps) && end == Eof
  {
    hide Next, Drain, Encode, EncodeAll, FrameOf, HeaderOf, Lawful;
    var first := rd.ReadFrame();
    if first.Eof? { EmptyNeedsMore(rd.Whole()); }
    while first.NotYet?
      invariant rd.src.Valid() && Failed !in rd.src.items
      invariant first.NotYet? ==> rd.Whole() == old(rd.Whole())
      invariant first.Received? ==> Next(old(rd.Whole())) == (rd.Whole(), Got(first.frame))
      invariant first.Corrupt? ==> Next(old(rd.Whole())).1 == Bad(first.error)
      invariant first.Eof? || first.Truncated? ==> rd.Whole() == old(rd.Whole()) && Next(rd.Whole()).1.NeedMore?
      invariant !first.StreamError?
      decreases if first.NotYet? then |rd.src.items| + 1 else 0
    {
      first := rd.ReadFrame();
      if first.Eof? { EmptyNeedsMore(rd.Whole()); }
    }
    RawAuthFirst(old(rd.Whole()), st, auth, ps, derive(auth.payload).value.0);
    var f := first.frame;
    var pt := st.open(f.counter, f.aad, f.payload);
    var (c, limit) := derive(pt.value).value;
    rd.dec.InstallCipher(c);
    rd.dec.limit := limit;
    ghost var whole := rd.Whole();
    StreamRoundTrip(whole, c, ps);
    frames, end := rd.ReadToEnd();
    payload := pt;
  }

  lemma RawAuthFirst(d: Decoder, st: Cipher, auth: Plain, ps: seq<Plain>, c: Cipher)
    requires Lawful(st) && Fits(auth, d.limit) && d.raw && d.buf == Encode(st, auth) + EncodeAll(c, ps)
    ensures
      var (d', o) := Next(d);
      && d' == d.(buf := EncodeAll(c, ps)) && o.Got?
      && st.open(o.frame.counter, o.frame.aad, o.frame.payload) == Some(auth.payload)
  {
    hide Next, Encode, EncodeAll, BuildHeader;
    NextOfEncoded(d, st, auth, EncodeAll(c, ps));
  }

  // ------------------------------------------------------------------------
  // FrameEncoder
  // ------------------------------------------------------------------------

  class FrameEncoder {
    const cipher: Cipher
    const counters: CounterGen
    var limit: nat

    constructor (cipher: Cipher, counters: CounterGen, limit: nat)
      ensures this.cipher == cipher && this.counters == counters && this.limit == limit
    {
      this.cipher, this.counters, this.limit := cipher, counters, limit;
    }

    /** `encode_into`: an oversized payload is refused before it draws a counter. */
    method EncodeInto(t: FrameType, flags: u16, sid: u32, payload: seq<byte>, wire: seq<byte>)
        returns (ok: bool, wire': seq<byte>)
      requires counters.base + counters.next < WORD && counters.next + 1 < WORD
      modifies counters
      ensures ok <==> |payload| <= limit
      ensures !ok ==> wire' == wire && counters.next == old(counters.next)
      ensures ok ==> counters.next == old(counters.next) + 1
      ensures ok ==> wire' == wire + Encode(cipher, Plain(t, flags, sid, counters.base + old(counters.next), payload))
    {
      if |payload| > limit {
        return false, wire;
      }
      var counter := counters.Take();
      var header := BuildHeader(t, flags, sid, |payload| + TAG_LEN, counter);
      wire' := wire + header;
      wire' := wire' + cipher.seal(counter, header[..12], payload);
      ok := true;
      assert wire' == wire + (header + cipher.seal(counter, header[..12], payload));
    }
  }
}
