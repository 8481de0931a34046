/** The datagram receive loop (src/server/wt.rs, src/client/wt.rs): feed, drain, clear on error. */
module Datagram {
  import opened Bytes
  import opened FrameCodec
  import opened FrameReader
  import RW = ReplayWindow

  /** The decoder after one datagram, and the frames it delivered. */
  function Receive(d: Decoder, dg: seq<byte>): (Decoder, seq<Frame>) {
    var r := Drain(Feed(d, dg));
    (if r.error.Some? then r.dec.(buf := []) else r.dec, r.frames)
  }

  function ReceiveAll(d: Decoder, dgs: seq<seq<byte>>): (Decoder, seq<Frame>) {
    if dgs == [] then (d, [])
    else
      var (d', fs) := ReceiveAll(d, dgs[..|dgs| - 1]);
      var (d'', gs) := Receive(d', dgs[|dgs| - 1]);
      (d'', fs + gs)
  }

  /** The loop body of `spawn_dgram_reader`. */
  method ReceiveDatagram(dec: FrameDecoder, dg: seq<byte>) returns (frames: seq<Frame>)
    modifies dec
    ensures (dec.Value(), frames) == Receive(old(dec.Value()), dg)
  {
    hide Next, Drain;
    dec.FeedBytes(dg);
    ghost var start := dec.Value();
    frames := [];
    assert [] + Drain(start).frames == Drain(start).frames;
    while true
      invariant Drain(start) ==
        Drained(frames + Drain(dec.Value()).frames, Drain(dec.Value()).dec, Drain(dec.Value()).error)
      decreases |dec.buf|
    {
      ghost var before := dec.Value();
      var o := dec.NextFrame();
      DrainStep(before);
      NextShrinks(before);
      match o {
        case Got(f) =>
          assert frames + ([f] + Drain(dec.Value()).frames) == (frames + [f]) + Drain(dec.Value()).frames;
          frames := frames + [f];
        case NeedMore =>
          assert frames + [] == frames;
          break;
        case Bad(_) =>
          assert frames + [] == frames;
          dec.Clear();
          break;
      }
    }
  }

  // ------------------------------------------------------------------------
  // What the bytes of a datagram are, before any key is used
  // ------------------------------------------------------------------------

  /** A decoder of datagrams: it has its key and its window. */
  predicate Ready(d: Decoder) {
    !d.raw && d.cipher.Some? && d.window.Some?
  }

  predicate Listening(d: Decoder) { Ready(d) && d.buf == [] }

  /** How long the whole frame at the front is; none when it is incomplete or its header is refused. */
  function Whole(b: seq<byte>, limit: nat): (n: Option<nat>)
    ensures n.Some? ==> HEADER_LEN <= n.value <= |b|
  {
    if |b| < HEADER_LEN then None
    else
      var h := ParseHeader(b[..HEADER_LEN]);
      if h.BadHeader? || !(TAG_LEN <= h.ctLen <= limit + TAG_LEN) || |b| < HEADER_LEN + h.ctLen then None
      else Some(HEADER_LEN + h.ctLen)
  }

  /** Incomplete: shorter than a header, or than its header announces. */
  predicate Short(b: seq<byte>, limit: nat) {
    || |b| < HEADER_LEN
    || var h := ParseHeader(b[..HEADER_LEN]);
       h.Header? && TAG_LEN <= h.ctLen <= limit + TAG_LEN && |b| < HEADER_LEN + h.ctLen
  }

  /** The whole frames at the front, and what follows the last of them. */
  function Frames(b: seq<byte>, limit: nat): seq<seq<byte>>
    decreases |b|
  {
    var n := Whole(b, limit);
    if n.None? then [] else [b[..n.value]] + Frames(b[n.value..], limit)
  }

  function Rest(b: seq<byte>, limit: nat): seq<byte>
    decreases |b|
  {
    var n := Whole(b, limit);
    if n.None? then b else Rest(b[n.value..], limit)
  }

  /** Cutting loses nothing. */
  lemma {:induction false} CutRejoins(b: seq<byte>, limit: nat)
    ensures Concat(Frames(b, limit)) + Rest(b, limit) == b
    decreases |b|
  {
    hide Whole;
    var n := Whole(b, limit);
    if n.Some? {
      var a, t := b[..n.value], b[n.value..];
      assert Frames(b, limit) == [a] + Frames(t, limit) && Rest(b, limit) == Rest(t, limit);
      CutRejoins(t, limit);
      hide Frames, Rest, Concat;
      ConcatCons(a, Frames(t, limit), Rest(t, limit));
      HeadTail(b, n.value);
    } else {
      assert [] + b == b;
    }
  }

  lemma HeadTail(b: seq<byte>, n: nat)
    requires n <= |b|
    ensures b[..n] + b[n..] == b
  {
  }

  lemma ConcatCons(a: seq<byte>, fs: seq<seq<byte>>, rest: seq<byte>)
    ensures Concat([a] + fs) + rest == a + (Concat(fs) + rest)
  {
    assert ([a] + fs)[1..] == fs;
  }

  /** The frame a whole frame opens to under c. */
  function Opened(c: Cipher, w: seq<byte>): Option<Frame> {
    if |w| < HEADER_LEN then None
    else
      var h := ParseHeader(w[..HEADER_LEN]);
      if h.BadHeader? then None
      else
        var p := c.open(h.counter, h.aad, w[HEADER_LEN..]);
        if p.None? then None else Some(Frame(h.ftype, h.flags, h.sid, h.counter, h.aad, p.value))
  }

  /** All of the frames open, in order, and pass the window. */
  predicate AllPass(c: Cipher, w: RW.Window, fs: seq<seq<byte>>)
    decreases |fs|
  {
    fs == [] ||
    var f := Opened(c, fs[0]);
    f.Some? && RW.Check(w, f.value.counter).1 && AllPass(c, RW.Check(w, f.value.counter).0, fs[1..])
  }

  /** One step of the decoder, by the whole frame at the front. */
  lemma NextByFrame(d: Decoder)
    requires Ready(d)
    ensures
      var n, (d', o) := Whole(d.buf, d.limit), Next(d);
      if n.None? then
        d' == d && (o.NeedMore? <==> Short(d.buf, d.limit)) && !o.Got?
      else
        var f := Opened(d.cipher.value, d.buf[..n.value]);
        d'.buf == d.buf[n.value..] && d' == d.(buf := d'.buf, window := d'.window) &&
        if f.None? then o == Bad(OpenFailed) && d'.window == d.window
        else
          var (w, ok) := RW.Check(d.window.value, f.value.counter);
          d'.window == Some(w) && o == if ok then Got(f.value) else Bad(Replayed)
  {
    hide RW.Check, ParseHeader;
    var n := Whole(d.buf, d.limit);
    if n.Some? {
      assert d.buf[..n.value][..HEADER_LEN] == d.buf[..HEADER_LEN];
      assert d.buf[..n.value][HEADER_LEN..] == d.buf[HEADER_LEN..n.value];
    }
  }

  // ------------------------------------------------------------------------
  // What stays in the buffer
  // ------------------------------------------------------------------------

  lemma {:induction false} DrainByFrames(d: Decoder)
    requires Ready(d)
    ensures
      var r := Drain(d);
      var fs, rest := Frames(d.buf, d.limit), Rest(d.buf, d.limit);
      && Ready(r.dec) && r.dec.cipher == d.cipher && r.dec.limit == d.limit
      && (r.error.None? <==> AllPass(d.cipher.value, d.window.value, fs) && Short(rest, d.limit))
      && (r.error.None? ==> r.dec.buf == rest)
    decreases |d.buf|
  {
    hide Next, RW.Check, Whole, Short, Opened;
    NextByFrame(d);
    DrainStep(d);
    var (d', o) := Next(d);
    if o.Got? {
      var n := Whole(d.buf, d.limit).value;
      DrainByFrames(d');
      assert Frames(d.buf, d.limit)[1..] == Frames(d'.buf, d.limit);
      assert Frames(d.buf, d.limit)[0] == d.buf[..n];
    }
  }

  /**
    What a datagram leaves in the decoder, for every datagram and whatever was buffered before: the bytes behind the
    last whole frame when every whole frame opens and passes the window and those bytes are incomplete, and otherwise
    nothing.
  */
  lemma ResidueExact(d: Decoder, dg: seq<byte>)
    requires Ready(d)
    ensures
      var b := d.buf + dg;
      var fs, rest := Frames(b, d.limit), Rest(b, d.limit);
      && Receive(d, dg).0.buf ==
           (if AllPass(d.cipher.value, d.window.value, fs) && Short(rest, d.limit) then rest else [])
      && (Receive(d, dg).0.buf != [] <==>
           AllPass(d.cipher.value, d.window.value, fs) && rest != [] && Short(rest, d.limit))
  {
    hide Drain, Frames, Rest, Short, AllPass;
    DrainByFrames(Feed(d, dg));
  }

  lemma ReceiveKeepsReady(d: Decoder, dg: seq<byte>)
    requires Ready(d)
    ensures var e := Receive(d, dg).0; Ready(e) && e.cipher == d.cipher && e.limit == d.limit
  {
    hide Drain;
    DrainByFrames(Feed(d, dg));
  }

  // ------------------------------------------------------------------------
  // No counter twice
  // ------------------------------------------------------------------------

  function CountersOf(fs: seq<Frame>): set<u64> {
    set i | 0 <= i < |fs| :: fs[i].counter
  }

  predicate DistinctCounters(fs: seq<Frame>) {
    forall i, j :: 0 <= i < j < |fs| ==> fs[i].counter != fs[j].counter
  }

  /** The window represents exactly the counters delivered so far, none of them twice. */
  ghost predicate Tracks(w: Option<RW.Window>, fs: seq<Frame>) {
    w.Some? && RW.Represents(w.value, CountersOf(fs)) && DistinctCounters(fs)
  }

  lemma CountersAppend(fs: seq<Frame>, f: Frame)
    ensures CountersOf(fs + [f]) == CountersOf(fs) + {f.counter}
    ensures DistinctCounters(fs) && f.counter !in CountersOf(fs) ==> DistinctCounters(fs + [f])
  {
    var gs := fs + [f];
    forall c
      ensures c in CountersOf(gs) <==> c in CountersOf(fs) + {f.counter}
    {
      if c == f.counter { assert gs[|fs|].counter == c; }
      if c in CountersOf(fs) {
        var i :| 0 <= i < |fs| && fs[i].counter == c;
        assert gs[i].counter == c;
      }
    }
  }

  lemma TracksNext(d: Decoder, fs: seq<Frame>)
    requires Ready(d) && Tracks(d.window, fs)
    ensures Ready(Next(d).0)
    ensures Tracks(Next(d).0.window, if Next(d).1.Got? then fs + [Next(d).1.frame] else fs)
  {
    hide Next, RW.Check, RW.Represents, Whole;
    NextByFrame(d);
    var n := Whole(d.buf, d.limit);
    if n.Some? {
      var f := Opened(d.cipher.value, d.buf[..n.value]);
      if f.Some? {
        RW.CheckRefines(d.window.value, CountersOf(fs), f.value.counter);
        CountersAppend(fs, f.value);
      }
    }
  }

  lemma {:induction false} TracksDrain(d: Decoder, fs: seq<Frame>)
    requires Ready(d) && Tracks(d.window, fs)
    ensures Ready(Drain(d).dec) && Tracks(Drain(d).dec.window, fs + Drain(d).frames)
    decreases |d.buf|
  {
    hide Next, Tracks;
    TracksNext(d, fs);
    NextShrinks(d);
    DrainStep(d);
    var (d', o) := Next(d);
    if o.Got? {
      TracksDrain(d', fs + [o.frame]);
      assert fs + ([o.frame] + Drain(d').frames) == (fs + [o.frame]) + Drain(d').frames;
    } else {
      assert fs + [] == fs;
    }
  }

  /** Over every sequence of datagrams whatsoever no counter is delivered twice, and the window represents those that were. */
  lemma {:induction false} NoCounterTwice(d: Decoder, dgs: seq<seq<byte>>)
    requires Ready(d) && d.window == Some(RW.EMPTY)
    ensures var (e, fs) := ReceiveAll(d, dgs); Ready(e) && Tracks(e.window, fs)
    decreases |dgs|
  {
    if dgs == [] {
      assert CountersOf([]) == {};
    } else {
      hide Drain, Tracks;
      var k := |dgs| - 1;
      NoCounterTwice(d, dgs[..k]);
      var (e, fs) := ReceiveAll(d, dgs[..k]);
      TracksDrain(Feed(e, dgs[k]), fs);
    }
  }

  // ------------------------------------------------------------------------
  // Forgeries
  // ------------------------------------------------------------------------

  /** Nothing incomplete at the end: the datagram can leave no bytes behind. */
  predicate Tidy(dg: seq<byte>, limit: nat) {
    Rest(dg, limit) == [] || !Short(Rest(dg, limit), limit)
  }

  /** The first frame is whole and authenticates. */
  predicate Genuine(c: Cipher, dg: seq<byte>, limit: nat) {
    var n := Whole(dg, limit);
    n.Some? && Opened(c, dg[..n.value]).Some?
  }

  lemma TidyLeavesNothing(d: Decoder, dg: seq<byte>)
    requires Listening(d) && Tidy(dg, d.limit)
    ensures var e := Receive(d, dg).0; Listening(e) && e.cipher == d.cipher && e.limit == d.limit
  {
    hide Drain, Short, Rest, AllPass, Frames;
    assert [] + dg == dg;
    ResidueExact(d, dg);
    ReceiveKeepsReady(d, dg);
  }

  /** A complete datagram that does not begin with an authentic frame changes nothing at all. */
  lemma ForgeryIsNothing(d: Decoder, dg: seq<byte>)
    requires Listening(d) && Tidy(dg, d.limit) && !Genuine(d.cipher.value, dg, d.limit)
    ensures Receive(d, dg) == (d, [])
  {
    hide Next, RW.Check, Opened, ParseHeader;
    var e := Feed(d, dg);
    assert e.buf == dg;
    NextByFrame(e);
    DrainStep(e);
    if Whole(dg, d.limit).None? && dg != [] { assert !Short(dg, d.limit); }
  }

  /** The datagrams that begin with an authentic frame. */
  function Authentic(c: Cipher, limit: nat, dgs: seq<seq<byte>>): seq<seq<byte>> {
    if dgs == [] then []
    else
      var k := |dgs| - 1;
      Authentic(c, limit, dgs[..k]) + if Genuine(c, dgs[k], limit) then [dgs[k]] else []
  }

  lemma {:induction false} ListeningKept(d: Decoder, dgs: seq<seq<byte>>)
    requires Listening(d) && forall i :: 0 <= i < |dgs| ==> Tidy(dgs[i], d.limit)
    ensures
      var e := ReceiveAll(d, dgs).0;
      Listening(e) && e.cipher == d.cipher && e.limit == d.limit
    decreases |dgs|
  {
    hide Receive, Tidy;
    if dgs != [] {
      var k := |dgs| - 1;
      ListeningKept(d, dgs[..k]);
      TidyLeavesNothing(ReceiveAll(d, dgs[..k]).0, dgs[k]);
    }
  }

  /**
    Authenticate before advancing: among datagrams of any number of whole frames, removing every one that does not begin
    with an authentic frame changes neither the delivered frames nor the replay window.
  */
  lemma {:induction false} ForgeriesIgnored(d: Decoder, dgs: seq<seq<byte>>)
    requires Listening(d) && forall i :: 0 <= i < |dgs| ==> Tidy(dgs[i], d.limit)
    ensures ReceiveAll(d, Authentic(d.cipher.value, d.limit, dgs)) == ReceiveAll(d, dgs)
    decreases |dgs|
  {
    hide Receive, Genuine, Tidy;
    if dgs != [] {
      var k := |dgs| - 1;
      var rest := Authentic(d.cipher.value, d.limit, dgs[..k]);
      ForgeriesIgnored(d, dgs[..k]);
      ListeningKept(d, dgs[..k]);
      var all := Authentic(d.cipher.value, d.limit, dgs);
      if Genuine(d.cipher.value, dgs[k], d.limit) {
        assert all[..|all| - 1] == rest;
      } else {
        assert all == rest;
        ForgeryIsNothing(ReceiveAll(d, dgs[..k]).0, dgs[k]);
        assert ReceiveAll(d, dgs[..k]).1 + [] == ReceiveAll(d, dgs[..k]).1;
      }
    }
  }

  // ------------------------------------------------------------------------
  // Incomplete datagrams
  // ------------------------------------------------------------------------

  lemma TwoDatagrams(d: Decoder, a: seq<byte>, b: seq<byte>)
    ensures
      var (d1, fs) := Receive(d, a);
      ReceiveAll(d, [a, b]) == (Receive(d1, b).0, fs + Receive(d1, b).1)
  {
    hide Receive;
    var two: seq<seq<byte>>, one: seq<seq<byte>> := [a, b], [a];
    assert two[..1] == one && one[..0] == [];
    assert ReceiveAll(d, one[..0]) == (d, []);
    assert [] + Receive(d, a).1 == Receive(d, a).1;
    assert ReceiveAll(d, one) == Receive(d, a);
  }

  /** An incomplete datagram is glued to the one that follows it. */
  lemma ShortIsGlued(d: Decoder, short: seq<byte>, dg: seq<byte>)
    requires Listening(d) && Short(short, d.limit)
    ensures ReceiveAll(d, [short, dg]) == Receive(d, short + dg)
  {
    hide Short, ParseHeader, Next;
    assert Feed(d, short).buf == short && Feed(d, short + dg).buf == short + dg;
    NextByFrame(Feed(d, short));
    ShortIsNotWhole(short, d.limit);
    DrainStep(Feed(d, short));
    TwoDatagrams(d, short, dg);
    assert Receive(d, short) == (Feed(d, short), []);
    assert Feed(Feed(d, short), dg) == Feed(d, short + dg);
    assert [] + Receive(d, short + dg).1 == Receive(d, short + dg).1;
  }

  lemma ShortIsNotWhole(b: seq<byte>, limit: nat)
    requires Short(b, limit)
    ensures Whole(b, limit).None?
  {
  }

  /**
    So it costs the next datagram: nothing is delivered unless the two together begin with an authentic frame. In
    particular a stray byte other than the version loses the next datagram, whatever that is.
  */
  lemma ShortCostsADatagram(d: Decoder, short: seq<byte>, dg: seq<byte>)
    requires Listening(d) && Short(short, d.limit)
    ensures Tidy(short + dg, d.limit) && !Genuine(d.cipher.value, short + dg, d.limit) ==>
      ReceiveAll(d, [short, dg]) == (d, [])
    ensures short != [] && short[0] != PROTO_VERSION && |short + dg| >= HEADER_LEN ==> ReceiveAll(d, [short, dg]) == (d, [])
  {
    ShortIsGlued(d, short, dg);
    if short != [] && short[0] != PROTO_VERSION && |short + dg| >= HEADER_LEN {
      assert (short + dg)[..HEADER_LEN][0] == short[0];
      assert Tidy(short + dg, d.limit) && !Genuine(d.cipher.value, short + dg, d.limit);
    }
    hide Receive, Short, Tidy, Genuine;
    if Tidy(short + dg, d.limit) && !Genuine(d.cipher.value, short + dg, d.limit) { ForgeryIsNothing(d, short + dg); }
  }
}
