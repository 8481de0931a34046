/** The invariant of a session's private pipeline and its preservation by every step. */
module MuxInvariant {
  import opened Bytes
  import opened MuxSession

  // ------------------------------------------------------------------------
  // Message streams
  // ------------------------------------------------------------------------

  function MsgsOf(f: Frame): seq<Msg> {
    if f.kind.Data? then [Msg(f.payload, f.fin)] else if f.kind.Close? && f.fin then [Msg([], true)] else []
  }

  /** The messages carried by a queue of frames, in order. */
  function Msgs(q: seq<Frame>): seq<Msg> {
    if q == [] then [] else MsgsOf(q[0]) + Msgs(q[1..])
  }

  /** The bytes of a message stream. */
  function Flatten(ms: seq<Msg>): seq<byte> {
    if ms == [] then [] else Flatten(ms[..|ms| - 1]) + ms[|ms| - 1].data
  }

  function Held(m: Option<Msg>): seq<Msg> {
    if m.Some? then [m.value] else []
  }

  /** No message but the last closes the stream. */
  predicate FinLast(ms: seq<Msg>) {
    forall i :: 0 <= i < |ms| - 1 ==> !ms[i].fin
  }

  predicate Closed(ms: seq<Msg>) {
    ms != [] && ms[|ms| - 1].fin
  }

  lemma {:induction false} MsgsAppend(a: seq<Frame>, f: Frame)
    ensures Msgs(a + [f]) == Msgs(a) + MsgsOf(f)
  {
    if a != [] {
      assert (a + [f])[1..] == a[1..] + [f];
      MsgsAppend(a[1..], f);
      assert MsgsOf(a[0]) + (Msgs(a[1..]) + MsgsOf(f)) == (MsgsOf(a[0]) + Msgs(a[1..])) + MsgsOf(f);
    } else {
      assert a + [f] == [f];
      assert Msgs([f]) == MsgsOf(f) + Msgs([]);
    }
  }

  lemma Assoc(a: seq<Msg>, b: seq<Msg>, c: seq<Msg>)
    ensures (a + b) + c == a + (b + c)
  {
  }

  lemma FlattenAppend(ms: seq<Msg>, m: Msg)
    ensures Flatten(ms + [m]) == Flatten(ms) + m.data
  {
    assert (ms + [m])[..|ms|] == ms;
  }

  lemma {:induction false} FlattenPrefix(a: seq<Msg>, b: seq<Msg>)
    requires a <= b
    ensures Flatten(a) <= Flatten(b)
    decreases |b|
  {
    if a != b {
      assert a <= b[..|b| - 1];
      FlattenPrefix(a, b[..|b| - 1]);
    }
  }

  /** A closed prefix of a stream that closes only at its end is the whole stream. */
  lemma ClosedPrefixIsWhole(a: seq<Msg>, b: seq<Msg>)
    requires a <= b && FinLast(b) && Closed(a)
    ensures a == b
  {
    assert b[|a| - 1].fin;
  }

  // ------------------------------------------------------------------------
  // The open handshake
  // ------------------------------------------------------------------------

  /** Which task of a session can be in which state together. */
  predicate InvPhase(s: Sess, srv: Option<Msg>, cli: Option<Msg>) {
    && (s.h.phase.Absent? ==> s == FRESH && srv.None? && cli.None?)
    && (s.h.phase.Opening? ==> s.h.worker.WNone?)
    && (s.h.inserted <==> !s.u.inPump.InNot?)
    && (s.h.inserted <==> !s.d.out.OutNot?)
    && (s.h.worker.WReplyOk? ==> s.h.inserted)
    && (s.h.inserted ==> s.h.worker.WReplyOk? || s.h.worker.WDone?)
    && (s.h.reply == Some(true) || s.h.phase.Established? ==> s.h.inserted)
    && (s.h.phase.Established? <==> !s.u.pump.UpNot?)
    && (s.h.phase.Established? <==> !s.d.pump.DrainNot?)
    && (s.d.rx <==> s.h.phase.Opening? || s.h.phase.Waiting? || s.d.pump.DrainRun?)
    && (!s.h.inserted ==> !s.u.route && srv.None? && cli.None?)
    && (s.u.pump.UpHold? ==> |s.u.pump.chunk| <= MAX_PLAINTEXT)
    && (s.d.out.OutHold? ==> |s.d.out.chunk| <= READ_BUF)
  }

  /** A frame the client may have in flight: until the server has seen it, only the one Open frame. */
  predicate UpFrame(f: Frame, h: Handshake) {
    && !f.rst
    && |f.payload| <= MAX_PLAINTEXT
    && if h.worker.WNone? then f.kind.Open?
       else h.phase.Established? && ((f.kind.Data? && !f.fin) || (f.kind.Close? && f.fin))
  }

  /** A frame the server may have in flight: anything but OpenErr shows that the route was inserted. */
  predicate DownFrame(f: Frame, h: Handshake) {
    && |f.payload| <= MAX_PLAINTEXT
    && (f.kind.OpenErr? || (h.inserted && (f.kind.OpenOk? || (f.kind.Data? && !f.rst) || (f.kind.Close? && !f.fin))))
  }

  predicate UpFrames(cmd: seq<Frame>, upWire: seq<Frame>, h: Handshake) {
    && (forall i :: 0 <= i < |cmd| ==> UpFrame(cmd[i], h))
    && (forall i :: 0 <= i < |upWire| ==> UpFrame(upWire[i], h))
    && (h.worker.WNone? ==> |cmd| + |upWire| <= if h.phase.Absent? || h.phase.Opening? then 0 else 1)
  }

  predicate DownFrames(sink: seq<Frame>, downWire: seq<Frame>, h: Handshake) {
    && (forall i :: 0 <= i < |sink| ==> DownFrame(sink[i], h))
    && (forall i :: 0 <= i < |downWire| ==> DownFrame(downWire[i], h))
    && (h.phase.Absent? ==> sink == [] && downWire == [])
  }

  // ------------------------------------------------------------------------
  // The two directions; `flight` is everything between the sending pump and the route
  // ------------------------------------------------------------------------

  predicate UserPumpInv(u: UpSide, cmdOpen: bool) {
    && FinLast(u.sent)
    && (Closed(u.sent) ==> u.pump.UpDone?)
    && Flatten(u.sent) <= u.userSent
    && (match u.pump
        case UpHold(c) => u.userSent == Flatten(u.sent) + c
        case UpClosing => u.userSent == Flatten(u.sent) || !cmdOpen
        case UpDone => Closed(u.sent) ==> u.userSent == Flatten(u.sent)
        case _ => u.userSent == Flatten(u.sent))
  }

  /** Nothing is lost on the shared channel until the route is gone for good. */
  predicate UpFlow(u: UpSide, inserted: bool, flight: seq<Msg>, held: bool) {
    u.queued + flight == u.sent || (inserted && !u.route && !held && u.queued <= u.sent)
  }

  predicate InPumpInv(u: UpSide) {
    match u.inPump
    case InHold(m) => u.taken + [m] + u.tq == u.queued && u.targetGot == Flatten(u.taken) && !u.targetEof
    case InDone =>
      && u.targetGot <= Flatten(u.queued)
      && (u.targetEof ==> Closed(u.queued) && u.targetGot == Flatten(u.queued))
    case _ => u.taken + u.tq == u.queued && u.targetGot == Flatten(u.taken) && !u.targetEof
  }

  predicate InvUp(u: UpSide, inserted: bool, cmdOpen: bool, flight: seq<Msg>, held: bool) {
    UserPumpInv(u, cmdOpen) && UpFlow(u, inserted, flight, held) && InPumpInv(u)
  }

  predicate OutPumpInv(d: DownSide) {
    && FinLast(d.sent)
    && (Closed(d.sent) ==> (d.out.OutDrop? || d.out.OutDone?) && d.targetSent == Flatten(d.sent))
    && Flatten(d.sent) <= d.targetSent
    && (match d.out
        case OutHold(c) => d.targetSent == Flatten(d.sent) + c
        case OutDrop => true
        case OutDone => true
        case _ => d.targetSent == Flatten(d.sent))
  }

  predicate DownFlow(d: DownSide, absent: bool, flight: seq<Msg>, held: bool) {
    d.queued + flight == d.sent || (!absent && !d.route && !held && d.queued <= d.sent)
  }

  predicate DrainInv(d: DownSide) {
    && (d.rx ==> d.taken + d.inq == d.queued && d.userGot == Flatten(d.taken))
    && d.userGot <= Flatten(d.queued)
    && (d.pump.DrainDone? ==> !d.rx)
    && (d.end.NotEnded? || !d.route)
    && (d.end.ByFin? ==> Closed(d.queued))
    && (d.pump == DrainDone(true) ==> d.userGot == Flatten(d.queued))
  }

  predicate InvDown(d: DownSide, absent: bool, flight: seq<Msg>, held: bool) {
    OutPumpInv(d) && DownFlow(d, absent, flight, held) && DrainInv(d)
  }

  function UpFlight(v: View): seq<Msg> {
    Held(v.srv) + Msgs(v.upWire) + Msgs(v.cmd)
  }

  function DownFlight(v: View): seq<Msg> {
    Held(v.cli) + Msgs(v.downWire) + Msgs(v.sink)
  }

  predicate Inv(v: View) {
    && v.limit >= MAX_PLAINTEXT
    && InvPhase(v.s, v.srv, v.cli)
    && UpFrames(v.cmd, v.upWire, v.s.h)
    && DownFrames(v.sink, v.downWire, v.s.h)
    && InvUp(v.s.u, v.s.h.inserted, v.fl.cmdOpen, UpFlight(v), v.srv.Some?)
    && InvDown(v.s.d, v.s.h.phase.Absent?, DownFlight(v), v.cli.Some?)
  }

  // ------------------------------------------------------------------------
  // Preservation, one component at a time
  // ------------------------------------------------------------------------

  lemma PhaseKeptByHandshake(t: HandshakeTask, sid: Sid, s: Sess, fl: Flags, srv: Option<Msg>, cli: Option<Msg>)
    requires InvPhase(s, srv, cli) && HandshakeOk(t, s.h, fl)
    ensures InvPhase(HandshakeStep(t, sid, s, fl).s, srv, cli)
  {
  }

  lemma PhaseKeptByUp(t: UpTask, sid: Sid, s: Sess, fl: Flags, srv: Option<Msg>, cli: Option<Msg>)
    requires InvPhase(s, srv, cli) && !s.h.phase.Absent? && UpOk(t, s.u, fl, srv.Some?)
    ensures InvPhase(s.(u := UpStep(t, sid, s.u, fl, srv.Some?).0), srv, cli)
  {
  }

  lemma PhaseKeptByDown(t: DownTask, sid: Sid, s: Sess, fl: Flags, srv: Option<Msg>, cli: Option<Msg>)
    requires InvPhase(s, srv, cli) && !s.h.phase.Absent? && DownOk(t, s.d, s.u.cancelled, fl, cli.Some?)
    ensures
      var d' := DownStep(t, sid, s.d, s.u.cancelled, fl, cli.Some?).0;
      InvPhase(Sess(s.h, if t.TargetDrop? then Drop(s.u) else s.u, d'), srv, cli)
  {
  }

  predicate UserStep?(t: UpTask) {
    t.UserRead? || t.UserSend? || t.UserSendFail? || t.UserEof? || t.UserFin? || t.UserFinFail?
  }

  predicate Emits?(t: UpTask) { t.UserSend? || t.UserFin? }

  lemma SameInPump(u: UpSide, u': UpSide)
    requires InPumpInv(u) && u' == u.(pump := u'.pump, sent := u'.sent, userSent := u'.userSent)
    ensures InPumpInv(u')
  {
  }

  lemma UpKeptBySend(t: UpTask, sid: Sid, u: UpSide, fl: Flags, inserted: bool, flight: seq<Msg>, held: bool)
    requires InvUp(u, inserted, fl.cmdOpen, flight, held) && UpOk(t, u, fl, held) && Emits?(t)
    ensures
      var (u', f) := UpStep(t, sid, u, fl, held);
      f.Some? && InvUp(u', inserted, fl.cmdOpen, flight + MsgsOf(f.value), held)
  {
    hide Flatten, InPumpInv;
    var (u', f) := UpStep(t, sid, u, fl, held);
    var m := if t.UserFin? then Msg([], true) else Msg(u.pump.chunk, false);
    assert MsgsOf(f.value) == [m];
    FlattenAppend(u.sent, m);
    Assoc(u.queued, flight, [m]);
    SameInPump(u, u');
  }

  lemma UpKeptByQuiet(t: UpTask, sid: Sid, u: UpSide, fl: Flags, inserted: bool, flight: seq<Msg>, held: bool)
    requires InvUp(u, inserted, fl.cmdOpen, flight, held) && UpOk(t, u, fl, held) && UserStep?(t) && !Emits?(t)
    ensures
      var (u', f) := UpStep(t, sid, u, fl, held);
      f.None? && InvUp(u', inserted, fl.cmdOpen, flight, held)
  {
    hide Flatten, InPumpInv;
    SameInPump(u, UpStep(t, sid, u, fl, held).0);
  }

  lemma UpKeptByUserPump(t: UpTask, sid: Sid, u: UpSide, fl: Flags, inserted: bool, flight: seq<Msg>, held: bool)
    requires InvUp(u, inserted, fl.cmdOpen, flight, held) && UpOk(t, u, fl, held) && UserStep?(t)
    ensures
      var (u', f) := UpStep(t, sid, u, fl, held);
      InvUp(u', inserted, fl.cmdOpen, if f.Some? then flight + MsgsOf(f.value) else flight, held)
  {
    hide InvUp, UpStep, MsgsOf;
    if Emits?(t) {
      UpKeptBySend(t, sid, u, fl, inserted, flight, held);
    } else {
      UpKeptByQuiet(t, sid, u, fl, inserted, flight, held);
    }
  }

  /** A stream that closes only at its end closes at the end of every prefix too. */
  lemma FinLastMiddle(a: seq<Msg>, m: Msg, b: seq<Msg>, whole: seq<Msg>)
    requires a + [m] + b <= whole && FinLast(whole) && m.fin
    ensures b == [] && a + [m] == whole
  {
    assert whole[|a|] == m;
  }

  lemma InTakeKept(sid: Sid, u: UpSide, fl: Flags, held: bool)
    requires InPumpInv(u) && UpOk(InTake, u, fl, held)
    ensures InPumpInv(UpStep(InTake, sid, u, fl, held).0)
  {
    hide Flatten, Closed;
    assert u.tq == [u.tq[0]] + u.tq[1..];
    Assoc(u.taken, [u.tq[0]], u.tq[1..]);
  }

  lemma InWriteKept(sid: Sid, u: UpSide, fl: Flags, held: bool)
    requires InPumpInv(u) && u.queued <= u.sent && FinLast(u.sent) && UpOk(InWrite, u, fl, held)
    ensures InPumpInv(UpStep(InWrite, sid, u, fl, held).0)
  {
    hide Flatten, FinLast;
    FlattenAppend(u.taken, u.inPump.msg);
    if u.inPump.msg.fin {
      FinLastMiddle(u.taken, u.inPump.msg, u.tq, u.sent);
      assert u.queued == u.taken + [u.inPump.msg];
    }
  }

  lemma InEndKept(t: UpTask, sid: Sid, u: UpSide, fl: Flags, held: bool)
    requires InPumpInv(u) && UpOk(t, u, fl, held) && !UserStep?(t) && !t.InTake? && !t.InWrite?
    ensures InPumpInv(UpStep(t, sid, u, fl, held).0)
  {
    hide Flatten, Closed;
    match t {
      case InWriteFail(k) =>
        FlattenAppend(u.taken, u.inPump.msg);
        FlattenPrefix(u.taken + [u.inPump.msg], u.queued);
      case InCancel => FlattenPrefix(u.taken, u.queued);
      case InClosed => FlattenPrefix(u.taken, u.queued);
      case Reap =>
    }
  }

  lemma InPumpKept(t: UpTask, sid: Sid, u: UpSide, fl: Flags, held: bool)
    requires InPumpInv(u) && u.queued <= u.sent && FinLast(u.sent) && UpOk(t, u, fl, held) && !UserStep?(t)
    ensures InPumpInv(UpStep(t, sid, u, fl, held).0)
  {
    hide InPumpInv, UpStep, FinLast;
    match t {
      case InTake => InTakeKept(sid, u, fl, held);
      case InWrite => InWriteKept(sid, u, fl, held);
      case _ => InEndKept(t, sid, u, fl, held);
    }
  }

  lemma UpKeptByInPump(t: UpTask, sid: Sid, u: UpSide, fl: Flags, inserted: bool, flight: seq<Msg>, held: bool)
    requires InvUp(u, inserted, fl.cmdOpen, flight, held) && UpOk(t, u, fl, held) && !UserStep?(t)
    ensures UpStep(t, sid, u, fl, held).1.None?
    ensures InvUp(UpStep(t, sid, u, fl, held).0, inserted, fl.cmdOpen, flight, held)
  {
    InPumpKept(t, sid, u, fl, held);
  }

  lemma UpKeptByRoute(s: Sess, f: Frame, cmdOpen: bool, rest: seq<Msg>)
    requires InvUp(s.u, s.h.inserted, cmdOpen, MsgsOf(f) + rest, false)
    requires UpFrame(f, s.h) && (s.h.phase.Established? ==> s.h.inserted)
    ensures
      var (s', m) := RouteUp(s, f);
      && InvUp(s'.u, s'.h.inserted, cmdOpen, Held(m) + rest, m.Some?)
      && s'.d == s.d && s'.h.phase == s.h.phase && s'.h.inserted == s.h.inserted
  {
    assert [] + rest == rest;
  }

  lemma InPumpKeptByDelivery(u: UpSide, m: Msg)
    requires InPumpInv(u) && !u.inPump.InNot?
    ensures InPumpInv(DeliverUp(u, m))
  {
    match u.inPump {
      case InRun => assert u.taken + (u.tq + [m]) == (u.taken + u.tq) + [m];
      case InHold(m0) => assert u.taken + [m0] + (u.tq + [m]) == (u.taken + [m0] + u.tq) + [m];
      case InDone =>
    }
  }

  lemma UpKeptByDelivery(u: UpSide, m: Msg, inserted: bool, cmdOpen: bool, rest: seq<Msg>)
    requires InvUp(u, inserted, cmdOpen, [m] + rest, true) && inserted && !u.inPump.InNot?
    ensures InvUp(DeliverUp(u, m), inserted, cmdOpen, rest, false)
  {
    InPumpKeptByDelivery(u, m);
    assert u.queued + ([m] + rest) == (u.queued + [m]) + rest;
  }

  predicate TargetStep?(t: DownTask) {
    !t.UserTake? && !t.UserWriteFail? && !t.UserClosed?
  }

  predicate Sends?(t: DownTask) { t.TargetSend? || t.FinSend? }

  lemma DownKeptBySend(t: DownTask, sid: Sid, d: DownSide, c: bool, fl: Flags, flight: seq<Msg>, held: bool)
    requires InvDown(d, false, flight, held) && DownOk(t, d, c, fl, held) && Sends?(t)
    ensures
      var (d', f) := DownStep(t, sid, d, c, fl, held);
      f.Some? && InvDown(d', false, flight + MsgsOf(f.value), held)
  {
    hide Flatten, DrainInv;
    var (d', f) := DownStep(t, sid, d, c, fl, held);
    var m := if t.FinSend? then Msg([], true) else Msg(d.out.chunk, false);
    assert MsgsOf(f.value) == [m];
    FlattenAppend(d.sent, m);
    Assoc(d.queued, flight, [m]);
    SameDrain(d, d');
  }

  lemma SameDrain(d: DownSide, d': DownSide)
    requires DrainInv(d) && d' == d.(out := d'.out, sent := d'.sent, targetSent := d'.targetSent)
    ensures DrainInv(d')
  {
  }

  lemma DownKeptByQuiet(t: DownTask, sid: Sid, d: DownSide, c: bool, fl: Flags, flight: seq<Msg>, held: bool)
    requires InvDown(d, false, flight, held) && DownOk(t, d, c, fl, held) && TargetStep?(t) && !Sends?(t)
    ensures
      var (d', f) := DownStep(t, sid, d, c, fl, held);
      InvDown(d', false, flight, held) && (f.Some? ==> MsgsOf(f.value) == [])
  {
    hide Flatten, DrainInv;
    SameDrain(d, DownStep(t, sid, d, c, fl, held).0);
  }

  lemma DownKeptByTargetPump(t: DownTask, sid: Sid, d: DownSide, c: bool, fl: Flags, flight: seq<Msg>, held: bool)
    requires InvDown(d, false, flight, held) && DownOk(t, d, c, fl, held) && TargetStep?(t)
    ensures
      var (d', f) := DownStep(t, sid, d, c, fl, held);
      InvDown(d', false, if f.Some? then flight + MsgsOf(f.value) else flight, held)
  {
    hide InvDown, DownStep, MsgsOf;
    if Sends?(t) {
      DownKeptBySend(t, sid, d, c, fl, flight, held);
    } else {
      DownKeptByQuiet(t, sid, d, c, fl, flight, held);
      assert flight + [] == flight;
    }
  }

  lemma DrainKept(t: DownTask, sid: Sid, d: DownSide, c: bool, fl: Flags, held: bool)
    requires DrainInv(d) && DownOk(t, d, c, fl, held) && !TargetStep?(t) && d.rx
    ensures DrainInv(DownStep(t, sid, d, c, fl, held).0)
  {
    hide Flatten, Closed;
    if d.inq != [] {
      var m := d.inq[0];
      assert d.inq == [m] + d.inq[1..];
      Assoc(d.taken, [m], d.inq[1..]);
      FlattenAppend(d.taken, m);
      FlattenPrefix(d.taken + [m], d.queued);
    } else {
      assert d.taken + [] == d.taken;
    }
  }

  lemma DownKeptByDrain(t: DownTask, sid: Sid, d: DownSide, c: bool, fl: Flags, flight: seq<Msg>, held: bool)
    requires InvDown(d, false, flight, held) && DownOk(t, d, c, fl, held) && !TargetStep?(t) && d.rx
    ensures DownStep(t, sid, d, c, fl, held).1.None?
    ensures InvDown(DownStep(t, sid, d, c, fl, held).0, false, flight, held)
  {
    DrainKept(t, sid, d, c, fl, held);
  }

  lemma DownKeptByRoute(s: Sess, f: Frame, rest: seq<Msg>)
    requires InvDown(s.d, false, MsgsOf(f) + rest, false) && DownFrame(f, s.h)
    ensures
      var (s', m) := RouteDown(s, f);
      && InvDown(s'.d, false, Held(m) + rest, m.Some?)
      && s'.u == s.u && s'.h.phase == s.h.phase && s'.h.inserted == s.h.inserted && s'.h.worker == s.h.worker
  {
    assert [] + rest == rest;
  }

  lemma DownKeptByDelivery(d: DownSide, m: Msg, rest: seq<Msg>)
    requires InvDown(d, false, [m] + rest, true)
    ensures InvDown(DeliverDown(d, m), false, rest, false)
  {
    assert d.queued + ([m] + rest) == (d.queued + [m]) + rest;
    FlattenAppend(d.queued, m);
    if d.rx { assert d.taken + (d.inq + [m]) == (d.taken + d.inq) + [m]; }
    if d.end.ByFin? { ClosedPrefixIsWhole(d.queued, d.sent); }
  }

  lemma FlowsKeptByHandshake(t: HandshakeTask, sid: Sid, s: Sess, fl: Flags,
                             upFlight: seq<Msg>, srv: Option<Msg>, downFlight: seq<Msg>, cli: Option<Msg>)
    requires InvPhase(s, srv, cli) && HandshakeOk(t, s.h, fl) && !s.h.phase.Absent?
    requires InvUp(s.u, s.h.inserted, fl.cmdOpen, upFlight, srv.Some?) && InvDown(s.d, false, downFlight, cli.Some?)
    ensures
      var s' := HandshakeStep(t, sid, s, fl).s;
      && InvUp(s'.u, s'.h.inserted, fl.cmdOpen, upFlight, srv.Some?)
      && InvDown(s'.d, false, downFlight, cli.Some?) && !s'.h.phase.Absent?
  {
  }

  lemma UpFramesKeptByHandshake(t: HandshakeTask, sid: Sid, s: Sess, fl: Flags, cmd: seq<Frame>, upWire: seq<Frame>)
    requires UpFrames(cmd, upWire, s.h) && HandshakeOk(t, s.h, fl) && (s.h.phase.Opening? ==> s.h.worker.WNone?)
    ensures
      var e := HandshakeStep(t, sid, s, fl);
      UpFrames(Push(cmd, e.cmd), upWire, e.s.h) && Msgs(Push(cmd, e.cmd)) == Msgs(cmd)
  {
    var e := HandshakeStep(t, sid, s, fl);
    if e.cmd.Some? { MsgsAppend(cmd, e.cmd.value); }
  }

  lemma DownFramesKeptByHandshake(t: HandshakeTask, sid: Sid, s: Sess, fl: Flags, sink: seq<Frame>, downWire: seq<Frame>)
    requires DownFrames(sink, downWire, s.h) && HandshakeOk(t, s.h, fl) && !s.h.phase.Absent?
    requires s.h.worker.WReplyOk? ==> s.h.inserted
    ensures
      var e := HandshakeStep(t, sid, s, fl);
      DownFrames(Push(sink, e.sink), downWire, e.s.h) && Msgs(Push(sink, e.sink)) == Msgs(sink)
  {
    var e := HandshakeStep(t, sid, s, fl);
    if e.sink.Some? { MsgsAppend(sink, e.sink.value); }
  }

  lemma UpFramesWritten(cmd: seq<Frame>, upWire: seq<Frame>, h: Handshake, limit: nat)
    requires UpFrames(cmd, upWire, h) && limit >= MAX_PLAINTEXT && cmd != []
    ensures UpFrames(cmd[1..], upWire + [cmd[0]], h) && Encoded(upWire, cmd[0], limit) == upWire + [cmd[0]]
  {
    assert UpFrame(cmd[0], h);
  }

  lemma DownFramesWritten(sink: seq<Frame>, downWire: seq<Frame>, h: Handshake, limit: nat)
    requires DownFrames(sink, downWire, h) && limit >= MAX_PLAINTEXT && sink != []
    ensures DownFrames(sink[1..], downWire + [sink[0]], h) && Encoded(downWire, sink[0], limit) == downWire + [sink[0]]
  {
    assert DownFrame(sink[0], h);
  }

  /** Moving the head of one queue to the tail of the next leaves the messages between them unchanged. */
  lemma MsgsMoved(held: seq<Msg>, q: seq<Frame>, wire: seq<Frame>)
    requires q != []
    ensures held + Msgs(wire + [q[0]]) + Msgs(q[1..]) == held + Msgs(wire) + Msgs(q)
  {
    MsgsAppend(wire, q[0]);
    var a, b, c := Msgs(wire), MsgsOf(q[0]), Msgs(q[1..]);
    Assoc(held, a, b);
    Assoc(held + a, b, c);
  }

  lemma MsgsPushed(held: seq<Msg>, wire: seq<Frame>, q: seq<Frame>, f: Frame)
    ensures held + Msgs(wire) + Msgs(q + [f]) == (held + Msgs(wire) + Msgs(q)) + MsgsOf(f)
  {
    MsgsAppend(q, f);
    Assoc(held + Msgs(wire), Msgs(q), MsgsOf(f));
  }

  lemma MsgsPopped(wire: seq<Frame>, q: seq<Frame>)
    requires wire != []
    ensures Held(None) + Msgs(wire) + Msgs(q) == MsgsOf(wire[0]) + (Msgs(wire[1..]) + Msgs(q))
  {
    assert Held(None) + Msgs(wire) == Msgs(wire);
    Assoc(MsgsOf(wire[0]), Msgs(wire[1..]), Msgs(q));
  }

  lemma UpFramesPushed(cmd: seq<Frame>, upWire: seq<Frame>, h: Handshake, f: Frame)
    requires UpFrames(cmd, upWire, h) && UpFrame(f, h) && !h.worker.WNone?
    ensures UpFrames(cmd + [f], upWire, h)
  {
  }

  lemma DownFramesPushed(sink: seq<Frame>, downWire: seq<Frame>, h: Handshake, f: Frame)
    requires DownFrames(sink, downWire, h) && DownFrame(f, h) && !h.phase.Absent?
    ensures DownFrames(sink + [f], downWire, h)
  {
  }

  lemma PhaseKeptByUpRoute(s: Sess, f: Frame, cli: Option<Msg>)
    requires InvPhase(s, None, cli) && UpFrame(f, s.h) && !s.h.phase.Absent? && (f.kind.Open? ==> !s.h.phase.Opening?)
    ensures InvPhase(RouteUp(s, f).0, RouteUp(s, f).1, cli)
    ensures s.h.phase.Established? ==> s.h.inserted
  {
  }

  lemma PhaseKeptByDownRoute(s: Sess, f: Frame, srv: Option<Msg>)
    requires InvPhase(s, srv, None) && DownFrame(f, s.h) && !s.h.phase.Absent?
    ensures InvPhase(RouteDown(s, f).0, srv, RouteDown(s, f).1)
  {
  }

  // ------------------------------------------------------------------------
  // Preservation on views
  // ------------------------------------------------------------------------

  lemma KeptByHandshake(v: View, t: HandshakeTask)
    requires Inv(v) && ViewOk(v, VTask(HTask(t)))
    ensures Inv(AfterTask(v, HTask(t)))
  {
    PhaseKeptByHandshake(t, v.sid, v.s, v.fl, v.srv, v.cli);
    FlowsKeptByHandshake(t, v.sid, v.s, v.fl, UpFlight(v), v.srv, DownFlight(v), v.cli);
    UpFramesKeptByHandshake(t, v.sid, v.s, v.fl, v.cmd, v.upWire);
    DownFramesKeptByHandshake(t, v.sid, v.s, v.fl, v.sink, v.downWire);
    hide InvPhase, InvUp, InvDown, UpFrames, DownFrames, HandshakeStep;
  }

  lemma KeptByUpTask(v: View, t: UpTask)
    requires Inv(v) && ViewOk(v, VTask(UTask(t)))
    ensures Inv(AfterTask(v, UTask(t)))
  {
    var f := UpStep(t, v.sid, v.s.u, v.fl, v.srv.Some?).1;
    PhaseKeptByUp(t, v.sid, v.s, v.fl, v.srv, v.cli);
    assert f.Some? ==> UpFrame(f.value, v.s.h) && !v.s.h.worker.WNone?;
    hide InvPhase, InvUp, InvDown, UpFrames, DownFrames, UpStep, Msgs;
    if UserStep?(t) {
      UpKeptByUserPump(t, v.sid, v.s.u, v.fl, v.s.h.inserted, UpFlight(v), v.srv.Some?);
    } else {
      UpKeptByInPump(t, v.sid, v.s.u, v.fl, v.s.h.inserted, UpFlight(v), v.srv.Some?);
    }
    if f.Some? {
      UpFramesPushed(v.cmd, v.upWire, v.s.h, f.value);
      MsgsPushed(Held(v.srv), v.upWire, v.cmd, f.value);
    }
  }

  lemma DownTaskFacts(t: DownTask, sid: Sid, s: Sess, fl: Flags, srv: Option<Msg>, cli: Option<Msg>)
    requires InvPhase(s, srv, cli) && DownOk(t, s.d, s.u.cancelled, fl, cli.Some?)
    ensures
      var f := DownStep(t, sid, s.d, s.u.cancelled, fl, cli.Some?).1;
      f.Some? ==> DownFrame(f.value, s.h)
    ensures !TargetStep?(t) ==> s.d.rx
  {
  }

  lemma UpKeptByDrop(u: UpSide, inserted: bool, cmdOpen: bool, flight: seq<Msg>, held: bool)
    requires InvUp(u, inserted, cmdOpen, flight, held)
    ensures InvUp(Drop(u), inserted, cmdOpen, flight, held)
  {
  }

  lemma DownSideKept(v: View, t: DownTask)
    requires Inv(v) && ViewOk(v, VTask(DTask(t)))
    ensures
      var (d', f) := DownStep(t, v.sid, v.s.d, v.s.u.cancelled, v.fl, v.cli.Some?);
      && InvDown(d', false, if f.Some? then DownFlight(v) + MsgsOf(f.value) else DownFlight(v), v.cli.Some?)
      && (f.Some? ==> DownFrame(f.value, v.s.h))
  {
    hide InvPhase, InvUp, InvDown, UpFrames, DownFrames, DownStep, DownOk, DownFrame, DownFlight, UpFlight, MsgsOf;
    DownTaskFacts(t, v.sid, v.s, v.fl, v.srv, v.cli);
    if TargetStep?(t) {
      DownKeptByTargetPump(t, v.sid, v.s.d, v.s.u.cancelled, v.fl, DownFlight(v), v.cli.Some?);
    } else {
      DownKeptByDrain(t, v.sid, v.s.d, v.s.u.cancelled, v.fl, DownFlight(v), v.cli.Some?);
    }
  }

  lemma KeptByDownTask(v: View, t: DownTask)
    requires Inv(v) && ViewOk(v, VTask(DTask(t)))
    ensures Inv(AfterTask(v, DTask(t)))
  {
    hide InvPhase, InvUp, InvDown, UpFrames, DownFrames, DownStep, DownOk, DownFrame, Msgs, MsgsOf, Held, Drop;
    var f := DownStep(t, v.sid, v.s.d, v.s.u.cancelled, v.fl, v.cli.Some?).1;
    PhaseKeptByDown(t, v.sid, v.s, v.fl, v.srv, v.cli);
    UpKeptByDrop(v.s.u, v.s.h.inserted, v.fl.cmdOpen, UpFlight(v), v.srv.Some?);
    DownSideKept(v, t);
    if f.Some? {
      DownFramesPushed(v.sink, v.downWire, v.s.h, f.value);
      MsgsPushed(Held(v.cli), v.downWire, v.sink, f.value);
    }
  }

  lemma KeptByUpWrite(v: View)
    requires Inv(v) && v.cmd != []
    ensures Inv(AfterUpWrite(v))
  {
    hide InvPhase, InvUp, InvDown, UpFrames, DownFrames, Msgs, Encoded;
    UpFramesWritten(v.cmd, v.upWire, v.s.h, v.limit);
    MsgsMoved(Held(v.srv), v.cmd, v.upWire);
  }

  lemma KeptByDownWrite(v: View)
    requires Inv(v) && v.sink != []
    ensures Inv(AfterDownWrite(v))
  {
    hide InvPhase, InvUp, InvDown, UpFrames, DownFrames, Msgs, Encoded;
    DownFramesWritten(v.sink, v.downWire, v.s.h, v.limit);
    MsgsMoved(Held(v.cli), v.sink, v.downWire);
  }

  lemma UpFramesRouted(cmd: seq<Frame>, upWire: seq<Frame>, s: Sess)
    requires UpFrames(cmd, upWire, s.h) && upWire != []
    ensures UpFrame(upWire[0], s.h) && !s.h.phase.Absent? && (upWire[0].kind.Open? ==> !s.h.phase.Opening?)
    ensures UpFrames(cmd, upWire[1..], RouteUp(s, upWire[0]).0.h)
  {
    assert UpFrame(upWire[0], s.h);
  }

  lemma DownFramesRouted(sink: seq<Frame>, downWire: seq<Frame>, s: Sess)
    requires DownFrames(sink, downWire, s.h) && downWire != []
    ensures DownFrame(downWire[0], s.h) && !s.h.phase.Absent?
    ensures DownFrames(sink, downWire[1..], RouteDown(s, downWire[0]).0.h)
  {
    assert DownFrame(downWire[0], s.h);
  }

  lemma DownFramesReframe(sink: seq<Frame>, downWire: seq<Frame>, h: Handshake, h': Handshake)
    requires DownFrames(sink, downWire, h) && h'.phase == h.phase && h'.inserted == h.inserted
    ensures DownFrames(sink, downWire, h')
  {
    assert forall f: Frame :: DownFrame(f, h) == DownFrame(f, h');
  }

  lemma UpFramesReframe(cmd: seq<Frame>, upWire: seq<Frame>, h: Handshake, h': Handshake)
    requires UpFrames(cmd, upWire, h) && h'.phase == h.phase && h'.worker == h.worker
    ensures UpFrames(cmd, upWire, h')
  {
    assert forall f: Frame :: UpFrame(f, h) == UpFrame(f, h');
  }

  lemma KeptByUpRoute(v: View)
    requires Inv(v) && v.upWire != [] && v.srv.None?
    ensures Inv(AfterUpRoute(v))
  {
    var f := v.upWire[0];
    hide InvPhase, InvDown, InvUp, UpFrames, DownFrames, RouteUp, UpFrame, Msgs, MsgsOf, Held;
    UpFramesRouted(v.cmd, v.upWire, v.s);
    PhaseKeptByUpRoute(v.s, f, v.cli);
    var rest := Msgs(v.upWire[1..]) + Msgs(v.cmd);
    MsgsPopped(v.upWire, v.cmd);
    UpKeptByRoute(v.s, f, v.fl.cmdOpen, rest);
    DownFramesReframe(v.sink, v.downWire, v.s.h, RouteUp(v.s, f).0.h);
    Assoc(Held(RouteUp(v.s, f).1), Msgs(v.upWire[1..]), Msgs(v.cmd));
  }

  lemma KeptByDownRoute(v: View)
    requires Inv(v) && v.downWire != [] && v.cli.None?
    ensures Inv(AfterDownRoute(v))
  {
    var f := v.downWire[0];
    hide InvPhase, InvDown, InvUp, UpFrames, DownFrames, RouteDown, DownFrame, Msgs, MsgsOf, Held;
    DownFramesRouted(v.sink, v.downWire, v.s);
    PhaseKeptByDownRoute(v.s, f, v.srv);
    var rest := Msgs(v.downWire[1..]) + Msgs(v.sink);
    MsgsPopped(v.downWire, v.sink);
    DownKeptByRoute(v.s, f, rest);
    UpFramesReframe(v.cmd, v.upWire, v.s.h, RouteDown(v.s, f).0.h);
    Assoc(Held(RouteDown(v.s, f).1), Msgs(v.downWire[1..]), Msgs(v.sink));
  }

  lemma KeptByUpDeliver(v: View)
    requires Inv(v) && v.srv.Some?
    ensures Inv(AfterUpDeliver(v))
  {
    hide InvUp, InvDown, UpFrames, DownFrames, Msgs;
    var rest := Msgs(v.upWire) + Msgs(v.cmd);
    assert UpFlight(v) == [v.srv.value] + rest;
    UpKeptByDelivery(v.s.u, v.srv.value, v.s.h.inserted, v.fl.cmdOpen, rest);
    assert UpFlight(AfterUpDeliver(v)) == rest;
  }

  lemma KeptByDownDeliver(v: View)
    requires Inv(v) && v.cli.Some?
    ensures Inv(AfterDownDeliver(v))
  {
    hide InvUp, InvDown, UpFrames, DownFrames, Msgs;
    var rest := Msgs(v.downWire) + Msgs(v.sink);
    assert DownFlight(v) == [v.cli.value] + rest;
    DownKeptByDelivery(v.s.d, v.cli.value, rest);
    assert DownFlight(AfterDownDeliver(v)) == rest;
  }

  /** Every step of the pipeline keeps the invariant. */
  lemma InvKept(v: View, l: VLabel)
    requires Inv(v) && ViewOk(v, l)
    ensures Inv(ViewStep(v, l))
  {
    match l {
      case VTask(t) =>
        match t {
          case HTask(h) => KeptByHandshake(v, h);
          case UTask(u) => KeptByUpTask(v, u);
          case DTask(d) => KeptByDownTask(v, d);
        }
      case VAlloc =>
      case VFlags(fl) =>
      case VUpWrite => KeptByUpWrite(v);
      case VUpRoute => KeptByUpRoute(v);
      case VUpDeliver => KeptByUpDeliver(v);
      case VDownWrite => KeptByDownWrite(v);
      case VDownRoute => KeptByDownRoute(v);
      case VDownDeliver => KeptByDownDeliver(v);
    }
  }
}
