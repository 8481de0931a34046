/**
  One mode-A TCP session, seen alone: the tasks of both ends that serve one sid
  (src/proto/mux.rs, src/server/hub.rs), each await point a separate step.

  A session travels user -> user pump -> command queue -> up wire -> server reader
  -> target queue -> target, and back through target pump -> sink -> down wire
  -> client reader -> user queue -> user. `View` is that pipeline with the frames
  of this one sid; `MuxSystem` shows that the shared channel projects onto it.
*/
module MuxSession {
  import opened Bytes

  const MAX_PLAINTEXT := 16 * 1024
  const READ_BUF := 16 * 1024

  type Sid = nat

  datatype Kind = Open | OpenOk | OpenErr | Data | Close | Error | Other

  datatype Frame = Frame(kind: Kind, fin: bool, rst: bool, sid: Sid, payload: seq<byte>)

  /** What a Data or Close+FIN frame asks the receiving end to do. */
  datatype Msg = Msg(data: seq<byte>, fin: bool)

  // ------------------------------------------------------------------------
  // State of one session
  // ------------------------------------------------------------------------

  datatype Phase = Absent | Opening | Waiting | Established | Failed
  datatype Worker = WNone | WRun | WReplyOk | WReplyErr | WDone

  /** The open handshake: the client's `open_tcp` call and the server's Open worker. */
  datatype Handshake = Handshake(
    phase: Phase, pending: bool, reply: Option<bool>,
    worker: Worker, inserted: bool)

  datatype UserPump = UpNot | UpRun | UpHold(chunk: seq<byte>) | UpClosing | UpDone
  datatype InPump = InNot | InRun | InHold(msg: Msg) | InDone

  /** user -> target. `userSent`, `sent` and `queued` are histories. */
  datatype UpSide = UpSide(
    pump: UserPump, userSent: seq<byte>, sent: seq<Msg>,
    route: bool, cancelled: bool, tq: seq<Msg>, queued: seq<Msg>,
    inPump: InPump, taken: seq<Msg>, targetGot: seq<byte>, targetEof: bool)

  datatype OutPump = OutNot | OutRun | OutHold(chunk: seq<byte>) | OutFin | OutRst | OutDrop | OutDone
  datatype DrainPump = DrainNot | DrainRun | DrainDone(clean: bool)
  datatype RouteEnd = NotEnded | ByFin | ByOther

  /** target -> user. `targetSent`, `sent` and `queued` are histories. */
  datatype DownSide = DownSide(
    out: OutPump, targetSent: seq<byte>, sent: seq<Msg>,
    route: bool, end: RouteEnd, rx: bool, inq: seq<Msg>, queued: seq<Msg>,
    pump: DrainPump, taken: seq<Msg>, userGot: seq<byte>)

  datatype Sess = Sess(h: Handshake, u: UpSide, d: DownSide)

  const FRESH := Sess(
    Handshake(Absent, false, None, WNone, false),
    UpSide(UpNot, [], [], false, false, [], [], InNot, [], [], false),
    DownSide(OutNot, [], [], false, NotEnded, false, [], [], DrainNot, [], []))

  /** Channel-wide conditions a session task can observe; each changes at most once. */
  datatype Flags = Flags(cmdOpen: bool, sinkOpen: bool, connCancelled: bool, srvStopped: bool, cliStopped: bool)

  // ------------------------------------------------------------------------
  // Task steps
  // ------------------------------------------------------------------------

  datatype HandshakeTask =
    | SendOpen(payload: seq<byte>) | SendOpenFail | Establish | Refuse | GiveUp | Abandon
    | WorkerDeny | WorkerDialFail | WorkerDial | WorkerReply | WorkerReplyFail | WorkerAbort

  datatype UpTask =
    | UserRead(chunk: seq<byte>) | UserSend | UserSendFail | UserEof | UserFin | UserFinFail
    | InTake | InWrite | InWriteFail(k: nat) | InCancel | InClosed
    | Reap

  datatype DownTask =
    | TargetRead(chunk: seq<byte>) | TargetSend | TargetSendFail | TargetEof | TargetErr
    | FinSend | RstSend | LastSendFail | TargetCancel | TargetDrop
    | UserTake | UserWriteFail(k: nat) | UserClosed

  datatype Task = HTask(h: HandshakeTask) | UTask(u: UpTask) | DTask(d: DownTask)

  /** The session after a task step, and the frame the step put on one of the two queues. */
  datatype Effect = Effect(s: Sess, cmd: Option<Frame>, sink: Option<Frame>)

  /** `ConnState::drop_session`: the route goes and the token is cancelled. */
  function Drop(u: UpSide): UpSide {
    u.(route := false, cancelled := true)
  }

  /** `sessions.remove` on the client; the first removal decides how the route ended. */
  function RemoveRoute(d: DownSide, why: RouteEnd): DownSide {
    if d.route then d.(route := false, end := why) else d
  }

  /** `open_tcp` after `alloc_sid`: the route and the pending reply are registered first. */
  function Allocated(s: Sess): Sess {
    s.(h := s.h.(phase := Opening, pending := true), d := s.d.(route := true, rx := true))
  }

  predicate HandshakeOk(t: HandshakeTask, h: Handshake, fl: Flags) {
    match t
    case SendOpen(p) => h.phase.Opening? && fl.cmdOpen && |p| <= MAX_PLAINTEXT
    case SendOpenFail => h.phase.Opening? && !fl.cmdOpen
    case Establish => h.phase.Waiting? && h.reply == Some(true)
    case Refuse => h.phase.Waiting? && h.reply == Some(false)
    case GiveUp => h.phase.Waiting? && h.reply.None?
    case Abandon => h.phase.Opening? || h.phase.Waiting?
    case WorkerDeny => h.worker.WRun?
    case WorkerDialFail => h.worker.WRun?
    case WorkerDial => h.worker.WRun?
    case WorkerReply => (h.worker.WReplyOk? || h.worker.WReplyErr?) && fl.sinkOpen
    case WorkerReplyFail => (h.worker.WReplyOk? || h.worker.WReplyErr?) && !fl.sinkOpen
    case WorkerAbort => !h.worker.WNone? && !h.worker.WDone? && fl.srvStopped
  }

  function HandshakeStep(t: HandshakeTask, sid: Sid, s: Sess, fl: Flags): Effect
    requires HandshakeOk(t, s.h, fl)
  {
    var fail := s.(h := s.h.(phase := Failed, pending := false), d := RemoveRoute(s.d.(rx := false), ByOther));
    match t
    case SendOpen(p) => Effect(s.(h := s.h.(phase := Waiting)), Some(Frame(Open, false, false, sid, p)), None)
    case SendOpenFail => Effect(fail, None, None)
    case Establish =>
      Effect(Sess(s.h.(phase := Established), s.u.(pump := UpRun), s.d.(pump := DrainRun)), None, None)
    case Refuse => Effect(fail, None, None)
    case GiveUp => Effect(fail, None, None)
    case Abandon => Effect(s.(h := s.h.(phase := Failed), d := s.d.(rx := false)), None, None)
    case WorkerDeny => Effect(s.(h := s.h.(worker := WReplyErr)), None, None)
    case WorkerDialFail => Effect(s.(h := s.h.(worker := WReplyErr), u := Drop(s.u)), None, None)
    case WorkerDial =>
      Effect(Sess(s.h.(worker := WReplyOk, inserted := true), s.u.(route := true, inPump := InRun), s.d.(out := OutRun)),
             None, None)
    case WorkerReply =>
      Effect(s.(h := s.h.(worker := WDone)), None,
             Some(Frame(if s.h.worker.WReplyOk? then OpenOk else OpenErr, false, false, sid, [])))
    case WorkerReplyFail => Effect(s.(h := s.h.(worker := WDone)), None, None)
    case WorkerAbort => Effect(s.(h := s.h.(worker := WDone)), None, None)
  }

  /** `busy`: the server reader still holds a sender clone of this sid's route. */
  predicate UpOk(t: UpTask, u: UpSide, fl: Flags, busy: bool) {
    match t
    case UserRead(c) => u.pump.UpRun? && 1 <= |c| <= MAX_PLAINTEXT
    case UserSend => u.pump.UpHold? && fl.cmdOpen
    case UserSendFail => u.pump.UpHold? && !fl.cmdOpen
    case UserEof => u.pump.UpRun?
    case UserFin => u.pump.UpClosing? && fl.cmdOpen
    case UserFinFail => u.pump.UpClosing? && !fl.cmdOpen
    case InTake => u.inPump.InRun? && u.tq != []
    case InWrite => u.inPump.InHold?
    case InWriteFail(k) => u.inPump.InHold? && k <= |u.inPump.msg.data|
    case InCancel => u.inPump.InRun? && (u.cancelled || fl.connCancelled)
    case InClosed => u.inPump.InRun? && u.tq == [] && !u.route && !busy
    case Reap => true
  }

  function UpStep(t: UpTask, sid: Sid, u: UpSide, fl: Flags, busy: bool): (UpSide, Option<Frame>)
    requires UpOk(t, u, fl, busy)
  {
    match t
    case UserRead(c) => (u.(pump := UpHold(c), userSent := u.userSent + c), None)
    case UserSend =>
      (u.(pump := UpRun, sent := u.sent + [Msg(u.pump.chunk, false)]),
       Some(Frame(Data, false, false, sid, u.pump.chunk)))
    case UserSendFail => (u.(pump := UpClosing), None)
    case UserEof => (u.(pump := UpClosing), None)
    case UserFin =>
      (u.(pump := UpDone, sent := u.sent + [Msg([], true)]), Some(Frame(Close, true, false, sid, [])))
    case UserFinFail => (u.(pump := UpDone), None)
    case InTake => (u.(inPump := InHold(u.tq[0]), tq := u.tq[1..]), None)
    case InWrite =>
      var m := u.inPump.msg;
      (u.(targetGot := u.targetGot + m.data, taken := u.taken + [m], targetEof := m.fin,
          inPump := if m.fin then InDone else InRun), None)
    case InWriteFail(k) => (u.(targetGot := u.targetGot + u.inPump.msg.data[..k], inPump := InDone), None)
    case InCancel => (u.(inPump := InDone), None)
    case InClosed => (u.(inPump := InDone), None)
    case Reap => (Drop(u), None)
  }

  /** `busy`: the client reader still holds a sender clone of this sid's route. */
  predicate DownOk(t: DownTask, d: DownSide, cancelled: bool, fl: Flags, busy: bool) {
    match t
    case TargetRead(c) => d.out.OutRun? && 1 <= |c| <= READ_BUF
    case TargetSend => d.out.OutHold? && fl.sinkOpen
    case TargetSendFail => d.out.OutHold? && !fl.sinkOpen
    case TargetEof => d.out.OutRun?
    case TargetErr => d.out.OutRun?
    case FinSend => d.out.OutFin? && fl.sinkOpen
    case RstSend => d.out.OutRst? && fl.sinkOpen
    case LastSendFail => (d.out.OutFin? || d.out.OutRst?) && !fl.sinkOpen
    case TargetCancel => d.out.OutRun? && (cancelled || fl.connCancelled)
    case TargetDrop => d.out.OutDrop?
    case UserTake => d.pump.DrainRun? && d.inq != []
    case UserWriteFail(k) => d.pump.DrainRun? && d.inq != [] && k <= |d.inq[0].data|
    case UserClosed => d.pump.DrainRun? && d.inq == [] && !busy && (!d.route || fl.cliStopped)
  }

  function DownStep(t: DownTask, sid: Sid, d: DownSide, cancelled: bool, fl: Flags, busy: bool):
      (DownSide, Option<Frame>)
    requires DownOk(t, d, cancelled, fl, busy)
  {
    match t
    case TargetRead(c) => (d.(out := OutHold(c), targetSent := d.targetSent + c), None)
    case TargetSend =>
      (d.(out := OutRun, sent := d.sent + [Msg(d.out.chunk, false)]),
       Some(Frame(Data, false, false, sid, d.out.chunk)))
    case TargetSendFail => (d.(out := OutDrop), None)
    case TargetEof => (d.(out := OutFin), None)
    case TargetErr => (d.(out := OutRst), None)
    case FinSend =>
      (d.(out := OutDrop, sent := d.sent + [Msg([], true)]), Some(Frame(Data, true, false, sid, [])))
    case RstSend => (d.(out := OutDrop), Some(Frame(Close, false, true, sid, [])))
    case LastSendFail => (d.(out := OutDrop), None)
    case TargetCancel => (d.(out := OutDrop), None)
    case TargetDrop => (d.(out := OutDone), None)
    case UserTake =>
      (d.(userGot := d.userGot + d.inq[0].data, taken := d.taken + [d.inq[0]], inq := d.inq[1..]), None)
    case UserWriteFail(k) =>
      (d.(userGot := d.userGot + d.inq[0].data[..k], pump := DrainDone(false), rx := false), None)
    case UserClosed => (d.(pump := DrainDone(true), rx := false), None)
  }

  predicate TaskOk(t: Task, s: Sess, fl: Flags, srvBusy: bool, cliBusy: bool) {
    match t
    case HTask(h) => HandshakeOk(h, s.h, fl)
    case UTask(u) => UpOk(u, s.u, fl, srvBusy)
    case DTask(d) => DownOk(d, s.d, s.u.cancelled, fl, cliBusy)
  }

  function TaskStep(t: Task, sid: Sid, s: Sess, fl: Flags, srvBusy: bool, cliBusy: bool): Effect
    requires TaskOk(t, s, fl, srvBusy, cliBusy)
  {
    match t
    case HTask(h) => HandshakeStep(h, sid, s, fl)
    case UTask(u) =>
      var (u', f) := UpStep(u, sid, s.u, fl, srvBusy);
      Effect(s.(u := u'), f, None)
    case DTask(d) =>
      var (d', f) := DownStep(d, sid, s.d, s.u.cancelled, fl, cliBusy);
      Effect(Sess(s.h, if d.TargetDrop? then Drop(s.u) else s.u, d'), None, f)
  }

  // ------------------------------------------------------------------------
  // Frame routing
  // ------------------------------------------------------------------------

  /** `handle_server_frame`: the session afterwards, and the message to feed when a route was found. */
  function RouteUp(s: Sess, f: Frame): (Sess, Option<Msg>) {
    match f.kind
    case Open => (s.(h := s.h.(worker := WRun)), None)
    case Data =>
      if f.rst then (s.(u := Drop(s.u)), None)
      else (s, if s.u.route then Some(Msg(f.payload, f.fin)) else None)
    case Close =>
      if f.fin && !f.rst then (s, if s.u.route then Some(Msg([], true)) else None)
      else (s.(u := Drop(s.u)), None)
    case Error => (s.(u := Drop(s.u)), None)
    case _ => (s, None)
  }

  /** `tx.send` of `feed_tcp`: it fails, and drops the session, once the receiver is gone. */
  function DeliverUp(u: UpSide, m: Msg): UpSide {
    if u.inPump.InDone? then Drop(u)
    else u.(tq := u.tq + [m], queued := u.queued + [m])
  }

  /** `handle_client_frame`, as `RouteUp`. */
  function RouteDown(s: Sess, f: Frame): (Sess, Option<Msg>) {
    var answered := (ok: bool) => if s.h.pending then s.h.(pending := false, reply := Some(ok)) else s.h;
    match f.kind
    case OpenOk => (s.(h := answered(true)), None)
    case OpenErr => (s.(h := answered(false)), None)
    case Error => (s.(h := answered(false), d := RemoveRoute(s.d, ByOther)), None)
    case Data => (s, if s.d.route then Some(Msg(f.payload, f.fin)) else None)
    case Close => (s.(d := RemoveRoute(s.d, ByOther)), None)
    case _ => (s, None)
  }

  /** `tx.send` of the Data arm, then the FIN check. */
  function DeliverDown(d: DownSide, m: Msg): DownSide {
    if !d.rx then RemoveRoute(d, ByOther)
    else
      var d' := d.(inq := d.inq + [m], queued := d.queued + [m]);
      if m.fin then RemoveRoute(d', ByFin) else d'
  }

  // ------------------------------------------------------------------------
  // The private pipeline of one session
  // ------------------------------------------------------------------------

  datatype View = View(
    sid: Sid, s: Sess, fl: Flags, limit: nat,
    cmd: seq<Frame>, upWire: seq<Frame>, srv: Option<Msg>,
    sink: seq<Frame>, downWire: seq<Frame>, cli: Option<Msg>)

  datatype VLabel =
    | VTask(t: Task) | VAlloc | VFlags(fl: Flags)
    | VUpWrite | VUpRoute | VUpDeliver
    | VDownWrite | VDownRoute | VDownDeliver

  /** A flag never changes back. */
  predicate FlagsLater(a: Flags, b: Flags) {
    && (b.cmdOpen ==> a.cmdOpen)
    && (b.sinkOpen ==> a.sinkOpen)
    && (a.connCancelled ==> b.connCancelled)
    && (a.srvStopped ==> b.srvStopped)
    && (a.cliStopped ==> b.cliStopped)
  }

  function Push(q: seq<Frame>, f: Option<Frame>): seq<Frame> {
    if f.Some? then q + [f.value] else q
  }

  /** The writer task encodes a frame, or drops it when it exceeds the negotiated limit. */
  function Encoded(wire: seq<Frame>, f: Frame, limit: nat): seq<Frame> {
    if |f.payload| <= limit then wire + [f] else wire
  }

  predicate ViewOk(v: View, l: VLabel) {
    match l
    case VTask(t) => !v.s.h.phase.Absent? && TaskOk(t, v.s, v.fl, v.srv.Some?, v.cli.Some?)
    case VAlloc => v.s.h.phase.Absent?
    case VFlags(fl) => FlagsLater(v.fl, fl)
    case VUpWrite => v.cmd != []
    case VUpRoute => v.upWire != [] && v.srv.None?
    case VUpDeliver => v.srv.Some?
    case VDownWrite => v.sink != []
    case VDownRoute => v.downWire != [] && v.cli.None? && !v.fl.cliStopped
    case VDownDeliver => v.cli.Some?
  }

  function AfterTask(v: View, t: Task): View
    requires ViewOk(v, VTask(t))
  {
    var e := TaskStep(t, v.sid, v.s, v.fl, v.srv.Some?, v.cli.Some?);
    v.(s := e.s, cmd := Push(v.cmd, e.cmd), sink := Push(v.sink, e.sink))
  }

  function AfterUpWrite(v: View): View
    requires v.cmd != []
  {
    v.(cmd := v.cmd[1..], upWire := Encoded(v.upWire, v.cmd[0], v.limit))
  }

  function AfterDownWrite(v: View): View
    requires v.sink != []
  {
    v.(sink := v.sink[1..], downWire := Encoded(v.downWire, v.sink[0], v.limit))
  }

  function AfterUpRoute(v: View): View
    requires v.upWire != []
  {
    var r := RouteUp(v.s, v.upWire[0]);
    v.(s := r.0, upWire := v.upWire[1..], srv := r.1)
  }

  function AfterDownRoute(v: View): View
    requires v.downWire != []
  {
    var r := RouteDown(v.s, v.downWire[0]);
    v.(s := r.0, downWire := v.downWire[1..], cli := r.1)
  }

  function AfterUpDeliver(v: View): View
    requires v.srv.Some?
  {
    v.(s := v.s.(u := DeliverUp(v.s.u, v.srv.value)), srv := None)
  }

  function AfterDownDeliver(v: View): View
    requires v.cli.Some?
  {
    v.(s := v.s.(d := DeliverDown(v.s.d, v.cli.value)), cli := None)
  }

  function ViewStep(v: View, l: VLabel): View
    requires ViewOk(v, l)
  {
    match l
    case VTask(t) => AfterTask(v, t)
    case VAlloc => v.(s := Allocated(v.s))
    case VFlags(fl) => v.(fl := fl)
    case VUpWrite => AfterUpWrite(v)
    case VUpRoute => AfterUpRoute(v)
    case VUpDeliver => AfterUpDeliver(v)
    case VDownWrite => AfterDownWrite(v)
    case VDownRoute => AfterDownRoute(v)
    case VDownDeliver => AfterDownDeliver(v)
  }
}
