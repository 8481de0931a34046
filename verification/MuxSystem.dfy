/**
  The mode-A channel: any number of sessions over one shared FIFO in each direction,
  with one writer and one reader task per side. Every interleaving of the session tasks,
  the writers, the readers, channel death and unrelated frames is a run.
*/
module MuxSystem {
  import opened Bytes
  import opened MuxSession
  import opened MuxInvariant
  import opened SidAllocator

  const ROUTE_CHAN := 256
  const TCP_ROUTE_CAP := 64
  const SIDS := 0x1_0000_0000

  datatype Reader = Idle | Feeding(sid: Sid, msg: Msg)

  datatype System = System(
    sess: map<Sid, Sess>, fl: Flags, limit: nat,
    base: u32, issued: nat, udp: set<Sid>,
    cmd: seq<Frame>, upWire: seq<Frame>, srv: Reader,
    sink: seq<Frame>, downWire: seq<Frame>, cli: Reader)

  datatype Label =
    | FetchSid(udp: bool) | UdpGone(sid: Sid)
    | Act(sid: Sid, t: Task)
    | CmdDies | SinkDies | ConnCancels | ServerStops | ClientStops
    | UpWrite | UpRoute | UpDeliver
    | DownWrite | DownRoute | DownDeliver
    | OtherUp(f: Frame) | OtherDown(f: Frame)

  function Of(g: System, sid: Sid): Sess {
    if sid in g.sess then g.sess[sid] else FRESH
  }

  /** The value `fetch_add` on the shared u32 counter returns next. */
  function NextSid(g: System): Sid {
    (g.base + g.issued) % SIDS
  }

  /** `alloc_sid` skips zero and every sid still present in a routing table. */
  predicate SidTaken(g: System, sid: Sid) {
    sid == 0 || Of(g, sid).d.route || sid in g.udp
  }

  predicate Busy(r: Reader, sid: Sid) {
    r.Feeding? && r.sid == sid
  }

  predicate StepOk(g: System, l: Label) {
    match l
    case FetchSid(_) => true
    case UdpGone(_) => true
    case Act(x, t) =>
      && !Of(g, x).h.phase.Absent?
      && TaskOk(t, Of(g, x), g.fl, Busy(g.srv, x), Busy(g.cli, x))
      && var e := TaskStep(t, x, Of(g, x), g.fl, Busy(g.srv, x), Busy(g.cli, x));
         (e.cmd.Some? ==> |g.cmd| < ROUTE_CHAN) && (e.sink.Some? ==> |g.sink| < ROUTE_CHAN)
    case CmdDies => true
    case SinkDies => true
    case ConnCancels => true
    case ServerStops => g.srv.Idle?
    case ClientStops => g.cli.Idle?
    case UpWrite => g.cmd != [] && g.fl.cmdOpen
    case UpRoute => g.upWire != [] && g.srv.Idle? && !g.fl.srvStopped
    // a send waits for room in the queue, and fails at once when the receiver is gone
    case UpDeliver =>
      g.srv.Feeding? && (|Of(g, g.srv.sid).u.tq| < TCP_ROUTE_CAP || Of(g, g.srv.sid).u.inPump.InDone?)
    case DownWrite => g.sink != [] && g.fl.sinkOpen
    case DownRoute => g.downWire != [] && g.cli.Idle? && !g.fl.cliStopped
    case DownDeliver =>
      g.cli.Feeding? && (|Of(g, g.cli.sid).d.inq| < ROUTE_CHAN || !Of(g, g.cli.sid).d.rx)
    case OtherUp(f) => f.kind.Other? && |g.cmd| < ROUTE_CHAN && g.fl.cmdOpen
    case OtherDown(f) => f.kind.Other? && |g.sink| < ROUTE_CHAN && g.fl.sinkOpen
  }

  function Hold(sid: Sid, m: Option<Msg>): Reader {
    if m.Some? then Feeding(sid, m.value) else Idle
  }

  function Step(g: System, l: Label): System
    requires StepOk(g, l)
  {
    match l
    case FetchSid(udp) =>
      var x := NextSid(g);
      var g' := g.(issued := g.issued + 1);
      if SidTaken(g, x) then g'
      else if udp then g'.(udp := g.udp + {x})
      else g'.(sess := g.sess[x := Allocated(FRESH)])
    case UdpGone(x) => g.(udp := g.udp - {x})
    case Act(x, t) =>
      var e := TaskStep(t, x, Of(g, x), g.fl, Busy(g.srv, x), Busy(g.cli, x));
      g.(sess := g.sess[x := e.s], cmd := Push(g.cmd, e.cmd), sink := Push(g.sink, e.sink))
    case CmdDies => g.(fl := g.fl.(cmdOpen := false))
    case SinkDies => g.(fl := g.fl.(sinkOpen := false))
    case ConnCancels => g.(fl := g.fl.(connCancelled := true))
    case ServerStops => g.(fl := g.fl.(connCancelled := true, srvStopped := true))
    case ClientStops => g.(fl := g.fl.(cliStopped := true))
    case UpWrite => g.(cmd := g.cmd[1..], upWire := Encoded(g.upWire, g.cmd[0], g.limit))
    case UpRoute =>
      var f := g.upWire[0];
      if f.kind.Other? then g.(upWire := g.upWire[1..])
      else
        var r := RouteUp(Of(g, f.sid), f);
        g.(sess := g.sess[f.sid := r.0], upWire := g.upWire[1..], srv := Hold(f.sid, r.1))
    case UpDeliver =>
      var x := g.srv.sid;
      g.(sess := g.sess[x := Of(g, x).(u := DeliverUp(Of(g, x).u, g.srv.msg))], srv := Idle)
    case DownWrite => g.(sink := g.sink[1..], downWire := Encoded(g.downWire, g.sink[0], g.limit))
    case DownRoute =>
      var f := g.downWire[0];
      if f.kind.Other? then g.(downWire := g.downWire[1..])
      else
        var r := RouteDown(Of(g, f.sid), f);
        g.(sess := g.sess[f.sid := r.0], downWire := g.downWire[1..], cli := Hold(f.sid, r.1))
    case DownDeliver =>
      var x := g.cli.sid;
      g.(sess := g.sess[x := Of(g, x).(d := DeliverDown(Of(g, x).d, g.cli.msg))], cli := Idle)
    case OtherUp(f) => g.(cmd := g.cmd + [f])
    case OtherDown(f) => g.(sink := g.sink + [f])
  }

  // ------------------------------------------------------------------------
  // Projection onto one session
  // ------------------------------------------------------------------------

  predicate IsMine(f: Frame, y: Sid) {
    f.sid == y && !f.kind.Other?
  }

  /** The frames of session y in a shared queue. */
  function Mine(q: seq<Frame>, y: Sid): seq<Frame> {
    if q == [] then [] else if IsMine(q[0], y) then [q[0]] + Mine(q[1..], y) else Mine(q[1..], y)
  }

  function MineHeld(r: Reader, y: Sid): Option<Msg> {
    if Busy(r, y) then Some(r.msg) else None
  }

  function Proj(g: System, y: Sid): View {
    View(y, Of(g, y), g.fl, g.limit,
         Mine(g.cmd, y), Mine(g.upWire, y), MineHeld(g.srv, y),
         Mine(g.sink, y), Mine(g.downWire, y), MineHeld(g.cli, y))
  }

  lemma {:induction false} MineAppend(q: seq<Frame>, f: Frame, y: Sid)
    ensures Mine(q + [f], y) == if IsMine(f, y) then Mine(q, y) + [f] else Mine(q, y)
  {
    if q == [] {
      assert q + [f] == [f];
      assert Mine([f], y) == if IsMine(f, y) then [f] + Mine([], y) else Mine([], y);
    } else {
      assert (q + [f])[1..] == q[1..] + [f] && (q + [f])[0] == q[0];
      MineAppend(q[1..], f, y);
      assert [q[0]] + (Mine(q[1..], y) + [f]) == ([q[0]] + Mine(q[1..], y)) + [f];
    }
  }

  /** What session y observes of a step of the channel. */
  function Seen(g: System, l: Label, y: Sid): Option<VLabel>
    requires StepOk(g, l)
  {
    match l
    case FetchSid(udp) => if NextSid(g) == y && !SidTaken(g, y) && !udp then Some(VAlloc) else None
    case UdpGone(_) => None
    case Act(x, t) => if x == y then Some(VTask(t)) else None
    case UpWrite => if IsMine(g.cmd[0], y) then Some(VUpWrite) else None
    case UpRoute => if IsMine(g.upWire[0], y) then Some(VUpRoute) else None
    case UpDeliver => if g.srv.sid == y then Some(VUpDeliver) else None
    case DownWrite => if IsMine(g.sink[0], y) then Some(VDownWrite) else None
    case DownRoute => if IsMine(g.downWire[0], y) then Some(VDownRoute) else None
    case DownDeliver => if g.cli.sid == y then Some(VDownDeliver) else None
    case OtherUp(_) => None
    case OtherDown(_) => None
    case _ => Some(VFlags(Step(g, l).fl))
  }

  predicate FreshSid(g: System, l: Label) {
    l.FetchSid? && !SidTaken(g, NextSid(g)) && !l.udp ==> Of(g, NextSid(g)) == FRESH
  }

  lemma ActProjects(g: System, x: Sid, t: Task, y: Sid)
    requires StepOk(g, Act(x, t))
    ensures x != y ==> Proj(Step(g, Act(x, t)), y) == Proj(g, y)
    ensures x == y ==> ViewOk(Proj(g, y), VTask(t)) && Proj(Step(g, Act(x, t)), y) == AfterTask(Proj(g, y), t)
  {
    var e := TaskStep(t, x, Of(g, x), g.fl, Busy(g.srv, x), Busy(g.cli, x));
    TaskEmitsOwn(t, x, Of(g, x), g.fl, Busy(g.srv, x), Busy(g.cli, x));
    hide TaskStep, TaskOk, Mine;
    if e.cmd.Some? { MineAppend(g.cmd, e.cmd.value, y); }
    if e.sink.Some? { MineAppend(g.sink, e.sink.value, y); }
  }

  lemma TaskEmitsOwn(t: Task, x: Sid, s: Sess, fl: Flags, sb: bool, cb: bool)
    requires TaskOk(t, s, fl, sb, cb)
    ensures
      var e := TaskStep(t, x, s, fl, sb, cb);
      (e.cmd.Some? ==> IsMine(e.cmd.value, x)) && (e.sink.Some? ==> IsMine(e.sink.value, x))
  {
  }

  lemma QueuesProject(g: System, l: Label, y: Sid)
    requires StepOk(g, l) && (l.UpWrite? || l.DownWrite? || l.OtherUp? || l.OtherDown?)
    ensures Seen(g, l, y).None? ==> Proj(Step(g, l), y) == Proj(g, y)
    ensures Seen(g, l, y).Some? ==>
      ViewOk(Proj(g, y), Seen(g, l, y).value) && Proj(Step(g, l), y) == ViewStep(Proj(g, y), Seen(g, l, y).value)
  {
    match l {
      case UpWrite => MineAppend(g.upWire, g.cmd[0], y);
      case DownWrite => MineAppend(g.downWire, g.sink[0], y);
      case OtherUp(f) => MineAppend(g.cmd, f, y);
      case OtherDown(f) => MineAppend(g.sink, f, y);
      case _ =>
    }
  }

  lemma UpRouteProjects(g: System, y: Sid)
    requires StepOk(g, UpRoute)
    ensures Seen(g, UpRoute, y).None? ==> Proj(Step(g, UpRoute), y) == Proj(g, y)
    ensures Seen(g, UpRoute, y).Some? ==>
      ViewOk(Proj(g, y), Seen(g, UpRoute, y).value) && Proj(Step(g, UpRoute), y) == ViewStep(Proj(g, y), Seen(g, UpRoute, y).value)
  {
    hide RouteUp;
  }

  lemma DownRouteProjects(g: System, y: Sid)
    requires StepOk(g, DownRoute)
    ensures Seen(g, DownRoute, y).None? ==> Proj(Step(g, DownRoute), y) == Proj(g, y)
    ensures Seen(g, DownRoute, y).Some? ==>
      ViewOk(Proj(g, y), Seen(g, DownRoute, y).value) && Proj(Step(g, DownRoute), y) == ViewStep(Proj(g, y), Seen(g, DownRoute, y).value)
  {
    hide RouteDown;
  }

  lemma DeliveriesProject(g: System, l: Label, y: Sid)
    requires StepOk(g, l) && (l.UpDeliver? || l.DownDeliver?)
    ensures Seen(g, l, y).None? ==> Proj(Step(g, l), y) == Proj(g, y)
    ensures Seen(g, l, y).Some? ==>
      ViewOk(Proj(g, y), Seen(g, l, y).value) && Proj(Step(g, l), y) == ViewStep(Proj(g, y), Seen(g, l, y).value)
  {
    hide DeliverUp, DeliverDown, Mine;
  }

  /**
    Isolation: to one session the shared channel looks like a private one. A step that session y
    does not see leaves everything about y unchanged; a step it sees is a step of its own pipeline. Only a fetch that
    lands on a sid used before is not, and it changes no session but that one.
  */
  lemma Isolation(g: System, l: Label, y: Sid)
    requires StepOk(g, l)
    ensures Seen(g, l, y).None? ==> Proj(Step(g, l), y) == Proj(g, y)
    ensures Seen(g, l, y).Some? && FreshSid(g, l) ==>
      ViewOk(Proj(g, y), Seen(g, l, y).value) && Proj(Step(g, l), y) == ViewStep(Proj(g, y), Seen(g, l, y).value)
    ensures !FreshSid(g, l) && NextSid(g) != y ==> Proj(Step(g, l), y) == Proj(g, y)
  {
    if l.Act? {
      ActProjects(g, l.sid, l.t, y);
    } else if l.UpWrite? || l.DownWrite? || l.OtherUp? || l.OtherDown? {
      QueuesProject(g, l, y);
    } else if l.UpRoute? {
      UpRouteProjects(g, y);
    } else if l.DownRoute? {
      DownRouteProjects(g, y);
    } else if l.UpDeliver? || l.DownDeliver? {
      DeliveriesProject(g, l, y);
    }
  }

  // ------------------------------------------------------------------------
  // Runs
  // ------------------------------------------------------------------------

  predicate Init(g: System) {
    && g.sess == map[] && g.udp == {} && g.issued == 0 && g.limit >= MAX_PLAINTEXT
    && g.cmd == [] && g.upWire == [] && g.sink == [] && g.downWire == []
    && g.srv == Idle && g.cli == Idle
  }

  /** gs are the states and ls the steps of a run; any interleaving of any sessions. */
  predicate Run(gs: seq<System>, ls: seq<Label>) {
    && |gs| == |ls| + 1
    && Init(gs[0])
    && forall i :: 0 <= i < |ls| ==> StepOk(gs[i], ls[i]) && gs[i + 1] == Step(gs[i], ls[i])
  }

  predicate NthSid(base: u32, i: nat, x: Sid) {
    x == (base + i) % SIDS
  }

  /** Every session in use got its sid from an earlier `fetch_add`. */
  ghost predicate SidsIssued(g: System) {
    forall x: Sid :: !Of(g, x).h.phase.Absent? ==> exists i: nat :: i < g.issued && NthSid(g.base, i, x)
  }

  ghost predicate SysInv(g: System) {
    SidsIssued(g) && forall y: Sid :: Inv(Proj(g, y))
  }

  lemma AbsentIsFresh(v: View)
    requires Inv(v) && v.s.h.phase.Absent?
    ensures v.s == FRESH
  {
  }

  /** Before the u32 counter wraps, `alloc_sid` never hands out a sid twice. */
  lemma SidsAreFresh(g: System, l: Label)
    requires SysInv(g) && g.issued < SIDS
    ensures FreshSid(g, l)
  {
    hide Inv;
    var x := NextSid(g);
    forall i: nat | i < g.issued
      ensures !NthSid(g.base, i, x)
    {
      NoReuse(g.base, i, g.issued);
    }
    AbsentIsFresh(Proj(g, x));
  }

  lemma OnlyAllocStarts(v: View, l: VLabel)
    requires Inv(v) && ViewOk(v, l) && v.s.h.phase.Absent? && !l.VAlloc?
    ensures ViewStep(v, l).s == v.s
  {
  }

  lemma StartsAtAlloc(g: System, l: Label, x: Sid)
    requires Inv(Proj(g, x)) && StepOk(g, l) && FreshSid(g, l)
    ensures Of(g, x).h.phase.Absent? && !Of(Step(g, l), x).h.phase.Absent? ==> l.FetchSid? && NextSid(g) == x
  {
    hide Inv, Step, StepOk, ViewOk, ViewStep, Mine;
    Isolation(g, l, x);
    var seen := Seen(g, l, x);
    if Of(g, x).h.phase.Absent? && seen.Some? && !seen.value.VAlloc? {
      OnlyAllocStarts(Proj(g, x), seen.value);
    }
  }

  lemma Issues(g: System, l: Label)
    requires StepOk(g, l)
    ensures Step(g, l).base == g.base && Step(g, l).issued == g.issued + if l.FetchSid? then 1 else 0
  {
  }

  lemma SidsIssuedKept(g: System, l: Label)
    requires SysInv(g) && StepOk(g, l) && FreshSid(g, l)
    ensures SidsIssued(Step(g, l))
  {
    hide Inv, Step, StepOk, FreshSid, Proj;
    Issues(g, l);
    var g' := Step(g, l);
    forall x: Sid | !Of(g', x).h.phase.Absent?
      ensures exists i: nat :: i < g'.issued && NthSid(g'.base, i, x)
    {
      assert Inv(Proj(g, x));
      StartsAtAlloc(g, l, x);
      if Of(g, x).h.phase.Absent? {
        assert NthSid(g'.base, g.issued, x);
      } else {
        var i: nat :| i < g.issued && NthSid(g.base, i, x);
        assert i < g'.issued && NthSid(g'.base, i, x);
      }
    }
  }

  lemma SysInvKept(g: System, l: Label)
    requires SysInv(g) && StepOk(g, l) && (l.FetchSid? ==> g.issued < SIDS)
    ensures SysInv(Step(g, l))
  {
    hide Inv, Step, StepOk, Seen, Proj, ViewOk, ViewStep;
    if l.FetchSid? { SidsAreFresh(g, l); }
    SidsIssuedKept(g, l);
    forall y: Sid
      ensures Inv(Proj(Step(g, l), y))
    {
      Isolation(g, l, y);
      assert Inv(Proj(g, y));
      if Seen(g, l, y).Some? { InvKept(Proj(g, y), Seen(g, l, y).value); }
    }
  }

  lemma FreshViewInv(y: Sid, fl: Flags, limit: nat)
    requires limit >= MAX_PLAINTEXT
    ensures Inv(View(y, FRESH, fl, limit, [], [], None, [], [], None))
  {
    var v := View(y, FRESH, fl, limit, [], [], None, [], [], None);
    assert UpFlight(v) == [] && DownFlight(v) == [] && Flatten([]) == [];
    assert InvUp(FRESH.u, false, fl.cmdOpen, [], false);
    assert InvDown(FRESH.d, true, [], false);
  }

  lemma InitInv(g: System)
    requires Init(g)
    ensures SysInv(g)
  {
    hide Inv;
    forall y: Sid
      ensures Inv(Proj(g, y))
    {
      FreshViewInv(y, g.fl, g.limit);
    }
  }

  lemma {:induction false} RunInv(gs: seq<System>, ls: seq<Label>)
    requires Run(gs, ls) && gs[|ls|].issued <= SIDS
    ensures SysInv(gs[|ls|])
    decreases |ls|
  {
    hide SysInv, Init, StepOk, Step;
    if ls == [] {
      InitInv(gs[0]);
    } else {
      var n := |ls| - 1;
      var gs', ls' := gs[..n + 1], ls[..n];
      assert gs'[n] == gs[n] && StepOk(gs[n], ls[n]) && gs[n + 1] == Step(gs[n], ls[n]);
      Issues(gs[n], ls[n]);
      RunInv(gs', ls');
      SysInvKept(gs[n], ls[n]);
    }
  }

  // ------------------------------------------------------------------------
  // The theorems
  // ------------------------------------------------------------------------

  /** End-to-end stream safety of one session. */
  predicate Safe(s: Sess) {
    && s.u.targetGot <= s.u.userSent
    && s.d.userGot <= s.d.targetSent
    && (s.u.targetEof ==> s.u.targetGot == s.u.userSent)
    && (s.d.end.ByFin? ==> Flatten(s.d.queued) == s.d.targetSent)
    && (s.d.end.ByFin? && s.d.pump == DrainDone(true) ==> s.d.userGot == s.d.targetSent)
  }

  lemma InvIsSafe(v: View)
    requires Inv(v)
    ensures Safe(v.s)
  {
    var u, d := v.s.u, v.s.d;
    assert u.queued <= u.sent && d.queued <= d.sent;
    FlattenPrefix(u.queued, u.sent);
    FlattenPrefix(d.queued, d.sent);
    if !u.inPump.InDone? { FlattenPrefix(u.taken, u.queued); }
    if u.targetEof { ClosedPrefixIsWhole(u.queued, u.sent); }
    if d.end.ByFin? { ClosedPrefixIsWhole(d.queued, d.sent); }
  }

  /**
    Stream safety: in every run, for every session, the target has received a prefix of what the
    user sent and the user a prefix of what the target sent; a shut-down target has received
    everything; a route ended by a FIN frame has everything the target sent already queued.
  */
  lemma StreamSafety(gs: seq<System>, ls: seq<Label>, sid: Sid)
    requires Run(gs, ls) && gs[|ls|].issued <= SIDS
    ensures Safe(Of(gs[|ls|], sid))
  {
    hide Inv, Safe, StepOk, Step;
    RunInv(gs, ls);
    InvIsSafe(Proj(gs[|ls|], sid));
  }

  /** The messages between the user pump and the target that are still on their way. */
  function UpTransit(u: UpSide, flight: seq<Msg>): seq<Msg> {
    (match u.inPump case InHold(m) => [m] + u.tq case _ => u.tq) + flight
  }

  lemma {:induction false} FlattenConcat(a: seq<Msg>, b: seq<Msg>)
    ensures Flatten(a + b) == Flatten(a) + Flatten(b)
    decreases |b|
  {
    if b == [] {
      assert a + b == a;
    } else {
      var k := |b| - 1;
      FlattenConcat(a, b[..k]);
      assert a + b == (a + b[..k]) + [b[k]] && b == b[..k] + [b[k]];
      FlattenAppend(a + b[..k], b[k]);
      FlattenAppend(b[..k], b[k]);
    }
  }

  /**
    Conservation: while a route stands and its reader runs, every byte accepted from the sender is
    accounted for, in order, as delivered or in transit. Nothing is lost, repeated or reordered.
  */
  lemma Conservation(gs: seq<System>, ls: seq<Label>, sid: Sid)
    requires Run(gs, ls) && gs[|ls|].issued <= SIDS
    ensures
      var v := Proj(gs[|ls|], sid);
      && (v.s.u.route && !v.s.u.inPump.InDone? ==>
            v.s.u.targetGot + Flatten(UpTransit(v.s.u, UpFlight(v))) == Flatten(v.s.u.sent))
      && (v.s.d.route && v.s.d.rx ==>
            v.s.d.userGot + Flatten(v.s.d.inq + DownFlight(v)) == Flatten(v.s.d.sent))
  {
    hide InvPhase, InvUp, InvDown, UpFrames, DownFrames, StepOk, Step, UpTransit, UpFlight, DownFlight, Flatten;
    RunInv(gs, ls);
    var v := Proj(gs[|ls|], sid);
    assert Inv(v);
    if v.s.u.route && !v.s.u.inPump.InDone? {
      UpConserves(v.s.u, v.s.h.inserted, v.fl.cmdOpen, UpFlight(v), v.srv.Some?);
    }
    if v.s.d.route && v.s.d.rx {
      DownConserves(v.s.d, v.s.h.phase.Absent?, DownFlight(v), v.cli.Some?);
    }
  }

  lemma UpConserves(u: UpSide, inserted: bool, cmdOpen: bool, flight: seq<Msg>, held: bool)
    requires InvUp(u, inserted, cmdOpen, flight, held) && u.route && !u.inPump.InDone?
    ensures u.targetGot + Flatten(UpTransit(u, flight)) == Flatten(u.sent)
  {
    FlattenConcat(u.taken, UpTransit(u, flight));
    assert u.taken + UpTransit(u, flight) == u.queued + flight;
  }

  lemma DownConserves(d: DownSide, absent: bool, flight: seq<Msg>, held: bool)
    requires InvDown(d, absent, flight, held) && d.route && d.rx
    ensures d.userGot + Flatten(d.inq + flight) == Flatten(d.sent)
  {
    FlattenConcat(d.taken, d.inq + flight);
    assert d.taken + (d.inq + flight) == d.queued + flight;
  }

  /** No Data frame of any session is ever dropped by a writer as too large. */
  lemma NoChunkTooLarge(gs: seq<System>, ls: seq<Label>, i: nat)
    requires Run(gs, ls) && gs[|ls|].issued <= SIDS
    ensures
      var g := gs[|ls|];
      && (i < |g.cmd| && !g.cmd[i].kind.Other? ==> |g.cmd[i].payload| <= g.limit)
      && (i < |g.sink| && !g.sink[i].kind.Other? ==> |g.sink[i].payload| <= g.limit)
  {
    var g := gs[|ls|];
    hide Inv, StepOk, Step;
    RunInv(gs, ls);
    if i < |g.cmd| && !g.cmd[i].kind.Other? {
      MineKeeps(g.cmd, i);
      ViewFramesFit(Proj(g, g.cmd[i].sid), g.cmd[i]);
    }
    if i < |g.sink| && !g.sink[i].kind.Other? {
      MineKeeps(g.sink, i);
      ViewFramesFit(Proj(g, g.sink[i].sid), g.sink[i]);
    }
  }

  lemma {:induction false} MineKeeps(q: seq<Frame>, i: nat)
    requires i < |q| && !q[i].kind.Other?
    ensures q[i] in Mine(q, q[i].sid)
  {
    if i > 0 {
      MineKeeps(q[1..], i - 1);
      assert q[i] == q[1..][i - 1];
    }
  }

  lemma ViewFramesFit(v: View, f: Frame)
    requires Inv(v) && (f in v.cmd || f in v.sink)
    ensures |f.payload| <= v.limit
  {
  }
}
