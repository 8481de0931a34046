/**
  The stream theorems are not empty: for every two byte streams some run of the channel opens a session, carries both
  streams to their ends and closes both directions cleanly.
*/
module MuxReach {
  import opened Bytes
  import opened MuxSession
  import opened MuxInvariant
  import opened MuxSystem

  const WORKING := Flags(true, true, false, false, false)

  /** The channel when one session is alone on it. */
  function Alone(v: View): System {
    System(map[v.sid := v.s], v.fl, v.limit, v.sid % SIDS, 1, {},
           v.cmd, v.upWire, Hold(v.sid, v.srv), v.sink, v.downWire, Hold(v.sid, v.cli))
  }

  predicate Sound(v: View) {
    && 0 < v.sid < SIDS && v.fl == WORKING && !v.s.h.phase.Absent?
    && (forall i :: 0 <= i < |v.upWire| ==> IsMine(v.upWire[i], v.sid))
    && (forall i :: 0 <= i < |v.downWire| ==> IsMine(v.downWire[i], v.sid))
  }

  function LabelOf(v: View, l: VLabel): Label
    requires !l.VAlloc? && !l.VFlags?
  {
    match l
    case VTask(t) => Act(v.sid, t)
    case VUpWrite => UpWrite
    case VUpRoute => UpRoute
    case VUpDeliver => UpDeliver
    case VDownWrite => DownWrite
    case VDownRoute => DownRoute
    case VDownDeliver => DownDeliver
  }

  /** Every queue has room. */
  predicate Room(v: View) {
    |v.cmd| < ROUTE_CHAN && |v.sink| < ROUTE_CHAN && |v.s.u.tq| < TCP_ROUTE_CAP && |v.s.d.inq| < ROUTE_CHAN
  }

  /** Alone on the channel, a session's own steps are steps of the channel. */
  lemma TaskEmbeds(v: View, t: Task)
    requires Sound(v) && Room(v) && ViewOk(v, VTask(t))
    ensures StepOk(Alone(v), Act(v.sid, t)) && Step(Alone(v), Act(v.sid, t)) == Alone(AfterTask(v, t))
  {
    hide TaskOk, TaskStep;
  }

  lemma QueueEmbeds(v: View, l: VLabel)
    requires Sound(v) && Room(v) && ViewOk(v, l) && !l.VAlloc? && !l.VFlags? && !l.VTask?
    ensures StepOk(Alone(v), LabelOf(v, l)) && Step(Alone(v), LabelOf(v, l)) == Alone(ViewStep(v, l))
  {
    hide RouteUp, RouteDown, DeliverUp, DeliverDown;
  }

  predicate Reaches(gs: seq<System>, ls: seq<Label>, v: View) {
    Run(gs, ls) && gs[|ls|] == Alone(v)
  }

  lemma Extend(gs: seq<System>, ls: seq<Label>, v: View, l: VLabel) returns (gs': seq<System>, ls': seq<Label>)
    requires Reaches(gs, ls, v) && Sound(v) && Room(v) && ViewOk(v, l) && !l.VAlloc? && !l.VFlags?
    ensures Reaches(gs', ls', ViewStep(v, l))
  {
    hide ViewStep, Step, StepOk, Alone, Sound, Room;
    if l.VTask? { TaskIsStep(v, l.t); TaskEmbeds(v, l.t); } else { QueueEmbeds(v, l); }
    gs', ls' := gs + [Step(gs[|ls|], LabelOf(v, l))], ls + [LabelOf(v, l)];
  }

  lemma TaskIsStep(v: View, t: Task)
    requires ViewOk(v, VTask(t))
    ensures ViewStep(v, VTask(t)) == AfterTask(v, t)
  {
  }

  // ------------------------------------------------------------------------
  // Opening
  // ------------------------------------------------------------------------

  function Quiet(sid: Sid, limit: nat, s: Sess): View {
    View(sid, s, WORKING, limit, [], [], None, [], [], None)
  }

  const OPENED := Handshake(Established, false, Some(true), WDone, true)

  /** An established session that has carried up and down so far, with nothing in transit. */
  function Carried(up: seq<Msg>, down: seq<Msg>, upEnd: bool, downEnd: bool): Sess {
    Sess(OPENED,
         UpSide(if upEnd then UpDone else UpRun, Flatten(up), up, true, false, [], up,
                if upEnd then InDone else InRun, up, Flatten(up), upEnd),
         DownSide(if downEnd then OutDrop else OutRun, Flatten(down), down, !downEnd,
                  if downEnd then ByFin else NotEnded, !downEnd, [], down,
                  if downEnd then DrainDone(true) else DrainRun, down, Flatten(down)))
  }

  lemma Opens(sid: Sid, limit: nat) returns (gs: seq<System>, ls: seq<Label>)
    requires 0 < sid < SIDS && limit >= MAX_PLAINTEXT
    ensures Reaches(gs, ls, Quiet(sid, limit, Carried([], [], false, false)))
  {
    var g := System(map[], WORKING, limit, sid, 0, {}, [], [], Idle, [], [], Idle);
    var s := Allocated(FRESH);
    assert Step(g, FetchSid(false)) == Alone(Quiet(sid, limit, s));
    gs, ls := [g, Alone(Quiet(sid, limit, s))], [FetchSid(false)];
    assert Reaches(gs, ls, Quiet(sid, limit, s));
    hide Reaches;
    var v := Quiet(sid, limit, s);
    gs, ls := OpenSent(gs, ls, v);
    var f := Frame(Open, false, false, sid, []);
    v := v.(s := s.(h := s.h.(phase := Waiting)), upWire := [f]);
    gs, ls := OpenServed(gs, ls, v, s);
  }

  lemma OpenSent(gs: seq<System>, ls: seq<Label>, v: View) returns (gs': seq<System>, ls': seq<Label>)
    requires 0 < v.sid < SIDS && v.limit >= MAX_PLAINTEXT && v == Quiet(v.sid, v.limit, Allocated(FRESH)) && Reaches(gs, ls, v)
    ensures Reaches(gs', ls',
      v.(s := v.s.(h := v.s.h.(phase := Waiting)), upWire := [Frame(Open, false, false, v.sid, [])]))
  {
    hide Reaches;
    gs', ls' := Extend(gs, ls, v, VTask(HTask(SendOpen([]))));
    var v1 := ViewStep(v, VTask(HTask(SendOpen([]))));
    gs', ls' := Extend(gs', ls', v1, VUpWrite);
    assert ViewStep(v1, VUpWrite) ==
      v.(s := v.s.(h := v.s.h.(phase := Waiting)), upWire := [Frame(Open, false, false, v.sid, [])]);
  }

  lemma OpenServed(gs: seq<System>, ls: seq<Label>, v: View, s: Sess) returns (gs': seq<System>, ls': seq<Label>)
    requires 0 < v.sid < SIDS && v.limit >= MAX_PLAINTEXT && s == Allocated(FRESH) && Reaches(gs, ls, v)
    requires v == Quiet(v.sid, v.limit, s.(h := s.h.(phase := Waiting))).(upWire := [Frame(Open, false, false, v.sid, [])])
    ensures Reaches(gs', ls', Quiet(v.sid, v.limit, Carried([], [], false, false)))
  {
    hide Reaches;
    gs', ls' := Extend(gs, ls, v, VUpRoute);
    var v1 := ViewStep(v, VUpRoute);
    gs', ls' := Extend(gs', ls', v1, VTask(HTask(WorkerDial)));
    var v2 := ViewStep(v1, VTask(HTask(WorkerDial)));
    gs', ls' := Extend(gs', ls', v2, VTask(HTask(WorkerReply)));
    var v3 := ViewStep(v2, VTask(HTask(WorkerReply)));
    gs', ls' := Extend(gs', ls', v3, VDownWrite);
    var v4 := ViewStep(v3, VDownWrite);
    gs', ls' := Extend(gs', ls', v4, VDownRoute);
    var v5 := ViewStep(v4, VDownRoute);
    gs', ls' := Extend(gs', ls', v5, VTask(HTask(Establish)));
    assert ViewStep(v5, VTask(HTask(Establish))) == Quiet(v.sid, v.limit, Carried([], [], false, false));
  }

  // ------------------------------------------------------------------------
  // Carrying
  // ------------------------------------------------------------------------

  lemma UpQueued(gs: seq<System>, ls: seq<Label>, v: View, m: Msg) returns (gs': seq<System>, ls': seq<Label>)
    requires Sound(v) && v.cmd == [] && v.sink == [] && v.srv.None? && v.s.u.route && v.s.u.tq == [] && v.s.u.inPump.InRun?
    requires |v.s.d.inq| < ROUTE_CHAN && Reaches(gs, ls, v)
    requires v.upWire == [if m.fin then Frame(Close, true, false, v.sid, []) else Frame(Data, false, false, v.sid, m.data)]
    requires m.fin ==> m.data == []
    ensures Reaches(gs', ls', v.(upWire := [], s := v.s.(u := v.s.u.(tq := [m], queued := v.s.u.queued + [m]))))
  {
    hide Reaches;
    gs', ls' := Extend(gs, ls, v, VUpRoute);
    var v1 := v.(upWire := [], srv := Some(m));
    assert ViewStep(v, VUpRoute) == v1;
    gs', ls' := Extend(gs', ls', v1, VUpDeliver);
    assert ViewStep(v1, VUpDeliver).s.u.tq == [m];
  }

  lemma UpTaken(gs: seq<System>, ls: seq<Label>, v: View, m: Msg) returns (gs': seq<System>, ls': seq<Label>)
    requires Sound(v) && Room(v) && v.s.u.inPump.InRun? && v.s.u.tq == [m] && Reaches(gs, ls, v)
    ensures
      var u := v.s.u;
      Reaches(gs', ls', v.(s := v.s.(u := u.(
        tq := [], taken := u.taken + [m], targetGot := u.targetGot + m.data, targetEof := m.fin,
        inPump := if m.fin then InDone else InRun))))
  {
    hide Reaches;
    gs', ls' := Extend(gs, ls, v, VTask(UTask(InTake)));
    var v1 := v.(s := v.s.(u := v.s.u.(tq := [], inPump := InHold(m))));
    assert ViewStep(v, VTask(UTask(InTake))) == v1;
    gs', ls' := Extend(gs', ls', v1, VTask(UTask(InWrite)));
  }

  /** A message on its way up, from the wire to the target. */
  lemma UpArrives(gs: seq<System>, ls: seq<Label>, v: View, m: Msg) returns (gs': seq<System>, ls': seq<Label>)
    requires Sound(v) && v.cmd == [] && v.sink == [] && v.srv.None? && v.s.u.route && v.s.u.tq == [] && v.s.u.inPump.InRun?
    requires |v.s.d.inq| < ROUTE_CHAN && Reaches(gs, ls, v)
    requires v.upWire == [if m.fin then Frame(Close, true, false, v.sid, []) else Frame(Data, false, false, v.sid, m.data)]
    requires m.fin ==> m.data == []
    ensures
      var u := v.s.u;
      Reaches(gs', ls', v.(upWire := [], s := v.s.(u := u.(
        queued := u.queued + [m], taken := u.taken + [m], targetGot := u.targetGot + m.data, targetEof := m.fin,
        inPump := if m.fin then InDone else InRun))))
  {
    hide Reaches;
    gs', ls' := UpQueued(gs, ls, v, m);
    gs', ls' := UpTaken(gs', ls', v.(upWire := [], s := v.s.(u := v.s.u.(tq := [m], queued := v.s.u.queued + [m]))), m);
  }

  lemma UpChunk(gs: seq<System>, ls: seq<Label>, sid: Sid, limit: nat, up: seq<Msg>, down: seq<Msg>, c: seq<byte>)
      returns (gs': seq<System>, ls': seq<Label>)
    requires 0 < sid < SIDS && limit >= MAX_PLAINTEXT && 1 <= |c| <= MAX_PLAINTEXT
    requires Reaches(gs, ls, Quiet(sid, limit, Carried(up, down, false, false)))
    ensures Reaches(gs', ls', Quiet(sid, limit, Carried(up + [Msg(c, false)], down, false, false)))
  {
    hide Reaches, Flatten;
    var v, m := Quiet(sid, limit, Carried(up, down, false, false)), Msg(c, false);
    gs', ls' := Extend(gs, ls, v, VTask(UTask(UserRead(c))));
    var v1 := ViewStep(v, VTask(UTask(UserRead(c))));
    gs', ls' := Extend(gs', ls', v1, VTask(UTask(UserSend)));
    var v2 := ViewStep(v1, VTask(UTask(UserSend)));
    gs', ls' := Extend(gs', ls', v2, VUpWrite);
    var v3 := v.(upWire := [Frame(Data, false, false, sid, c)],
                 s := v.s.(u := v.s.u.(userSent := v.s.u.userSent + c, sent := up + [m])));
    assert ViewStep(v2, VUpWrite) == v3;
    gs', ls' := UpArrives(gs', ls', v3, m);
    FlattenAppend(up, m);
  }

  lemma UpFin(gs: seq<System>, ls: seq<Label>, sid: Sid, limit: nat, up: seq<Msg>, down: seq<Msg>)
      returns (gs': seq<System>, ls': seq<Label>)
    requires 0 < sid < SIDS && limit >= MAX_PLAINTEXT
    requires Reaches(gs, ls, Quiet(sid, limit, Carried(up, down, false, false)))
    ensures Reaches(gs', ls', Quiet(sid, limit, Carried(up + [Msg([], true)], down, true, false)))
  {
    hide Reaches, Flatten;
    var v, m := Quiet(sid, limit, Carried(up, down, false, false)), Msg([], true);
    gs', ls' := Extend(gs, ls, v, VTask(UTask(UserEof)));
    var v1 := ViewStep(v, VTask(UTask(UserEof)));
    gs', ls' := Extend(gs', ls', v1, VTask(UTask(UserFin)));
    var v2 := ViewStep(v1, VTask(UTask(UserFin)));
    gs', ls' := Extend(gs', ls', v2, VUpWrite);
    var v3 := v.(upWire := [Frame(Close, true, false, sid, [])],
                 s := v.s.(u := v.s.u.(pump := UpDone, sent := up + [m])));
    assert ViewStep(v2, VUpWrite) == v3;
    gs', ls' := UpArrives(gs', ls', v3, m);
    FlattenAppend(up, m);
    assert Flatten(up) + [] == Flatten(up);
  }

  /** A message on its way down, from the wire to the user. */
  lemma DownArrives(gs: seq<System>, ls: seq<Label>, v: View, m: Msg) returns (gs': seq<System>, ls': seq<Label>)
    requires Sound(v) && v.cmd == [] && v.sink == [] && v.cli.None? && v.s.d.route && v.s.d.rx && v.s.d.inq == []
    requires v.s.d.pump.DrainRun? && |v.s.u.tq| < TCP_ROUTE_CAP && v.s.d.end.NotEnded? && Reaches(gs, ls, v)
    requires v.downWire == [Frame(Data, m.fin, false, v.sid, m.data)]
    ensures
      var d := v.s.d;
      Reaches(gs', ls', v.(downWire := [], s := v.s.(d := d.(
        queued := d.queued + [m], taken := d.taken + [m], userGot := d.userGot + m.data,
        route := !m.fin, end := if m.fin then ByFin else NotEnded))))
  {
    hide Reaches;
    gs', ls' := Extend(gs, ls, v, VDownRoute);
    var v1 := v.(downWire := [], cli := Some(m));
    assert ViewStep(v, VDownRoute) == v1;
    gs', ls' := Extend(gs', ls', v1, VDownDeliver);
    var v2 := v.(downWire := [], s := v.s.(d := v.s.d.(inq := [m], queued := v.s.d.queued + [m],
                   route := !m.fin, end := if m.fin then ByFin else NotEnded)));
    assert ViewStep(v1, VDownDeliver) == v2;
    gs', ls' := Extend(gs', ls', v2, VTask(DTask(UserTake)));
    assert ViewStep(v2, VTask(DTask(UserTake))).s.d.inq == v.s.d.inq;
  }

  lemma DownChunk(gs: seq<System>, ls: seq<Label>, sid: Sid, limit: nat, up: seq<Msg>, down: seq<Msg>, c: seq<byte>)
      returns (gs': seq<System>, ls': seq<Label>)
    requires 0 < sid < SIDS && limit >= MAX_PLAINTEXT && 1 <= |c| <= READ_BUF
    requires Reaches(gs, ls, Quiet(sid, limit, Carried(up, down, true, false)))
    ensures Reaches(gs', ls', Quiet(sid, limit, Carried(up, down + [Msg(c, false)], true, false)))
  {
    hide Reaches, Flatten;
    var v, m := Quiet(sid, limit, Carried(up, down, true, false)), Msg(c, false);
    gs', ls' := Extend(gs, ls, v, VTask(DTask(TargetRead(c))));
    var v1 := ViewStep(v, VTask(DTask(TargetRead(c))));
    gs', ls' := Extend(gs', ls', v1, VTask(DTask(TargetSend)));
    var v2 := ViewStep(v1, VTask(DTask(TargetSend)));
    gs', ls' := Extend(gs', ls', v2, VDownWrite);
    var v3 := v.(downWire := [Frame(Data, false, false, sid, c)],
                 s := v.s.(d := v.s.d.(targetSent := v.s.d.targetSent + c, sent := down + [m])));
    assert ViewStep(v2, VDownWrite) == v3;
    gs', ls' := DownArrives(gs', ls', v3, m);
    FlattenAppend(down, m);
  }

  lemma DownFin(gs: seq<System>, ls: seq<Label>, sid: Sid, limit: nat, up: seq<Msg>, down: seq<Msg>)
      returns (gs': seq<System>, ls': seq<Label>)
    requires 0 < sid < SIDS && limit >= MAX_PLAINTEXT
    requires Reaches(gs, ls, Quiet(sid, limit, Carried(up, down, true, false)))
    ensures Reaches(gs', ls', Quiet(sid, limit, Carried(up, down + [Msg([], true)], true, true)))
  {
    hide Reaches, Flatten;
    var v, m := Quiet(sid, limit, Carried(up, down, true, false)), Msg([], true);
    gs', ls' := Extend(gs, ls, v, VTask(DTask(TargetEof)));
    var v1 := ViewStep(v, VTask(DTask(TargetEof)));
    gs', ls' := Extend(gs', ls', v1, VTask(DTask(FinSend)));
    var v2 := ViewStep(v1, VTask(DTask(FinSend)));
    gs', ls' := Extend(gs', ls', v2, VDownWrite);
    var v3 := v.(downWire := [Frame(Data, true, false, sid, [])],
                 s := v.s.(d := v.s.d.(out := OutDrop, sent := down + [m])));
    assert ViewStep(v2, VDownWrite) == v3;
    gs', ls' := DownArrives(gs', ls', v3, m);
    FlattenAppend(down, m);
    assert Flatten(down) + [] == Flatten(down);
    var v4 := Quiet(sid, limit, Carried(up, down + [m], true, true)).(
      s := Carried(up, down + [m], true, true).(d := Carried(up, down + [m], true, true).d.(pump := DrainRun, rx := true)));
    gs', ls' := Extend(gs', ls', v4, VTask(DTask(UserClosed)));
  }

  // ------------------------------------------------------------------------
  // Whole streams
  // ------------------------------------------------------------------------

  predicate Chunks(cs: seq<seq<byte>>) { forall i :: 0 <= i < |cs| ==> 1 <= |cs[i]| <= MAX_PLAINTEXT }

  function MsgsOfChunks(cs: seq<seq<byte>>): seq<Msg> {
    if cs == [] then [] else MsgsOfChunks(cs[..|cs| - 1]) + [Msg(cs[|cs| - 1], false)]
  }

  function Stream(cs: seq<seq<byte>>): seq<byte> {
    if cs == [] then [] else Stream(cs[..|cs| - 1]) + cs[|cs| - 1]
  }

  lemma {:induction false} ChunksFlatten(cs: seq<seq<byte>>)
    ensures Flatten(MsgsOfChunks(cs)) == Stream(cs)
  {
    if cs != [] {
      ChunksFlatten(cs[..|cs| - 1]);
      FlattenAppend(MsgsOfChunks(cs[..|cs| - 1]), Msg(cs[|cs| - 1], false));
    }
  }

  lemma {:induction false} UpChunks(sid: Sid, limit: nat, cs: seq<seq<byte>>) returns (gs: seq<System>, ls: seq<Label>)
    requires 0 < sid < SIDS && limit >= MAX_PLAINTEXT && Chunks(cs)
    ensures Reaches(gs, ls, Quiet(sid, limit, Carried(MsgsOfChunks(cs), [], false, false)))
  {
    hide Reaches, Carried;
    if cs == [] {
      gs, ls := Opens(sid, limit);
    } else {
      gs, ls := UpChunks(sid, limit, cs[..|cs| - 1]);
      gs, ls := UpChunk(gs, ls, sid, limit, MsgsOfChunks(cs[..|cs| - 1]), [], cs[|cs| - 1]);
    }
  }

  lemma {:induction false} DownChunks(gs: seq<System>, ls: seq<Label>, sid: Sid, limit: nat, up: seq<Msg>, cs: seq<seq<byte>>)
      returns (gs': seq<System>, ls': seq<Label>)
    requires 0 < sid < SIDS && limit >= MAX_PLAINTEXT && Chunks(cs)
    requires Reaches(gs, ls, Quiet(sid, limit, Carried(up, [], true, false)))
    ensures Reaches(gs', ls', Quiet(sid, limit, Carried(up, MsgsOfChunks(cs), true, false)))
    decreases |cs|
  {
    hide Reaches, Carried;
    if cs == [] {
      gs', ls' := gs, ls;
    } else {
      gs', ls' := DownChunks(gs, ls, sid, limit, up, cs[..|cs| - 1]);
      gs', ls' := DownChunk(gs', ls', sid, limit, up, MsgsOfChunks(cs[..|cs| - 1]), cs[|cs| - 1]);
    }
  }

  /** For every two streams, in any chunks, some run carries both in full and closes both ends cleanly. */
  lemma EveryStreamArrives(sid: Sid, limit: nat, ups: seq<seq<byte>>, downs: seq<seq<byte>>)
      returns (gs: seq<System>, ls: seq<Label>)
    requires 0 < sid < SIDS && limit >= MAX_PLAINTEXT && Chunks(ups) && Chunks(downs)
    ensures Run(gs, ls)
    ensures
      var s := Of(gs[|ls|], sid);
      && s.u.userSent == s.u.targetGot == Stream(ups) && s.u.targetEof
      && s.d.targetSent == s.d.userGot == Stream(downs) && s.d.end.ByFin? && s.d.pump == DrainDone(true)
  {
    var up, down := MsgsOfChunks(ups), MsgsOfChunks(downs);
    hide Flatten, MsgsOfChunks, Stream;
    gs, ls := UpChunks(sid, limit, ups);
    gs, ls := UpFin(gs, ls, sid, limit, up, []);
    gs, ls := DownChunks(gs, ls, sid, limit, up + [Msg([], true)], downs);
    gs, ls := DownFin(gs, ls, sid, limit, up + [Msg([], true)], down);
    ChunksFlatten(ups);
    ChunksFlatten(downs);
    FlattenAppend(up, Msg([], true));
    FlattenAppend(down, Msg([], true));
  }
}
