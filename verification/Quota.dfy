/**
  Session admission and the global session quota (src/server/state.rs, src/server/hub.rs):
  a compare-and-swap counter, an atomic registration map per connection and every release
  point, as steps of any number of tasks on any number of connections.
*/
module Quota {
  import opened Counting

  const MAX_MUX_TASKS := 32

  type Task = nat
  type ConnId = nat

  /** A registered session: its connection object and its sid on that connection. */
  datatype Handle = Handle(conn: ConnId, sid: nat)

  /** Where one task stands between two atomic operations; n numbers the registration it belongs to. */
  datatype Phase =
    | Idle
    | Checked(h: Handle)             // the sid was not registered
    | Counted(h: Handle)             // the connection was below its cap
    | Loaded(h: Handle, cur: int)    // `try_acquire_session` has read the counter
    | Acquired(h: Handle)            // compare-exchange succeeded
    | Serving(h: Handle, n: nat)     // the worker has registered and is dialing
    | Owner(h: Handle, n: nat)       // the pump (or UDP watcher) that must drop the session when it ends
    | Helper(h: Handle)              // the other pump of a WebTransport stream, which may drop it
    | Releasing                      // must still call `release_session`

  datatype System = System(
    active: int, maxSessions: nat, maxPerConn: nat,
    registered: set<Handle>, tasks: map<Task, Phase>,
    // who registered each handle last, counting registrations
    last: map<Handle, nat>, serial: nat,
    // mode-A connections; connections accepted; in the table; with their frame loop ended
    muxed: set<ConnId>, accepted: set<ConnId>, table: set<ConnId>, closed: set<ConnId>,
    // handles whose own worker was aborted while dialing and that nobody has dropped
    orphans: set<Handle>)

  datatype Label =
    | Begin(t: Task, h: Handle) | CheckCount(t: Task) | Load(t: Task) | Cas(t: Task) | Register(t: Task)
    | HandOver(t: Task)              // the dial succeeded: the pumps take over
    | Assist(t: Task, owner: Task)   // the second pump of a WebTransport stream starts
    | Retire(t: Task)                // and ends without dropping (half-close)
    | Abort(t: Task)                 // the frame loop has ended and aborts a dialing worker
    | DropOwn(t: Task)               // failed dial, ended pump, watcher: drops its own sid
    | DropByFrame(t: Task, h: Handle)   // Close, RST, Error or a failed feed, in the frame loop
    | DropByReaper(t: Task, h: Handle)  // `reap_idle` walks the table
    | Release(t: Task)
    | Accept(c: ConnId) | CloseLoop(c: ConnId) | RemoveConn(c: ConnId)

  predicate ByTask(l: Label) { !l.Accept? && !l.CloseLoop? && !l.RemoveConn? }

  predicate Drops(l: Label) { l.DropOwn? || l.DropByFrame? || l.DropByReaper? }

  function PhaseOf(q: System, t: Task): Phase {
    if t in q.tasks then q.tasks[t] else Idle
  }

  function On(q: System, c: ConnId): set<Handle> {
    set h | h in q.registered && h.conn == c
  }

  predicate IsAcquired(p: Phase) { p.Acquired? }
  predicate IsReleasing(p: Phase) { p.Releasing? }

  /** Workers of connection c, admitting or dialing; on a muxed connection each holds a permit. */
  function Working(c: ConnId): Phase -> bool {
    (p: Phase) => (p.Checked? || p.Counted? || p.Loaded? || p.Acquired? || p.Serving?) && p.h.conn == c
  }

  /** Tasks of connection c past the session-count check and not yet registered. */
  function InWindow(c: ConnId): Phase -> bool {
    (p: Phase) => (p.Counted? || p.Loaded? || p.Acquired?) && p.h.conn == c
  }

  /** The handle a dropping step removes. */
  function Dropped(q: System, l: Label): Handle
    requires Drops(l) && (l.DropOwn? ==> var p := PhaseOf(q, l.t); p.Serving? || p.Owner? || p.Helper?)
  {
    if l.DropOwn? then PhaseOf(q, l.t).h else l.h
  }

  predicate StepOk(q: System, l: Label) {
    match l
    case Begin(t, h) =>
      && PhaseOf(q, t).Idle? && h.conn in q.accepted
      && (h.conn in q.muxed ==> h.conn !in q.closed && Count(q.tasks, Working(h.conn)) < MAX_MUX_TASKS)
    case CheckCount(t) => PhaseOf(q, t).Checked?
    case Load(t) => PhaseOf(q, t).Counted?
    case Cas(t) => PhaseOf(q, t).Loaded?
    case Register(t) => PhaseOf(q, t).Acquired?
    case HandOver(t) => PhaseOf(q, t).Serving?
    case Assist(t, o) => PhaseOf(q, t).Idle? && PhaseOf(q, o).Owner? && PhaseOf(q, o).h.conn !in q.muxed
    case Retire(t) => PhaseOf(q, t).Helper?
    case Abort(t) => var p := PhaseOf(q, t); p.Serving? && p.h.conn in q.muxed && p.h.conn in q.closed
    case DropOwn(t) => var p := PhaseOf(q, t); p.Serving? || p.Owner? || p.Helper?
    case DropByFrame(t, h) => PhaseOf(q, t).Idle? && h.conn !in q.closed
    case DropByReaper(t, h) => PhaseOf(q, t).Idle? && h.conn in q.table
    case Release(t) => PhaseOf(q, t).Releasing?
    case Accept(c) => c !in q.accepted
    case CloseLoop(c) => c in q.accepted
    case RemoveConn(_) => true
  }

  function Moved(q: System, t: Task, p: Phase): System {
    q.(tasks := q.tasks[t := p])
  }

  function Step(q: System, l: Label): System
    requires StepOk(q, l)
  {
    match l
    case Begin(t, h) => Moved(q, t, if h in q.registered then Idle else Checked(h))
    case CheckCount(t) =>
      var h := PhaseOf(q, t).h;
      Moved(q, t, if |On(q, h.conn)| >= q.maxPerConn then Idle else Counted(h))
    case Load(t) =>
      Moved(q, t, if q.active >= q.maxSessions then Idle else Loaded(PhaseOf(q, t).h, q.active))
    case Cas(t) =>
      var p := PhaseOf(q, t);
      if q.active == p.cur then Moved(q, t, Acquired(p.h)).(active := q.active + 1)
      else Moved(q, t, Counted(p.h))
    case Register(t) =>
      var h := PhaseOf(q, t).h;
      if h in q.registered then Moved(q, t, Releasing)
      else Moved(q, t, Serving(h, q.serial)).(
        registered := q.registered + {h}, last := q.last[h := q.serial], serial := q.serial + 1)
    case HandOver(t) => Moved(q, t, Owner(PhaseOf(q, t).h, PhaseOf(q, t).n))
    case Assist(t, o) => Moved(q, t, Helper(PhaseOf(q, o).h))
    case Retire(t) => Moved(q, t, Idle)
    case Abort(t) =>
      var p := PhaseOf(q, t);
      var own := p.h in q.registered && p.h in q.last && q.last[p.h] == p.n;
      Moved(q, t, Idle).(orphans := if own then q.orphans + {p.h} else q.orphans)
    case Release(t) => Moved(q, t, Idle).(active := q.active - 1)
    case Accept(c) => q.(accepted := q.accepted + {c}, table := q.table + {c})
    case CloseLoop(c) => q.(closed := q.closed + {c})
    case RemoveConn(c) => q.(table := q.table - {c})
    case _ =>
      var h := Dropped(q, l);
      if h in q.registered then
        Moved(q, l.t, Releasing).(registered := q.registered - {h}, orphans := q.orphans - {h})
      else Moved(q, l.t, Idle)
  }

  predicate Init(q: System) {
    && q.active == 0 && q.registered == {} && q.tasks == map[] && q.orphans == {}
    && q.accepted == {} && q.table == {} && q.closed == {}
  }

  predicate Run(qs: seq<System>, ls: seq<Label>) {
    && |qs| == |ls| + 1
    && Init(qs[0])
    && forall i :: 0 <= i < |ls| ==> StepOk(qs[i], ls[i]) && qs[i + 1] == Step(qs[i], ls[i])
  }

  // ------------------------------------------------------------------------
  // Conservation
  // ------------------------------------------------------------------------

  /** The counter is exactly the handles registered, about to be registered, or not yet released. */
  predicate Conserved(q: System) {
    && q.active == |q.registered| + Count(q.tasks, IsAcquired) + Count(q.tasks, IsReleasing)
    && q.active <= q.maxSessions
    && LoadedBelow(q.tasks, q.maxSessions)
  }

  /** Whoever has read the counter read it below the cap. */
  predicate LoadedBelow(ts: map<Task, Phase>, max: nat) {
    forall t :: t in ts && ts[t].Loaded? ==> ts[t].cur < max
  }

  lemma LoadedUpdated(ts: map<Task, Phase>, max: nat, t: Task, p: Phase)
    requires LoadedBelow(ts, max) && (p.Loaded? ==> p.cur < max)
    ensures LoadedBelow(ts[t := p], max)
  {
  }

  /** A step moves one task; these are the counts afterwards. */
  lemma CountsAfter(q: System, l: Label)
    requires StepOk(q, l) && ByTask(l)
    ensures
      var p, p', ts := PhaseOf(q, l.t), PhaseOf(Step(q, l), l.t), Step(q, l).tasks;
      && ts == q.tasks[l.t := p']
      && Count(ts, IsAcquired) == Count(q.tasks, IsAcquired) - One(p.Acquired?) + One(p'.Acquired?)
      && Count(ts, IsReleasing) == Count(q.tasks, IsReleasing) - One(p.Releasing?) + One(p'.Releasing?)
  {
    hide Count;
    var p' := PhaseOf(Step(q, l), l.t);
    CountUpdate(q.tasks, l.t, p', IsAcquired);
    CountUpdate(q.tasks, l.t, p', IsReleasing);
  }

  lemma LoadedKept(q: System, l: Label)
    requires StepOk(q, l) && ByTask(l) && LoadedBelow(q.tasks, q.maxSessions)
    ensures Step(q, l).maxSessions == q.maxSessions && LoadedBelow(Step(q, l).tasks, q.maxSessions)
  {
    hide Count, LoadedBelow;
    CountsAfter(q, l);
    LoadedUpdated(q.tasks, q.maxSessions, l.t, PhaseOf(Step(q, l), l.t));
  }

  lemma ConservedByQuiet(q: System, l: Label)
    requires Conserved(q) && StepOk(q, l) && ByTask(l) && !l.Cas? && !l.Register? && !Drops(l)
    ensures Conserved(Step(q, l))
  {
    hide Count, On, LoadedBelow;
    CountsAfter(q, l);
    LoadedKept(q, l);
  }

  lemma ConservedByCas(q: System, l: Label)
    requires Conserved(q) && StepOk(q, l) && l.Cas?
    ensures Conserved(Step(q, l))
  {
    LoadedKept(q, l);
    assert PhaseOf(q, l.t) == q.tasks[l.t] && PhaseOf(q, l.t).cur < q.maxSessions;
    hide Count, LoadedBelow;
    CountsAfter(q, l);
  }

  lemma RegisteredAfter(q: System, l: Label)
    requires StepOk(q, l) && (l.Register? || Drops(l))
    ensures
      var p, p', n, n' := PhaseOf(q, l.t), PhaseOf(Step(q, l), l.t), |q.registered|, |Step(q, l).registered|;
      && Step(q, l).active == q.active && !p'.Acquired? && !p'.Loaded?
      && n' == n + One(p'.Serving?) - One(Drops(l) && p'.Releasing?)
      && (l.Register? ==> p.Acquired? && One(p'.Serving?) + One(p'.Releasing?) == 1)
      && (Drops(l) ==> !p.Acquired? && !p.Releasing? && !p'.Serving?)
  {
    hide Count;
    if Drops(l) {
      var h := Dropped(q, l);
      if h in q.registered { assert q.registered == (q.registered - {h}) + {h}; }
    }
  }

  lemma ConservedByTable(q: System, l: Label)
    requires Conserved(q) && StepOk(q, l) && (l.Register? || Drops(l))
    ensures Conserved(Step(q, l))
  {
    CountsAfter(q, l);
    RegisteredAfter(q, l);
    LoadedKept(q, l);
    hide Count, Step, StepOk, PhaseOf, LoadedBelow;
  }

  lemma ConservedKept(q: System, l: Label)
    requires Conserved(q) && StepOk(q, l)
    ensures Conserved(Step(q, l))
  {
    if l.Cas? {
      ConservedByCas(q, l);
    } else if l.Register? || Drops(l) {
      ConservedByTable(q, l);
    } else if ByTask(l) {
      ConservedByQuiet(q, l);
    }
  }

  lemma {:induction false} RunConserves(qs: seq<System>, ls: seq<Label>)
    requires Run(qs, ls)
    ensures Conserved(qs[|ls|])
    decreases |ls|
  {
    if ls == [] {
      CountNone(qs[0].tasks, IsAcquired);
      CountNone(qs[0].tasks, IsReleasing);
    } else {
      var n := |ls| - 1;
      assert qs[..n + 1][n] == qs[n];
      RunConserves(qs[..n + 1], ls[..n]);
      ConservedKept(qs[n], ls[n]);
    }
  }

  /**
    Quota conservation: in every run the counter is the registered handles plus the acquisitions
    not yet registered plus the removals not yet released; it stays within [0, max_sessions],
    and a release never finds it at zero.
  */
  lemma QuotaConservation(qs: seq<System>, ls: seq<Label>)
    requires Run(qs, ls)
    ensures
      var q := qs[|ls|];
      && q.active == |q.registered| + Count(q.tasks, IsAcquired) + Count(q.tasks, IsReleasing)
      && 0 <= q.active <= q.maxSessions
      && (forall t: Task :: StepOk(q, Release(t)) ==> q.active >= 1)
      && ((forall t: Task :: PhaseOf(q, t).Idle?) ==> q.active == |q.registered|)
  {
    RunConserves(qs, ls);
    var q := qs[|ls|];
    forall t: Task | StepOk(q, Release(t))
      ensures q.active >= 1
    {
      CountSome(q.tasks, t, IsReleasing);
    }
    if forall t: Task :: PhaseOf(q, t).Idle? {
      assert forall t :: t in q.tasks ==> PhaseOf(q, t) == q.tasks[t];
      CountNone(q.tasks, IsAcquired);
      CountNone(q.tasks, IsReleasing);
    }
  }

  // ------------------------------------------------------------------------
  // The per-connection cap
  // ------------------------------------------------------------------------

  lemma CapsFixed(qs: seq<System>, ls: seq<Label>, i: nat)
    requires Run(qs, ls) && i <= |ls|
    ensures qs[i].maxPerConn == qs[0].maxPerConn && qs[i].muxed == qs[0].muxed
  {
    if i > 0 { CapsFixed(qs, ls, i - 1); }
  }

  /** Sessions of c, and those that can still become sessions without another check. */
  function Committed(q: System, c: ConnId): nat {
    |On(q, c)| + Count(q.tasks, InWindow(c))
  }

  lemma OnAfter(q: System, l: Label, c: ConnId)
    requires StepOk(q, l)
    ensures |On(Step(q, l), c)| <= |On(q, c)| + One(l.Register? && PhaseOf(q, l.t).h.conn == c)
    ensures l.CheckCount? ==> On(Step(q, l), c) == On(q, c)
  {
    hide Count, PhaseOf;
    var q' := Step(q, l);
    if l.Register? && q'.registered != q.registered {
      var h := PhaseOf(q, l.t).h;
      assert On(q', c) == if h.conn == c then On(q, c) + {h} else On(q, c);
    } else {
      CardinalityMonotone(On(q', c), On(q, c));
      if l.CheckCount? { assert q'.registered == q.registered; }
    }
  }

  lemma WindowAfter(q: System, l: Label, c: ConnId)
    requires StepOk(q, l)
    ensures
      var w, w' := Count(q.tasks, InWindow(c)), Count(Step(q, l).tasks, InWindow(c));
      && (l.Register? ==> w' == w - One(PhaseOf(q, l.t).h.conn == c))
      && ((l.CheckCount? && |On(q, c)| < q.maxPerConn) || w' <= w)
  {
    if ByTask(l) {
      var q' := Step(q, l);
      assert PhaseOf(q', l.t) == q'.tasks[l.t] && q'.tasks == q.tasks[l.t := PhaseOf(q', l.t)];
      hide Count;
      CountUpdate(q.tasks, l.t, PhaseOf(q', l.t), InWindow(c));
    }
  }

  lemma CommittedStep(q: System, l: Label, c: ConnId)
    requires StepOk(q, l)
    ensures
      || Committed(Step(q, l), c) <= Committed(q, c)
      || (l.CheckCount? && |On(Step(q, l), c)| < q.maxPerConn)
  {
    hide Count, On, Step;
    OnAfter(q, l, c);
    WindowAfter(q, l, c);
  }

  /**
    Bounded overshoot: when at most k tasks are ever between the session-count check and the
    registration, a connection never holds more than max_per_conn - 1 + k sessions.
  */
  lemma {:induction false} BoundedOvershoot(qs: seq<System>, ls: seq<Label>, c: ConnId, k: nat)
    requires Run(qs, ls) && qs[0].maxPerConn >= 1
    requires forall i :: 0 <= i <= |ls| ==> Count(qs[i].tasks, InWindow(c)) <= k
    ensures Committed(qs[|ls|], c) <= qs[0].maxPerConn - 1 + k
    ensures |On(qs[|ls|], c)| <= qs[0].maxPerConn - 1 + k
    decreases |ls|
  {
    if ls == [] {
      assert On(qs[0], c) == {};
    } else {
      var n := |ls| - 1;
      var before := qs[..n + 1];
      assert before[n] == qs[n] && forall i :: 0 <= i <= n ==> before[i] == qs[i];
      BoundedOvershoot(before, ls[..n], c, k);
      CommittedStep(qs[n], ls[n], c);
      CapsFixed(qs, ls, n);
    }
  }

  lemma PermitsKept(q: System, l: Label, c: ConnId)
    requires StepOk(q, l) && c in q.muxed && Count(q.tasks, Working(c)) <= MAX_MUX_TASKS
    ensures Count(Step(q, l).tasks, Working(c)) <= MAX_MUX_TASKS
  {
    if ByTask(l) {
      CountsAfter(q, l);
      var p, p' := PhaseOf(q, l.t), PhaseOf(Step(q, l), l.t);
      assert l.t in q.tasks ==> p == q.tasks[l.t];
      assert Working(c)(p') ==> Working(c)(p) || (l.Begin? && l.h.conn == c);
      hide Count, Step;
      CountUpdate(q.tasks, l.t, p', Working(c));
    }
  }

  lemma {:induction false} PermitsBound(qs: seq<System>, ls: seq<Label>, c: ConnId, i: nat)
    requires Run(qs, ls) && c in qs[0].muxed && i <= |ls|
    ensures Count(qs[i].tasks, Working(c)) <= MAX_MUX_TASKS
  {
    if i == 0 {
      CountNone(qs[0].tasks, Working(c));
    } else {
      hide Count, Step, StepOk;
      PermitsBound(qs, ls, c, i - 1);
      CapsFixed(qs, ls, i - 1);
      assert StepOk(qs[i - 1], ls[i - 1]) && qs[i] == Step(qs[i - 1], ls[i - 1]);
      PermitsKept(qs[i - 1], ls[i - 1], c);
    }
  }

  /** On a mode-A connection the 32 worker permits bound the window, so the cap overshoots by at most 31. */
  lemma MuxedOvershoot(qs: seq<System>, ls: seq<Label>, c: ConnId)
    requires Run(qs, ls) && c in qs[0].muxed && qs[0].maxPerConn >= 1
    ensures |On(qs[|ls|], c)| <= qs[0].maxPerConn - 1 + MAX_MUX_TASKS
  {
    forall i | 0 <= i <= |ls|
      ensures Count(qs[i].tasks, InWindow(c)) <= MAX_MUX_TASKS
    {
      PermitsBound(qs, ls, c, i);
      CountWeaker(qs[i].tasks, InWindow(c), Working(c));
    }
    BoundedOvershoot(qs, ls, c, MAX_MUX_TASKS);
  }
}
