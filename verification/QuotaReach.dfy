/** The bounds and the leak of the session quota are reached: runs that attain them. */
module QuotaReach {
  import opened Counting
  import opened Quota
  import opened QuotaLeak

  function HandlesBelow(n: nat): set<Handle> { set i: nat | i < n :: Handle(0, i) }

  function NumbersBelow(n: nat): map<Handle, nat> { map i: nat | i < n :: Handle(0, i) := i }

  /** Caps, and whether connection 0 is a mode-A channel. */
  datatype Setting = Setting(maxSessions: nat, maxPerConn: nat, mux: bool)

  /** On connection 0, sessions 0 .. i-1 are registered and owned, and tasks i .. j-1 are past the check. */
  function Crowd(s: Setting, i: nat, j: nat): System {
    System(i, s.maxSessions, s.maxPerConn, HandlesBelow(i),
           map t: nat | t < j :: if t < i then Owner(Handle(0, t), t) else Counted(Handle(0, t)),
           NumbersBelow(i), i, if s.mux then {0} else {}, {0}, {0}, {}, {})
  }

  lemma {:induction false} HandlesBelowSize(n: nat)
    ensures |HandlesBelow(n)| == n
  {
    if n > 0 {
      HandlesBelowSize(n - 1);
      assert HandlesBelow(n) == HandlesBelow(n - 1) + {Handle(0, n - 1)};
    }
  }

  /** At most k tasks are ever in the window of connection 0. */
  predicate Thin(qs: seq<System>, k: nat) {
    forall x :: 0 <= x < |qs| ==> Count(qs[x].tasks, InWindow(0)) <= k
  }

  /** The run has got to q, thinly. */
  predicate Reaches(qs: seq<System>, ls: seq<Label>, q: System, k: nat) {
    Run(qs, ls) && qs[|ls|] == q && Thin(qs, k)
  }

  lemma Extend(qs: seq<System>, ls: seq<Label>, q: System, l: Label, k: nat)
      returns (qs': seq<System>, ls': seq<Label>)
    requires Reaches(qs, ls, q, k) && StepOk(q, l) && Count(Step(q, l).tasks, InWindow(0)) <= k
    ensures Reaches(qs', ls', Step(q, l), k)
  {
    hide StepOk, Step, Init, Count;
    qs', ls' := qs + [Step(q, l)], ls + [l];
  }

  // ------------------------------------------------------------------------
  // Single steps that succeed
  // ------------------------------------------------------------------------

  lemma Begins(q: System, t: Task, h: Handle)
    requires PhaseOf(q, t).Idle? && h.conn in q.accepted && h !in q.registered && h.conn !in q.closed
    requires h.conn in q.muxed ==> Count(q.tasks, Working(h.conn)) < MAX_MUX_TASKS
    ensures StepOk(q, Begin(t, h)) && Step(q, Begin(t, h)) == Moved(q, t, Checked(h))
  {
  }

  lemma Passes(q: System, t: Task, h: Handle)
    requires PhaseOf(q, t) == Checked(h) && |On(q, h.conn)| < q.maxPerConn
    ensures StepOk(q, CheckCount(t)) && Step(q, CheckCount(t)) == Moved(q, t, Counted(h))
  {
  }

  lemma Loads(q: System, t: Task, h: Handle)
    requires PhaseOf(q, t) == Counted(h) && q.active < q.maxSessions
    ensures StepOk(q, Load(t)) && Step(q, Load(t)) == Moved(q, t, Loaded(h, q.active))
  {
  }

  lemma Swaps(q: System, t: Task, h: Handle)
    requires PhaseOf(q, t) == Loaded(h, q.active)
    ensures StepOk(q, Cas(t)) && Step(q, Cas(t)) == Moved(q, t, Acquired(h)).(active := q.active + 1)
  {
  }

  lemma Registers(q: System, t: Task, h: Handle)
    requires PhaseOf(q, t) == Acquired(h) && h !in q.registered
    ensures StepOk(q, Register(t))
    ensures Step(q, Register(t)) == Moved(q, t, Serving(h, q.serial)).(
      registered := q.registered + {h}, last := q.last[h := q.serial], serial := q.serial + 1)
  {
  }

  lemma HandsOver(q: System, t: Task, h: Handle, n: nat)
    requires PhaseOf(q, t) == Serving(h, n)
    ensures StepOk(q, HandOver(t)) && Step(q, HandOver(t)) == Moved(q, t, Owner(h, n))
  {
  }

  lemma Aborts(q: System, t: Task, h: Handle, n: nat)
    requires PhaseOf(q, t) == Serving(h, n) && h.conn in q.muxed && h.conn in q.closed
    requires h in q.registered && h in q.last && q.last[h] == n
    ensures StepOk(q, Abort(t)) && Step(q, Abort(t)) == Moved(q, t, Idle).(orphans := q.orphans + {h})
  {
  }

  lemma Closes(q: System, c: ConnId)
    requires c in q.accepted
    ensures StepOk(q, CloseLoop(c)) && Step(q, CloseLoop(c)) == q.(closed := q.closed + {c})
    ensures StepOk(q, RemoveConn(c)) && Step(q, RemoveConn(c)) == q.(table := q.table - {c})
  {
  }

  // ------------------------------------------------------------------------
  // Paths
  // ------------------------------------------------------------------------

  lemma Start(s: Setting, k: nat) returns (qs: seq<System>, ls: seq<Label>)
    ensures Reaches(qs, ls, Crowd(s, 0, 0), k)
    ensures Count(Crowd(s, 0, 0).tasks, InWindow(0)) == 0
  {
    var q := Crowd(s, 0, 0).(accepted := {}, table := {});
    CountNone(q.tasks, InWindow(0));
    qs, ls := [q], [];
    assert Step(q, Accept(0)) == Crowd(s, 0, 0);
    qs, ls := Extend(qs, ls, q, Accept(0), k);
  }

  /** In a crowd the working tasks are those in the window. */
  lemma WorkingIsWindow(s: Setting, i: nat, j: nat)
    requires i <= j
    ensures Count(Crowd(s, i, j).tasks, Working(0)) == Count(Crowd(s, i, j).tasks, InWindow(0))
  {
    var ts := Crowd(s, i, j).tasks;
    assert Where(ts, Working(0)) == Where(ts, InWindow(0));
  }

  lemma EnterWindow(qs: seq<System>, ls: seq<Label>, s: Setting, i: nat, j: nat, k: nat)
      returns (qs': seq<System>, ls': seq<Label>)
    requires i <= j && i < s.maxPerConn && Reaches(qs, ls, Crowd(s, i, j), k) && (s.mux ==> k <= MAX_MUX_TASKS)
    requires Count(Crowd(s, i, j).tasks, InWindow(0)) == j - i < k
    ensures Reaches(qs', ls', Crowd(s, i, j + 1), k)
    ensures Count(Crowd(s, i, j + 1).tasks, InWindow(0)) == j + 1 - i
  {
    WorkingIsWindow(s, i, j);
    NextIsFree(s, i, j);
    CrowdEnters(s, i, j);
    CrowdHolds(s, i, j);
    hide Reaches, Count, Step, StepOk, Crowd, On;
    var h, q := Handle(0, j), Crowd(s, i, j);
    var q1 := Moved(q, j, Checked(h));
    Begins(q, j, h);
    CountUpdate(q.tasks, j, Checked(h), InWindow(0));
    qs', ls' := Extend(qs, ls, q, Begin(j, h), k);
    OnMoved(q, j, Checked(h), 0);
    Passes(q1, j, h);
    CountUpdate(q1.tasks, j, Counted(h), InWindow(0));
    qs', ls' := Extend(qs', ls', q1, CheckCount(j), k);
  }

  lemma NextIsFree(s: Setting, i: nat, j: nat)
    requires i <= j
    ensures
      var q, h := Crowd(s, i, j), Handle(0, j);
      && PhaseOf(q, j).Idle? && j !in q.tasks && h !in q.registered && 0 in q.accepted && 0 !in q.closed
      && q.maxPerConn == s.maxPerConn && (0 in q.muxed <==> s.mux)
  {
  }

  lemma CrowdEnters(s: Setting, i: nat, j: nat)
    requires i <= j
    ensures
      var q, h := Crowd(s, i, j), Handle(0, j);
      Moved(Moved(q, j, Checked(h)), j, Counted(h)) == Crowd(s, i, j + 1)
  {
    var q, h := Crowd(s, i, j), Handle(0, j);
    assert q.tasks[j := Checked(h)][j := Counted(h)] == Crowd(s, i, j + 1).tasks;
  }

  lemma OnMoved(q: System, t: Task, p: Phase, c: ConnId)
    ensures On(Moved(q, t, p), c) == On(q, c)
  {
  }

  /** The state after task i has registered. */
  function Registered(s: Setting, i: nat, j: nat): System {
    var h := Handle(0, i);
    Moved(Crowd(s, i, j), i, Serving(h, i)).(
      active := i + 1, registered := HandlesBelow(i) + {h}, last := NumbersBelow(i)[h := i], serial := i + 1)
  }

  lemma RegisterNext(qs: seq<System>, ls: seq<Label>, s: Setting, i: nat, j: nat, k: nat)
      returns (qs': seq<System>, ls': seq<Label>)
    requires i < j && i < s.maxSessions && Reaches(qs, ls, Crowd(s, i, j), k)
    requires Count(Crowd(s, i, j).tasks, InWindow(0)) == j - i <= k
    ensures Reaches(qs', ls', Registered(s, i, j), k)
    ensures Count(Registered(s, i, j).tasks, InWindow(0)) == j - i - 1
  {
    hide Reaches, Count, Step, StepOk;
    var h, q := Handle(0, i), Crowd(s, i, j);
    Loads(q, i, h);
    CountUpdate(q.tasks, i, Loaded(h, i), InWindow(0));
    qs', ls' := Extend(qs, ls, q, Load(i), k);
    var q1 := Moved(q, i, Loaded(h, i));
    Swaps(q1, i, h);
    CountUpdate(q1.tasks, i, Acquired(h), InWindow(0));
    qs', ls' := Extend(qs', ls', q1, Cas(i), k);
    var q2 := Moved(q1, i, Acquired(h)).(active := i + 1);
    Registers(q2, i, h);
    CountUpdate(q2.tasks, i, Serving(h, i), InWindow(0));
    qs', ls' := Extend(qs', ls', q2, Register(i), k);
    assert q2.tasks[i := Serving(h, i)] == q.tasks[i := Serving(h, i)];
  }

  lemma LeaveWindow(qs: seq<System>, ls: seq<Label>, s: Setting, i: nat, j: nat, k: nat)
      returns (qs': seq<System>, ls': seq<Label>)
    requires i < j && i < s.maxSessions && Reaches(qs, ls, Crowd(s, i, j), k)
    requires Count(Crowd(s, i, j).tasks, InWindow(0)) == j - i <= k
    ensures Reaches(qs', ls', Crowd(s, i + 1, j), k)
    ensures Count(Crowd(s, i + 1, j).tasks, InWindow(0)) == j - i - 1
  {
    hide Reaches, Count, Step, StepOk;
    qs', ls' := RegisterNext(qs, ls, s, i, j, k);
    var h, q := Handle(0, i), Registered(s, i, j);
    HandsOver(q, i, h, i);
    CountUpdate(q.tasks, i, Owner(h, i), InWindow(0));
    qs', ls' := Extend(qs', ls', q, HandOver(i), k);
    CrowdGrows(s, i, j);
  }

  lemma CrowdGrows(s: Setting, i: nat, j: nat)
    requires i < j
    ensures Moved(Registered(s, i, j), i, Owner(Handle(0, i), i)) == Crowd(s, i + 1, j)
  {
    var h := Handle(0, i);
    assert HandlesBelow(i) + {h} == HandlesBelow(i + 1);
    assert NumbersBelow(i)[h := i] == NumbersBelow(i + 1);
    assert Registered(s, i, j).tasks[i := Owner(h, i)] == Crowd(s, i + 1, j).tasks;
  }

  predicate At(qs: seq<System>, ls: seq<Label>, s: Setting, i: nat, j: nat, k: nat) {
    Reaches(qs, ls, Crowd(s, i, j), k) && Count(Crowd(s, i, j).tasks, InWindow(0)) == j - i <= k
  }

  /** One session after the other, up to one below the cap. */
  lemma {:induction false} OneByOne(s: Setting, i: nat, k: nat) returns (qs: seq<System>, ls: seq<Label>)
    requires i < s.maxPerConn && i <= s.maxSessions && k >= 1 && (s.mux ==> k <= MAX_MUX_TASKS)
    ensures At(qs, ls, s, i, i, k)
  {
    hide Reaches, Crowd, Count;
    if i == 0 {
      qs, ls := Start(s, k);
    } else {
      qs, ls := OneByOne(s, i - 1, k);
      qs, ls := EnterWindow(qs, ls, s, i - 1, i - 1, k);
      qs, ls := LeaveWindow(qs, ls, s, i - 1, i, k);
    }
  }

  /** Then k at once past the check. */
  lemma {:induction false} AllIn(s: Setting, i: nat, j: nat, k: nat) returns (qs: seq<System>, ls: seq<Label>)
    requires i < s.maxPerConn && i <= s.maxSessions && i <= j <= i + k && k >= 1 && (s.mux ==> k <= MAX_MUX_TASKS)
    ensures At(qs, ls, s, i, j, k)
    decreases j
  {
    hide Reaches, Crowd, Count;
    if j == i {
      qs, ls := OneByOne(s, i, k);
    } else {
      qs, ls := AllIn(s, i, j - 1, k);
      qs, ls := EnterWindow(qs, ls, s, i, j - 1, k);
    }
  }

  /** And all of them registered. */
  lemma {:induction false} AllOut(s: Setting, m: nat, i: nat, k: nat) returns (qs: seq<System>, ls: seq<Label>)
    requires m < s.maxPerConn && m <= i <= m + k <= s.maxSessions && k >= 1 && (s.mux ==> k <= MAX_MUX_TASKS)
    ensures At(qs, ls, s, i, m + k, k)
    decreases i
  {
    hide Reaches, Crowd, Count;
    if i == m {
      qs, ls := AllIn(s, m, m + k, k);
    } else {
      qs, ls := AllOut(s, m, i - 1, k);
      qs, ls := LeaveWindow(qs, ls, s, i - 1, m + k, k);
    }
  }

  /**
    The overshoot bound is exact: for every cap and every k >= 1 some run, with never more than k tasks in the window,
    ends with max_per_conn - 1 + k sessions; on a mode-A connection for every k the permits allow.
  */
  lemma OvershootReached(maxPerConn: nat, k: nat, mux: bool) returns (qs: seq<System>, ls: seq<Label>)
    requires maxPerConn >= 1 && k >= 1 && (mux ==> k <= MAX_MUX_TASKS)
    ensures Run(qs, ls) && qs[0].maxPerConn == maxPerConn && (0 in qs[0].muxed <==> mux) && Thin(qs, k)
    ensures |On(qs[|ls|], 0)| == maxPerConn - 1 + k
  {
    var n := maxPerConn - 1 + k;
    var s := Setting(n, maxPerConn, mux);
    hide Reaches, Crowd, Count, Run, Thin, On;
    qs, ls := AllOut(s, maxPerConn - 1, n, k);
    AtEnd(qs, ls, Crowd(s, n, n), k);
    CrowdHolds(s, n, n);
    NextIsFree(s, n, n);
    CapsFixed(qs, ls, |ls|);
  }

  lemma CrowdHolds(s: Setting, i: nat, j: nat)
    ensures |On(Crowd(s, i, j), 0)| == i
  {
    assert On(Crowd(s, i, j), 0) == HandlesBelow(i);
    HandlesBelowSize(i);
  }

  /** The 31 sessions past the cap of a mode-A connection are reached too. */
  lemma MuxedOvershootReached(maxPerConn: nat) returns (qs: seq<System>, ls: seq<Label>)
    requires maxPerConn >= 1
    ensures Run(qs, ls) && qs[0].maxPerConn == maxPerConn && 0 in qs[0].muxed
    ensures |On(qs[|ls|], 0)| == maxPerConn - 1 + MAX_MUX_TASKS
  {
    qs, ls := OvershootReached(maxPerConn, MAX_MUX_TASKS, true);
  }

  /**
    A mode-A worker aborted while dialing strands its handle: every task is idle, the connection has left the table, one
    unit of quota is taken, and no continuation of the run gives it back.
  */
  lemma AbortedWorkerKeepsQuota() returns (qs: seq<System>, ls: seq<Label>)
    ensures Run(qs, ls) && qs[|ls|].active == 1 && Stranded(qs[|ls|], Handle(0, 0))
    ensures forall t: Task :: PhaseOf(qs[|ls|], t).Idle?
  {
    var s, h := Setting(1, 1, true), Handle(0, 0);
    qs, ls := AllIn(s, 0, 1, 1);
    hide Reaches, Count, Run;
    qs, ls := RegisterNext(qs, ls, s, 0, 1, 1);
    var q := Registered(s, 0, 1);
    qs, ls := Forsakes(qs, ls, q, 0, h, 0);
    AtEnd(qs, ls, Forsaken(q, 0, h), 1);
    assert forall t :: t in Forsaken(q, 0, h).tasks ==> t == 0;
  }

  /** The loop ends, the dialing worker is aborted and the connection leaves the table. */
  function Forsaken(q: System, t: Task, h: Handle): System {
    Moved(q, t, Idle).(closed := q.closed + {h.conn}, orphans := q.orphans + {h}, table := q.table - {h.conn})
  }

  lemma Forsakes(qs: seq<System>, ls: seq<Label>, q: System, t: Task, h: Handle, n: nat)
      returns (qs': seq<System>, ls': seq<Label>)
    requires Reaches(qs, ls, q, 1) && PhaseOf(q, t) == Serving(h, n) && h.conn in q.muxed && h.conn in q.accepted
    requires h in q.registered && h in q.last && q.last[h] == n && Count(q.tasks, InWindow(0)) <= 1
    ensures Reaches(qs', ls', Forsaken(q, t, h), 1)
  {
    hide Reaches, Count, Step, StepOk;
    Closes(q, h.conn);
    qs', ls' := Extend(qs, ls, q, CloseLoop(h.conn), 1);
    var q1 := q.(closed := q.closed + {h.conn});
    Aborts(q1, t, h, n);
    CountUpdate(q1.tasks, t, Idle, InWindow(0));
    qs', ls' := Extend(qs', ls', q1, Abort(t), 1);
    var q2 := Moved(q1, t, Idle).(orphans := q1.orphans + {h});
    Closes(q2, h.conn);
    qs', ls' := Extend(qs', ls', q2, RemoveConn(h.conn), 1);
  }

  lemma AtEnd(qs: seq<System>, ls: seq<Label>, q: System, k: nat)
    requires Reaches(qs, ls, q, k)
    ensures Run(qs, ls) && |qs| == |ls| + 1 && qs[|ls|] == q && Thin(qs, k)
  {
  }
}
