/**
  What remains of the session quota when everything has ended (src/proto/mux.rs, src/server/hub.rs,
  src/server/fallback.rs): exactly the handles whose worker was aborted between registration and hand-over.
*/
module QuotaLeak {
  import opened Counting
  import opened Quota

  // ------------------------------------------------------------------------
  // Every handle has someone who must drop it, or is an orphan
  // ------------------------------------------------------------------------

  /** The task owes the drop of registration n of h. */
  predicate Owes(p: Phase, h: Handle, n: nat) {
    p == Serving(h, n) || p == Owner(h, n)
  }

  predicate Cared(q: System, h: Handle) {
    h in q.last && (h in q.orphans || exists t :: t in q.tasks && Owes(q.tasks[t], h, q.last[h]))
  }

  predicate AllCared(q: System) { forall h :: h in q.registered ==> Cared(q, h) }

  /** Only dialing workers of ended mode-A loops are orphaned, and only what is registered. */
  predicate OrphansFit(q: System) {
    q.orphans <= q.registered && forall h :: h in q.orphans ==> h.conn in q.muxed && h.conn in q.closed
  }

  /** The registration a task serves or owns. */
  function Num(p: Phase): int { if p.Serving? || p.Owner? then p.n else -1 }

  /** Registration numbers are not shared. */
  predicate TasksNumbered(ts: map<Task, Phase>, serial: nat) {
    && (forall t :: t in ts ==> Num(ts[t]) < serial)
    && (forall t, t' :: t in ts && t' in ts && t != t' && Num(ts[t]) >= 0 ==> Num(ts[t]) != Num(ts[t']))
  }

  /** An orphan's number has no task. */
  predicate OrphansNumbered(q: System) {
    && (forall h :: h in q.orphans ==> h in q.last && q.last[h] < q.serial)
    && (forall h, t :: h in q.orphans && t in q.tasks ==> Num(q.tasks[t]) != q.last[h])
  }

  predicate Numbered(q: System) { TasksNumbered(q.tasks, q.serial) && OrphansNumbered(q) }

  lemma OthersStay(q: System, l: Label, t: Task)
    requires StepOk(q, l) && t in q.tasks && (ByTask(l) ==> t != l.t)
    ensures t in Step(q, l).tasks && Step(q, l).tasks[t] == q.tasks[t]
  {
  }

  lemma CaredStays(q: System, l: Label, h: Handle)
    requires StepOk(q, l) && h in q.registered && Cared(q, h) && h in Step(q, l).registered
    ensures Cared(Step(q, l), h)
  {
    var q' := Step(q, l);
    assert q'.last[h] == q.last[h];
    if h in q.orphans {
      assert h in q'.orphans;
    } else {
      var t :| t in q.tasks && Owes(q.tasks[t], h, q.last[h]);
      if ByTask(l) && t == l.t {
        assert PhaseOf(q, t) == q.tasks[t];
        if l.HandOver? { assert Owes(q'.tasks[t], h, q'.last[h]); }
      } else {
        OthersStay(q, l, t);
      }
    }
  }

  lemma AllCaredKept(q: System, l: Label)
    requires AllCared(q) && StepOk(q, l)
    ensures AllCared(Step(q, l))
  {
    var q' := Step(q, l);
    forall h | h in q'.registered ensures Cared(q', h) {
      if h in q.registered {
        CaredStays(q, l, h);
      } else {
        assert l.Register? && Owes(q'.tasks[l.t], h, q'.last[h]);
      }
    }
  }

  lemma OrphansFitKept(q: System, l: Label)
    requires OrphansFit(q) && StepOk(q, l)
    ensures OrphansFit(Step(q, l))
  {
  }

  lemma NumAfter(q: System, l: Label)
    requires StepOk(q, l) && ByTask(l)
    ensures
      var q', n, n' := Step(q, l), Num(PhaseOf(q, l.t)), Num(PhaseOf(Step(q, l), l.t));
      && q'.tasks == q.tasks[l.t := PhaseOf(q', l.t)] && q'.serial >= q.serial
      && (n' == -1 || n' == n || (l.Register? && n' == q.serial && q'.serial == n' + 1))
      && (l.Abort? ==> n' == -1)
  {
    hide Count, On;
  }

  lemma OrphansAfter(q: System, l: Label, h: Handle)
    requires StepOk(q, l) && OrphansFit(q) && h in Step(q, l).orphans && (h in q.orphans ==> h in q.last)
    ensures h in q.last && h in Step(q, l).last && Step(q, l).last[h] == q.last[h]
    ensures h in q.orphans || (l.Abort? && Num(PhaseOf(q, l.t)) == q.last[h] && l.t in q.tasks)
  {
    hide Count, On;
  }

  lemma TaskUpdated(ts: map<Task, Phase>, serial: nat, t: Task, p: Phase, serial': nat)
    requires TasksNumbered(ts, serial) && serial <= serial'
    requires Num(p) == -1 || (t in ts && Num(p) == Num(ts[t])) || Num(p) == serial < serial'
    ensures TasksNumbered(ts[t := p], serial')
  {
    hide Num;
  }

  lemma OrphanNumberKept(q: System, l: Label, h: Handle, t: Task)
    requires Numbered(q) && OrphansFit(q) && StepOk(q, l) && h in Step(q, l).orphans && t in Step(q, l).tasks
    ensures h in Step(q, l).last && Num(Step(q, l).tasks[t]) != Step(q, l).last[h]
  {
    OrphansAfter(q, l, h);
    if ByTask(l) { NumAfter(q, l); }
    assert ByTask(l) && t == l.t ==> PhaseOf(Step(q, l), t) == Step(q, l).tasks[t];
    if t in q.tasks && (ByTask(l) ==> t != l.t) { OthersStay(q, l, t); }
    assert t in q.tasks ==> PhaseOf(q, t) == q.tasks[t];
    assert h in q.orphans ==> q.last[h] < q.serial;
    assert ByTask(l) && l.t in q.tasks ==> PhaseOf(q, l.t) == q.tasks[l.t];
    hide Step, StepOk, OrphansFit;
  }

  lemma SerialGrows(q: System, l: Label)
    requires StepOk(q, l)
    ensures Step(q, l).serial >= q.serial && (!ByTask(l) ==> Step(q, l).tasks == q.tasks)
  {
  }

  lemma NumberedKept(q: System, l: Label)
    requires Numbered(q) && OrphansFit(q) && StepOk(q, l)
    ensures Numbered(Step(q, l))
  {
    var q' := Step(q, l);
    SerialGrows(q, l);
    if ByTask(l) {
      NumAfter(q, l);
      TaskUpdated(q.tasks, q.serial, l.t, PhaseOf(q', l.t), q'.serial);
    }
    forall h | h in q'.orphans ensures h in q'.last && q'.last[h] < q'.serial {
      OrphansAfter(q, l, h);
      if h !in q.orphans { assert PhaseOf(q, l.t) == q.tasks[l.t]; }
    }
    forall h, t | h in q'.orphans && t in q'.tasks ensures Num(q'.tasks[t]) != q'.last[h] {
      OrphanNumberKept(q, l, h, t);
    }
    hide Step, StepOk, OrphansFit, Num;
  }

  lemma {:induction false} RunCares(qs: seq<System>, ls: seq<Label>)
    requires Run(qs, ls)
    ensures AllCared(qs[|ls|]) && OrphansFit(qs[|ls|]) && Numbered(qs[|ls|])
    decreases |ls|
  {
    hide AllCared, OrphansFit, Numbered, Step, StepOk;
    if ls == [] {
      InitCares(qs[0]);
    } else {
      var n := |ls| - 1;
      assert qs[..n + 1][n] == qs[n] && StepOk(qs[n], ls[n]) && qs[n + 1] == Step(qs[n], ls[n]);
      RunCares(qs[..n + 1], ls[..n]);
      AllCaredKept(qs[n], ls[n]);
      OrphansFitKept(qs[n], ls[n]);
      NumberedKept(qs[n], ls[n]);
    }
  }

  lemma InitCares(q: System)
    requires Init(q)
    ensures AllCared(q) && OrphansFit(q) && Numbered(q)
  {
  }

  // ------------------------------------------------------------------------
  // The leak, exactly
  // ------------------------------------------------------------------------

  /** A phase that neither holds quota nor owes a drop. */
  predicate Resting(p: Phase) { !p.Acquired? && !p.Serving? && !p.Owner? && !p.Releasing? }

  function OrphansOn(q: System, c: ConnId): set<Handle> { set h | h in q.orphans && h.conn == c }

  /**
    Once no task of a connection dials or owns a session, the sessions it still holds are exactly its orphans; once no
    task at all holds quota or owes a drop, the counter is exactly the number of orphans, so it is zero if and only if
    no worker was aborted between registration and hand-over without its handle being dropped before or after.
  */
  lemma LeakExact(qs: seq<System>, ls: seq<Label>, c: ConnId)
    requires Run(qs, ls)
    ensures
      var q := qs[|ls|];
      && ((forall t: Task :: PhaseOf(q, t).Serving? || PhaseOf(q, t).Owner? ==> PhaseOf(q, t).h.conn != c) ==>
            On(q, c) == OrphansOn(q, c))
      && ((forall t: Task :: Resting(PhaseOf(q, t))) ==>
            q.registered == q.orphans && q.active == |q.orphans| && (q.active == 0 <==> q.orphans == {}))
  {
    RunCares(qs, ls);
    RunConserves(qs, ls);
    var q := qs[|ls|];
    assert forall t :: t in q.tasks ==> PhaseOf(q, t) == q.tasks[t];
    if forall t: Task :: PhaseOf(q, t).Serving? || PhaseOf(q, t).Owner? ==> PhaseOf(q, t).h.conn != c {
      forall h | h in On(q, c) ensures h in q.orphans { assert Cared(q, h); }
      assert On(q, c) == OrphansOn(q, c);
    }
    if forall t: Task :: Resting(PhaseOf(q, t)) {
      forall h | h in q.registered ensures h in q.orphans { assert Cared(q, h); }
      CountNone(q.tasks, IsAcquired);
      CountNone(q.tasks, IsReleasing);
    }
  }

  /** An orphan is registered, belongs to an ended mode-A loop, and no task owes its drop. */
  lemma OrphansAreForsaken(qs: seq<System>, ls: seq<Label>, h: Handle, t: Task)
    requires Run(qs, ls) && h in qs[|ls|].orphans
    ensures
      var q := qs[|ls|];
      && h in q.registered && h.conn in q.muxed && h.conn in q.closed
      && h in q.last && !Owes(PhaseOf(q, t), h, q.last[h])
  {
    RunCares(qs, ls);
    var q := qs[|ls|];
    if t in q.tasks { assert Num(q.tasks[t]) != q.last[h]; }
  }

  // ------------------------------------------------------------------------
  // For good
  // ------------------------------------------------------------------------

  predicate Touches(p: Phase, h: Handle) { (p.Serving? || p.Owner? || p.Helper?) && p.h == h }

  /** An orphan nobody can reach: its loop has ended, its connection left the table, no task serves its sid. */
  predicate Stranded(q: System, h: Handle) {
    && h in q.orphans && h in q.registered && h.conn in q.accepted && h.conn in q.closed && h.conn !in q.table
    && forall t :: t in q.tasks ==> !Touches(q.tasks[t], h)
  }

  lemma StrandedStays(q: System, l: Label, h: Handle)
    requires Stranded(q, h) && StepOk(q, l)
    ensures Stranded(Step(q, l), h)
  {
    var q' := Step(q, l);
    if Drops(l) { assert Dropped(q, l) != h; }
    forall t | t in q'.tasks ensures !Touches(q'.tasks[t], h) {
      if t in q.tasks && (ByTask(l) ==> t != l.t) {
        OthersStay(q, l, t);
      } else {
        assert ByTask(l) && t == l.t;
        if l.Assist? { assert PhaseOf(q, l.owner) == q.tasks[l.owner]; }
        if l.HandOver? { assert PhaseOf(q, t) == q.tasks[t]; }
      }
    }
  }

  /** A stranded handle keeps its quota in every continuation of the run. */
  lemma {:induction false} StrandedForGood(qs: seq<System>, ls: seq<Label>, h: Handle, i: nat, j: nat)
    requires Run(qs, ls) && i <= j <= |ls| && Stranded(qs[i], h)
    ensures Stranded(qs[j], h) && qs[j].active >= 1
    decreases j
  {
    hide Stranded, Step, StepOk;
    if i < j {
      StrandedForGood(qs, ls, h, i, j - 1);
      assert StepOk(qs[j - 1], ls[j - 1]) && qs[j] == Step(qs[j - 1], ls[j - 1]);
      StrandedStays(qs[j - 1], ls[j - 1], h);
    }
    PrefixRuns(qs, ls, j);
    RunConserves(qs[..j + 1], ls[..j]);
    StrandedCounts(qs[j], h);
  }

  lemma PrefixRuns(qs: seq<System>, ls: seq<Label>, j: nat)
    requires Run(qs, ls) && j <= |ls|
    ensures Run(qs[..j + 1], ls[..j]) && qs[..j + 1][j] == qs[j]
  {
  }

  lemma StrandedCounts(q: System, h: Handle)
    requires Stranded(q, h) && Conserved(q)
    ensures q.active >= 1
  {
    CardinalityMonotone({h}, q.registered);
  }
}
