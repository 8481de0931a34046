/** The client's circuit breaker (src/client/outbound.rs). */
module Breaker {
  import opened Bytes

  /** The breaker's fields; instants are ticks of a clock that never runs back. */
  datatype State = State(failures: nat, until: Option<nat>)

  datatype Event = Success(at: nat) | Failure(at: nat)

  predicate Open(s: State, now: nat) { s.until.Some? && now < s.until.value }

  function Fail(s: State, threshold: nat, cooldown: nat, now: nat): State {
    if Open(s, now) then s
    else if s.until.Some? then s.(until := Some(now + cooldown))
    else if s.failures + 1 >= threshold then State(0, Some(now + cooldown))
    else s.(failures := s.failures + 1)
  }

  const CLOSED := State(0, None)

  function Step(s: State, threshold: nat, cooldown: nat, e: Event): State {
    if e.Success? then CLOSED else Fail(s, threshold, cooldown, e.at)
  }

  function After(threshold: nat, cooldown: nat, log: seq<Event>): State {
    if log == [] then CLOSED
    else Step(After(threshold, cooldown, log[..|log| - 1]), threshold, cooldown, log[|log| - 1])
  }

  // ------------------------------------------------------------------------
  // What the log says
  // ------------------------------------------------------------------------

  /** The times of the failures since the last success. */
  function Streak(log: seq<Event>): seq<nat> {
    if log == [] || log[|log| - 1].Success? then []
    else Streak(log[..|log| - 1]) + [log[|log| - 1].at]
  }

  /** The end of the cooldown running after a streak: begun by its threshold-th failure, and begun anew only by a
      failure at or after the end of the previous one. */
  function Deadline(fs: seq<nat>, threshold: nat, cooldown: nat): Option<nat>
    requires threshold >= 1
  {
    if |fs| < threshold then None
    else
      var t := fs[|fs| - 1];
      if |fs| == threshold then Some(t + cooldown)
      else
        var d := Deadline(fs[..|fs| - 1], threshold, cooldown);
        if d.Some? && t < d.value then d else Some(t + cooldown)
  }

  /** Over every run the breaker holds exactly the streak's deadline, and counts exactly the streak until it trips. */
  lemma {:induction false} RunExact(threshold: nat, cooldown: nat, log: seq<Event>)
    requires threshold >= 1
    ensures After(threshold, cooldown, log).until == Deadline(Streak(log), threshold, cooldown)
    ensures After(threshold, cooldown, log).failures == if |Streak(log)| < threshold then |Streak(log)| else 0
  {
    if log != [] {
      var before, e := log[..|log| - 1], log[|log| - 1];
      RunExact(threshold, cooldown, before);
      if e.Failure? { DeadlineGrows(Streak(before), e.at, threshold, cooldown); }
    }
  }

  lemma DeadlineGrows(fs: seq<nat>, t: nat, threshold: nat, cooldown: nat)
    requires threshold >= 1
    ensures Deadline(fs + [t], threshold, cooldown) ==
      if |fs| + 1 < threshold then None
      else if |fs| + 1 == threshold then Some(t + cooldown)
      else
        var d := Deadline(fs, threshold, cooldown);
        if d.Some? && t < d.value then d else Some(t + cooldown)
  {
    assert (fs + [t])[..|fs|] == fs;
  }

  lemma {:induction false} DeadlineHasFailure(fs: seq<nat>, threshold: nat, cooldown: nat) returns (i: nat)
    requires threshold >= 1 && Deadline(fs, threshold, cooldown).Some?
    ensures threshold - 1 <= i < |fs| && Deadline(fs, threshold, cooldown) == Some(fs[i] + cooldown)
  {
    i := |fs| - 1;
    if |fs| > threshold {
      var d := Deadline(fs[..i], threshold, cooldown);
      if d.Some? && fs[i] < d.value { i := DeadlineHasFailure(fs[..i], threshold, cooldown); }
    }
  }

  /** The primary is skipped at t only after a full threshold of failures since the last success, one of them less than
      a cooldown ago. */
  lemma SkipIsJustified(threshold: nat, cooldown: nat, log: seq<Event>, t: nat)
    requires threshold >= 1 && Open(After(threshold, cooldown, log), t)
    ensures |Streak(log)| >= threshold
    ensures exists i :: threshold - 1 <= i < |Streak(log)| && t < Streak(log)[i] + cooldown
  {
    RunExact(threshold, cooldown, log);
    var i := DeadlineHasFailure(Streak(log), threshold, cooldown);
  }

  /** Failures recorded while the breaker is open change nothing, however many. */
  lemma {:induction false} OpenIgnoresFailures(threshold: nat, cooldown: nat, log: seq<Event>, more: seq<Event>)
    requires After(threshold, cooldown, log).until.Some?
    requires forall i :: 0 <= i < |more| ==> more[i].Failure? && Open(After(threshold, cooldown, log), more[i].at)
    ensures After(threshold, cooldown, log + more) == After(threshold, cooldown, log)
    decreases |more|
  {
    if more == [] {
      assert log + more == log;
    } else {
      var n := |more| - 1;
      assert (log + more)[..|log + more| - 1] == log + more[..n];
      OpenIgnoresFailures(threshold, cooldown, log, more[..n]);
    }
  }

  /** A failed probe after the deadline trips at once for exactly one more cooldown. */
  lemma ProbeFailureTrips(threshold: nat, cooldown: nat, log: seq<Event>, t: nat, now: nat)
    requires threshold >= 1 && |Streak(log)| >= threshold && !Open(After(threshold, cooldown, log), t)
    ensures Open(After(threshold, cooldown, log + [Failure(t)]), now) <==> now < t + cooldown
  {
    RunExact(threshold, cooldown, log);
    assert (log + [Failure(t)])[..|log|] == log;
  }

  /**
    Half-open: after the deadline every probe is let through, however many ask, if and only if no failure has been
    recorded since; with a failure, none is for the next cooldown.
  */
  lemma ProbesPassExactly(threshold: nat, cooldown: nat, log: seq<Event>, failed: Option<nat>, asks: seq<nat>)
    requires threshold >= 1 && Deadline(Streak(log), threshold, cooldown).Some?
    requires failed.Some? ==> failed.value >= Deadline(Streak(log), threshold, cooldown).value
    requires forall i :: 0 <= i < |asks| ==>
      && asks[i] >= Deadline(Streak(log), threshold, cooldown).value
      && (failed.Some? ==> failed.value <= asks[i] < failed.value + cooldown)
    ensures
      var now := After(threshold, cooldown, if failed.Some? then log + [Failure(failed.value)] else log);
      && ((forall i :: 0 <= i < |asks| ==> !Open(now, asks[i])) <==> failed.None? || asks == [])
      && (failed.Some? ==> forall i :: 0 <= i < |asks| ==> Open(now, asks[i]))
  {
    RunExact(threshold, cooldown, log);
    if failed.Some? {
      var longer := log + [Failure(failed.value)];
      assert longer[..|log|] == log;
      if asks != [] { assert Open(After(threshold, cooldown, longer), asks[0]); }
    }
  }

  /** After a success it takes a full threshold of failures to skip again. */
  lemma SuccessCloses(threshold: nat, cooldown: nat, log: seq<Event>, at: nat, more: seq<Event>, t: nat)
    requires threshold >= 1 && |more| < threshold
    ensures !Open(After(threshold, cooldown, log + [Success(at)] + more), t)
  {
    var run := log + [Success(at)] + more;
    StreakShort(log + [Success(at)], more);
    RunExact(threshold, cooldown, run);
  }

  lemma {:induction false} StreakShort(log: seq<Event>, more: seq<Event>)
    requires log != [] && log[|log| - 1].Success?
    ensures |Streak(log + more)| <= |more|
    decreases |more|
  {
    if more == [] {
      assert log + more == log;
    } else {
      assert (log + more)[..|log + more| - 1] == log + more[..|more| - 1];
      StreakShort(log, more[..|more| - 1]);
    }
  }

  // ------------------------------------------------------------------------
  // The program
  // ------------------------------------------------------------------------

  class CircuitBreaker {
    const threshold: nat
    const cooldown: nat
    var failures: nat
    var until: Option<nat>
    ghost var log: seq<Event>

    ghost predicate Valid()
      reads this
    {
      State(failures, until) == After(threshold, cooldown, log)
    }

    constructor (threshold: nat, cooldown: nat)
      ensures Valid() && this.threshold == threshold && this.cooldown == cooldown && log == []
    {
      this.threshold := threshold;
      this.cooldown := cooldown;
      failures := 0;
      until := None;
      log := [];
    }

    method CanTry(now: nat) returns (ok: bool)
      ensures ok == !Open(State(failures, until), now)
    {
      ok := !(until.Some? && now < until.value);
    }

    method RecordSuccess(ghost now: nat)
      requires Valid()
      modifies this
      ensures Valid() && log == old(log) + [Success(now)] && failures == 0 && until.None?
    {
      failures := 0;
      until := None;
      ghost var before := log;
      log := log + [Success(now)];
      assert log[..|before|] == before;
    }

    method RecordFailure(now: nat)
      requires Valid()
      modifies this
      ensures Valid() && log == old(log) + [Failure(now)]
    {
      ghost var before := log;
      log := log + [Failure(now)];
      assert log[..|before|] == before;
      if until.Some? && now < until.value {
        return;
      }
      if until.Some? {
        until := Some(now + cooldown);
        return;
      }
      failures := failures + 1;
      if failures >= threshold {
        until := Some(now + cooldown);
        failures := 0;
      }
    }
  }

  /** Two callers ask after the deadline before either has an answer: both are let through. */
  method TwoProbes(cb: CircuitBreaker, first: nat, second: nat) returns (a: bool, b: bool)
    requires cb.Valid() && cb.until.Some? && first >= cb.until.value && second >= cb.until.value
    ensures a && b
  {
    a := cb.CanTry(first);
    b := cb.CanTry(second);
  }

  /** How the primary path answered. */
  datatype Answer = Connected | TargetRefused(fallbackWorthwhile: bool) | TransportFailed

  datatype Route = Primary | Refused | Fallback

  /** `open_tcp` with both paths: asked at one time, answered at another. */
  method OpenTcp(cb: CircuitBreaker, answer: Answer, asked: nat, answered: nat) returns (r: Route)
    requires cb.Valid()
    modifies cb
    ensures cb.Valid()
    // skipped
    ensures old(Open(After(cb.threshold, cb.cooldown, cb.log), asked)) ==> r == Fallback && cb.log == old(cb.log)
    // tried
    ensures !old(Open(After(cb.threshold, cb.cooldown, cb.log), asked)) ==>
      && cb.log == old(cb.log) + [if answer.TransportFailed? then Failure(answered) else Success(answered)]
      && r == (match answer
               case Connected => Primary
               case TargetRefused(worthwhile) => if worthwhile then Fallback else Refused
               case TransportFailed => Fallback)
  {
    var ok := cb.CanTry(asked);
    if ok {
      match answer {
        case Connected =>
          cb.RecordSuccess(answered);
          return Primary;
        case TargetRefused(worthwhile) =>
          cb.RecordSuccess(answered);
          if !worthwhile {
            return Refused;
          }
        case TransportFailed =>
          cb.RecordFailure(answered);
      }
    }
    return Fallback;
  }
}
