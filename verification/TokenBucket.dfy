/** The egress rate limiter (src/server/limit.rs), over real seconds and bytes. */
module TokenBucket {
  import opened Bytes

  datatype Bucket = Bucket(rate: real, cap: real, tokens: real, last: real)

  const BURST: real := 65536.0

  function Min(a: real, b: real): real { if a <= b then a else b }

  function New(mbps: nat, now: real): Bucket {
    var rate := mbps as real * 1_000_000.0 / 8.0;
    var cap := if rate <= BURST then BURST else rate;
    Bucket(rate, cap, cap, now)
  }

  predicate Sane(b: Bucket) {
    b.rate > 0.0 && b.cap >= BURST && 0.0 <= b.tokens <= b.cap
  }

  /** What a rate earns in a time. */
  function Earned(rate: real, time: real): real { time * rate }

  function Refill(b: Bucket, now: real): Bucket {
    b.(tokens := Min(b.tokens + Earned(b.rate, now - b.last), b.cap), last := now)
  }

  /** What a request costs: never more than the bucket holds. */
  function Charge(b: Bucket, n: nat): real { Min(n as real, b.cap) }

  predicate Grants(b: Bucket, n: nat, now: real) {
    Refill(b, now).tokens >= Charge(b, n)
  }

  /** One pass of the loop under the lock. */
  function Try(b: Bucket, n: nat, now: real): Bucket {
    var r := Refill(b, now);
    if Grants(b, n, now) then r.(tokens := r.tokens - Charge(b, n)) else r
  }

  /** How long a refused request is told to sleep. */
  function Wait(b: Bucket, n: nat, now: real): real
    requires b.rate > 0.0
  {
    (Charge(b, n) - Refill(b, now).tokens) / b.rate
  }

  // ------------------------------------------------------------------------
  // Runs: the passes of any number of tasks, in lock order
  // ------------------------------------------------------------------------

  datatype Pass = Pass(n: nat, at: real)

  predicate InOrder(from: real, ps: seq<Pass>) {
    && (ps != [] ==> from <= ps[0].at)
    && forall i, j :: 0 <= i < j < |ps| ==> ps[i].at <= ps[j].at
  }

  function After(b: Bucket, ps: seq<Pass>): Bucket
    decreases |ps|
  {
    if ps == [] then b else After(Try(b, ps[0].n, ps[0].at), ps[1..])
  }

  /** The bytes charged by the granted passes. */
  function Granted(b: Bucket, ps: seq<Pass>): real
    decreases |ps|
  {
    if ps == [] then 0.0
    else (if Grants(b, ps[0].n, ps[0].at) then Charge(b, ps[0].n) else 0.0)
         + Granted(Try(b, ps[0].n, ps[0].at), ps[1..])
  }

  function End(from: real, ps: seq<Pass>): real { if ps == [] then from else ps[|ps| - 1].at }

  lemma NewIsSane(mbps: nat, now: real)
    requires mbps > 0
    ensures Sane(New(mbps, now))
  {
  }

  lemma EarnedGrows(rate: real, time: real)
    requires rate > 0.0 && time >= 0.0
    ensures Earned(rate, time) >= 0.0
  {
  }

  lemma EarnedSpans(rate: real, a: real, b: real, c: real)
    ensures Earned(rate, b - a) + Earned(rate, c - b) == Earned(rate, c - a)
  {
  }

  lemma RefillKeeps(b: Bucket, now: real)
    requires Sane(b) && b.last <= now
    ensures Sane(Refill(b, now)) && b.tokens <= Refill(b, now).tokens
    ensures Refill(b, now).tokens <= b.tokens + Earned(b.rate, now - b.last)
  {
    hide Earned;
    EarnedGrows(b.rate, now - b.last);
  }

  lemma TryKeeps(b: Bucket, n: nat, now: real)
    requires Sane(b) && b.last <= now
    ensures Sane(Try(b, n, now))
  {
    hide Earned;
    RefillKeeps(b, now);
  }

  lemma TailInOrder(from: real, ps: seq<Pass>)
    requires InOrder(from, ps) && ps != []
    ensures from <= ps[0].at && InOrder(ps[0].at, ps[1..]) && End(ps[0].at, ps[1..]) == End(from, ps)
  {
    if |ps| > 1 { assert ps[0].at <= ps[1].at; }
  }

  /** Every run keeps the tokens between zero and the capacity, and grants no more than was there and was earned. */
  lemma {:induction false} RunBound(b: Bucket, ps: seq<Pass>)
    requires Sane(b) && InOrder(b.last, ps)
    ensures Sane(After(b, ps)) && After(b, ps).last == End(b.last, ps)
    ensures After(b, ps).rate == b.rate && After(b, ps).cap == b.cap
    ensures Granted(b, ps) + After(b, ps).tokens <= b.tokens + Earned(b.rate, End(b.last, ps) - b.last)
    decreases |ps|
  {
    hide Earned, InOrder;
    if ps == [] {
      EarnedGrows(b.rate, 0.0);
    } else {
      var p := ps[0];
      TailInOrder(b.last, ps);
      TryKeeps(b, p.n, p.at);
      RefillKeeps(b, p.at);
      RunBound(Try(b, p.n, p.at), ps[1..]);
      EarnedSpans(b.rate, b.last, p.at, End(b.last, ps));
    }
  }

  lemma RefillTwice(b: Bucket, t: real, u: real)
    requires Sane(b) && b.last <= t <= u
    ensures Refill(Refill(b, t), u) == Refill(b, u)
  {
    hide Earned;
    EarnedSpans(b.rate, b.last, t, u);
    EarnedGrows(b.rate, u - t);
  }

  /** A run may as well begin with a refill. */
  lemma RefillFirst(b: Bucket, ps: seq<Pass>)
    requires Sane(b) && ps != [] && b.last <= ps[0].at
    ensures Granted(Refill(b, ps[0].at), ps) == Granted(b, ps)
  {
    hide Earned;
    RefillTwice(b, ps[0].at, ps[0].at);
  }

  lemma SliceInOrder(from: real, ps: seq<Pass>, i: nat, j: nat)
    requires InOrder(from, ps) && i < j <= |ps|
    ensures InOrder(from, ps[..i]) && End(from, ps[..i]) <= ps[i].at && InOrder(ps[i].at, ps[i..j])
  {
  }

  /** In every interval of every run the bytes granted are at most the capacity plus the rate times its length. */
  lemma IntervalBound(b: Bucket, ps: seq<Pass>, i: nat, j: nat)
    requires Sane(b) && InOrder(b.last, ps) && i < j <= |ps|
    ensures Granted(After(b, ps[..i]), ps[i..j]) <= b.cap + Earned(b.rate, ps[j - 1].at - ps[i].at)
  {
    hide Earned, InOrder, Granted, After, Refill;
    SliceInOrder(b.last, ps, i, j);
    RunBound(b, ps[..i]);
    var c, qs, t := After(b, ps[..i]), ps[i..j], ps[i].at;
    RefillFirst(c, qs);
    RefillKeeps(c, t);
    RefillFields(c, t);
    RunBound(Refill(c, t), qs);
  }

  lemma RefillFields(b: Bucket, t: real)
    ensures Refill(b, t).last == t && Refill(b, t).rate == b.rate && Refill(b, t).cap == b.cap
  {
  }

  /** Up to the 64 KiB burst a request is charged exactly its own bytes. */
  lemma ChargeExact(b: Bucket, n: nat)
    requires Sane(b) && n as real <= BURST
    ensures Charge(b, n) == n as real
  {
  }

  /** The bytes of the granted requests. */
  function GrantedBytes(b: Bucket, ps: seq<Pass>): nat
    decreases |ps|
  {
    if ps == [] then 0
    else (if Grants(b, ps[0].n, ps[0].at) then ps[0].n else 0) + GrantedBytes(Try(b, ps[0].n, ps[0].at), ps[1..])
  }

  lemma {:induction false} BytesAreCharges(b: Bucket, ps: seq<Pass>)
    requires Sane(b) && InOrder(b.last, ps) && forall i :: 0 <= i < |ps| ==> ps[i].n as real <= BURST
    ensures GrantedBytes(b, ps) as real == Granted(b, ps)
    decreases |ps|
  {
    hide Earned, Refill;
    if ps != [] {
      ChargeExact(b, ps[0].n);
      TailInOrder(b.last, ps);
      TryKeeps(b, ps[0].n, ps[0].at);
      TryTime(b, ps[0].n, ps[0].at);
      BytesAreCharges(Try(b, ps[0].n, ps[0].at), ps[1..]);
    }
  }

  lemma TryTime(b: Bucket, n: nat, now: real)
    ensures Try(b, n, now).last == now
  {
  }

  /**
    A limiter of mbps megabits per second, shared by any tasks whose requests are up to 64 KiB: in every interval of
    every run the bytes sent are at most one second's worth (or 64 KiB) plus the rate times the interval.
  */
  lemma LimiterBound(mbps: nat, start: real, ps: seq<Pass>, i: nat, j: nat)
    requires mbps > 0 && InOrder(start, ps) && i < j <= |ps|
    requires forall m :: 0 <= m < |ps| ==> ps[m].n as real <= BURST
    ensures
      var rate := mbps as real * 125_000.0;
      GrantedBytes(After(New(mbps, start), ps[..i]), ps[i..j]) as real <=
        (if rate <= BURST then BURST else rate) + Earned(rate, ps[j - 1].at - ps[i].at)
  {
    hide Earned, Granted, GrantedBytes, After;
    var b := New(mbps, start);
    NewIsSane(mbps, start);
    IntervalBound(b, ps, i, j);
    SliceInOrder(start, ps, i, j);
    RunBound(b, ps[..i]);
    var c, qs := After(b, ps[..i]), ps[i..j];
    assert InOrder(c.last, qs);
    BytesAreCharges(c, qs);
  }

  // ------------------------------------------------------------------------
  // Retrying
  // ------------------------------------------------------------------------

  predicate AllRefused(b: Bucket, ps: seq<Pass>)
    decreases |ps|
  {
    ps == [] || (!Grants(b, ps[0].n, ps[0].at) && AllRefused(Try(b, ps[0].n, ps[0].at), ps[1..]))
  }

  /** Refused passes only refill. */
  lemma {:induction false} RefusedOnlyRefill(b: Bucket, ps: seq<Pass>)
    requires Sane(b) && InOrder(b.last, ps) && AllRefused(b, ps)
    ensures End(b.last, ps) >= b.last && After(b, ps) == Refill(b, End(b.last, ps))
    decreases |ps|
  {
    if ps == [] {
      assert Earned(b.rate, b.last - b.last) == 0.0;
    } else {
      hide Earned;
      var t := ps[0].at;
      var c := Refill(b, t);
      RefillKeeps(b, t);
      TailInOrder(b.last, ps);
      RefusedOnlyRefill(c, ps[1..]);
      RefillTwice(b, t, End(b.last, ps));
    }
  }

  /** With no grant in between, a retry succeeds exactly once the computed wait is over. */
  lemma RetryExact(b: Bucket, n: nat, t: real, others: seq<Pass>, retry: real)
    requires Sane(b) && b.last <= t && !Grants(b, n, t)
    requires InOrder(t, others) && AllRefused(Try(b, n, t), others) && End(t, others) <= retry
    ensures Grants(After(Try(b, n, t), others), n, retry) <==> retry >= t + Wait(b, n, t)
  {
    hide Earned, InOrder, AllRefused, After, Wait;
    var c := Refill(b, t);
    RefillKeeps(b, t);
    RefusedOnlyRefill(c, others);
    RefillTwice(c, End(t, others), retry);
    WaitIsDeficit(b, n, t, retry);
  }

  lemma WaitIsDeficit(b: Bucket, n: nat, t: real, retry: real)
    requires Sane(b) && b.last <= t <= retry
    ensures
      var c := Refill(b, t);
      c.tokens + Earned(b.rate, retry - t) >= Charge(b, n) <==> retry >= t + Wait(b, n, t)
  {
    var c := Refill(b, t);
    var w := Wait(b, n, t);
    assert w * b.rate == Charge(b, n) - c.tokens;
    Compare(retry - t, w, b.rate);
  }

  lemma Compare(x: real, y: real, rate: real)
    requires rate > 0.0
    ensures x * rate >= y * rate <==> x >= y
  {
    assert (x - y) * rate == x * rate - y * rate;
    if x < y { assert (y - x) * rate > 0.0; }
  }

  // ------------------------------------------------------------------------
  // The limiter
  // ------------------------------------------------------------------------

  class RateLimiter {
    const enabled: bool
    const rate: real
    const cap: real
    var tokens: real
    var last: real

    function Value(): Bucket
      reads this
    {
      Bucket(rate, cap, tokens, last)
    }

    constructor (mbps: nat, now: real)
      ensures enabled == (mbps > 0) && Value() == New(mbps, now)
    {
      enabled := mbps > 0;
      rate := mbps as real * 1_000_000.0 / 8.0;
      var r := mbps as real * 1_000_000.0 / 8.0;
      cap := if r <= BURST then BURST else r;
      tokens := if r <= BURST then BURST else r;
      last := now;
    }

    /** One pass: nothing to wait for when granted, otherwise how long to sleep. */
    method TryAcquire(n: nat, now: real) returns (wait: Option<real>)
      requires Sane(Value()) && last <= now
      modifies this
      ensures Value() == Try(old(Value()), n, now) && Sane(Value())
      ensures wait == if Grants(old(Value()), n, now) then None else Some(Wait(old(Value()), n, now))
    {
      hide Earned;
      TryKeeps(Value(), n, now);
      var dt := now - last;
      last := now;
      tokens := Min(tokens + Earned(rate, dt), cap);
      var m := Min(n as real, cap);
      if tokens >= m {
        tokens := tokens - m;
        wait := None;
      } else {
        wait := Some((m - tokens) / rate);
      }
    }

    /** The whole loop for a task alone on its bucket that wakes `late` after each sleep: one retry is enough. */
    method Acquire(n: nat, start: real, late: real) returns (finished: real)
      requires (enabled ==> Sane(Value())) && last <= start && late >= 0.0
      modifies this
      ensures !enabled ==> finished == start && Value() == old(Value())
      ensures enabled && Grants(old(Value()), n, start) ==> finished == start && Value() == Try(old(Value()), n, start)
      ensures enabled && !Grants(old(Value()), n, start) ==>
        var b := old(Value());
        finished == start + Wait(b, n, start) + late && Grants(b, n, finished) && Value() == Try(b, n, finished)
    {
      finished := start;
      if !enabled {
        return;
      }
      hide Earned, Wait;
      ghost var b := Value();
      var wait := TryAcquire(n, finished);
      while wait.Some?
        invariant Sane(Value()) && last == finished
        invariant wait.Some? ==>
          && finished == start && !Grants(b, n, start) && wait.value == Wait(b, n, start) && Value() == Refill(b, start)
        invariant wait.None? && Grants(b, n, start) ==> finished == start && Value() == Try(b, n, start)
        invariant wait.None? && !Grants(b, n, start) ==>
          && finished == start + Wait(b, n, start) + late && Grants(b, n, finished) && Value() == Try(b, n, finished)
        decreases if wait.Some? then 1 else 0
      {
        WaitPositive(b, n, start);
        finished := finished + wait.value + late;
        RetryExact(b, n, start, [], finished);
        RefillTwice(b, start, finished);
        wait := TryAcquire(n, finished);
      }
    }
  }

  lemma WaitPositive(b: Bucket, n: nat, t: real)
    requires Sane(b) && !Grants(b, n, t)
    ensures Wait(b, n, t) > 0.0
  {
    Compare(0.0, Wait(b, n, t), b.rate);
  }
}
