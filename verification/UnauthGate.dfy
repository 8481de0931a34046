/**
  The unauthenticated-connection gate (src/server/limit.rs): a global compare-and-swap counter and
  a per-address map, as steps of any number of connections being admitted, rolled back or dropped.
*/
module UnauthGate {
  import opened Bytes
  import opened Counting

  type Task = nat
  type Ip = nat

  datatype Phase =
    | Idle
    | Slotted(ip: Option<Ip>)               // per-address slot taken (or none needed)
    | Loaded(ip: Option<Ip>, cur: int)      // the global counter was read, below its cap
    | RollBack(addr: Ip)                    // the global cap is reached: give the slot back
    | Live(ip: Option<Ip>)                  // holds an `UnauthGuard`
    | Dropping(addr: Ip)                    // guard dropped, address slot not yet returned

  datatype Gate = Gate(global: int, perIp: map<Ip, int>, maxGlobal: int, maxPerIp: int, tasks: map<Task, Phase>)

  datatype Label =
    | Enter(t: Task, ip: Option<Ip>) | Load(t: Task) | Cas(t: Task) | Undo(t: Task)
    | DropGlobal(t: Task) | DropIp(t: Task)

  function PhaseOf(g: Gate, t: Task): Phase {
    if t in g.tasks then g.tasks[t] else Idle
  }

  predicate IsLive(p: Phase) { p.Live? }

  /** Connections of address ip that are live, being admitted, rolled back or dropped. */
  function Holds(ip: Ip): Phase -> bool {
    (p: Phase) =>
      match p
      case Idle => false
      case RollBack(i) => i == ip
      case Dropping(i) => i == ip
      case _ => p.ip == Some(ip)
  }

  predicate StepOk(g: Gate, l: Label) {
    match l
    case Enter(t, _) => PhaseOf(g, t).Idle?
    case Load(t) => PhaseOf(g, t).Slotted?
    case Cas(t) => PhaseOf(g, t).Loaded?
    case Undo(t) => PhaseOf(g, t).RollBack?
    case DropGlobal(t) => PhaseOf(g, t).Live?
    case DropIp(t) => PhaseOf(g, t).Dropping?
  }

  function Moved(g: Gate, t: Task, p: Phase): Gate {
    g.(tasks := g.tasks[t := p])
  }

  function CountOf(perIp: map<Ip, int>, ip: Ip): int {
    if ip in perIp then perIp[ip] else 0
  }

  /** `release_ip`: saturating decrement, and removal at zero, under one entry lock. */
  function ReleaseIp(perIp: map<Ip, int>, ip: Ip): map<Ip, int> {
    if ip !in perIp then perIp
    else
      var v := if perIp[ip] <= 0 then 0 else perIp[ip] - 1;
      if v == 0 then perIp - {ip} else perIp[ip := v]
  }

  function Step(g: Gate, l: Label): Gate
    requires StepOk(g, l)
  {
    match l
    case Enter(t, ip) =>
      if ip.None? then Moved(g, t, Slotted(None))
      else
        // `entry(ip).or_insert(0)`, then the cap check and the increment, under one lock
        var e := CountOf(g.perIp, ip.value);
        if e >= g.maxPerIp then Moved(g, t, Idle).(perIp := g.perIp[ip.value := e])
        else Moved(g, t, Slotted(ip)).(perIp := g.perIp[ip.value := e + 1])
    case Load(t) =>
      var ip := PhaseOf(g, t).ip;
      if g.global >= g.maxGlobal then Moved(g, t, if ip.Some? then RollBack(ip.value) else Idle)
      else Moved(g, t, Loaded(ip, g.global))
    case Cas(t) =>
      var p := PhaseOf(g, t);
      if g.global == p.cur then Moved(g, t, Live(p.ip)).(global := g.global + 1)
      else Moved(g, t, Slotted(p.ip))
    case Undo(t) => Moved(g, t, Idle).(perIp := ReleaseIp(g.perIp, PhaseOf(g, t).addr))
    case DropGlobal(t) =>
      var ip := PhaseOf(g, t).ip;
      Moved(g, t, if ip.Some? then Dropping(ip.value) else Idle).(global := g.global - 1)
    case DropIp(t) => Moved(g, t, Idle).(perIp := ReleaseIp(g.perIp, PhaseOf(g, t).addr))
  }

  /** `UnauthGate::new` raises both caps to at least one. */
  predicate Init(g: Gate) {
    g.global == 0 && g.perIp == map[] && g.tasks == map[] && g.maxGlobal >= 1 && g.maxPerIp >= 1
  }

  predicate Run(gs: seq<Gate>, ls: seq<Label>) {
    && |gs| == |ls| + 1
    && Init(gs[0])
    && forall i :: 0 <= i < |ls| ==> StepOk(gs[i], ls[i]) && gs[i + 1] == Step(gs[i], ls[i])
  }

  // ------------------------------------------------------------------------
  // Conservation
  // ------------------------------------------------------------------------

  ghost predicate Inv(g: Gate) {
    && g.maxPerIp >= 1
    && g.global == Count(g.tasks, IsLive)
    && g.global <= g.maxGlobal
    && (forall t :: t in g.tasks && g.tasks[t].Loaded? ==> g.tasks[t].cur < g.maxGlobal)
    && (forall ip: Ip :: CountOf(g.perIp, ip) == Count(g.tasks, Holds(ip)) && CountOf(g.perIp, ip) <= g.maxPerIp)
    && (forall ip: Ip :: ip in g.perIp ==> g.perIp[ip] > 0)
  }

  lemma IpKept(g: Gate, l: Label, ip: Ip)
    requires Inv(g) && StepOk(g, l)
    ensures
      var g' := Step(g, l);
      && CountOf(g'.perIp, ip) == Count(g'.tasks, Holds(ip)) && CountOf(g'.perIp, ip) <= g'.maxPerIp
      && (ip in g'.perIp ==> g'.perIp[ip] > 0)
  {
    var g' := Step(g, l);
    CountUpdate(g.tasks, l.t, PhaseOf(g', l.t), Holds(ip));
    assert g'.tasks == g.tasks[l.t := PhaseOf(g', l.t)];
    assert CountOf(g.perIp, ip) == Count(g.tasks, Holds(ip));
    if l.Undo? || l.DropIp? {
      var i := PhaseOf(g, l.t).addr;
      CountSome(g.tasks, l.t, Holds(i));
      assert CountOf(g.perIp, i) == Count(g.tasks, Holds(i));
    }
  }

  lemma InvKept(g: Gate, l: Label)
    requires Inv(g) && StepOk(g, l)
    ensures Inv(Step(g, l))
  {
    var g' := Step(g, l);
    CountUpdate(g.tasks, l.t, PhaseOf(g', l.t), IsLive);
    assert g'.tasks == g.tasks[l.t := PhaseOf(g', l.t)];
    forall ip: Ip
      ensures CountOf(g'.perIp, ip) == Count(g'.tasks, Holds(ip)) && CountOf(g'.perIp, ip) <= g'.maxPerIp
      ensures ip in g'.perIp ==> g'.perIp[ip] > 0
    {
      IpKept(g, l, ip);
    }
  }

  lemma {:induction false} RunInv(gs: seq<Gate>, ls: seq<Label>)
    requires Run(gs, ls)
    ensures Inv(gs[|ls|])
    decreases |ls|
  {
    if ls == [] {
      CountNone(gs[0].tasks, IsLive);
      forall ip: Ip ensures Count(gs[0].tasks, Holds(ip)) == 0 { CountNone(gs[0].tasks, Holds(ip)); }
    } else {
      var n := |ls| - 1;
      assert gs[..n + 1][n] == gs[n];
      RunInv(gs[..n + 1], ls[..n]);
      InvKept(gs[n], ls[n]);
    }
  }

  /**
    Gate conservation: in every run the global count is the live guards, each address count is the
    connections of that address holding a slot, the map holds exactly the positive counts, neither
    cap is exceeded, and no decrement is lost to saturation.
  */
  lemma GateConservation(gs: seq<Gate>, ls: seq<Label>, ip: Ip)
    requires Run(gs, ls)
    ensures
      var g := gs[|ls|];
      && g.global == Count(g.tasks, IsLive) <= g.maxGlobal
      && CountOf(g.perIp, ip) == Count(g.tasks, Holds(ip)) <= g.maxPerIp
      && (ip in g.perIp <==> Count(g.tasks, Holds(ip)) > 0)
      && (forall t: Task :: PhaseOf(g, t).RollBack? || PhaseOf(g, t).Dropping? ==> CountOf(g.perIp, PhaseOf(g, t).addr) >= 1)
      && (forall t: Task :: PhaseOf(g, t).Live? ==> g.global >= 1)
  {
    RunInv(gs, ls);
    var g := gs[|ls|];
    forall t: Task | PhaseOf(g, t).RollBack? || PhaseOf(g, t).Dropping?
      ensures CountOf(g.perIp, PhaseOf(g, t).addr) >= 1
    {
      CountSome(g.tasks, t, Holds(PhaseOf(g, t).addr));
    }
    forall t: Task | PhaseOf(g, t).Live?
      ensures g.global >= 1
    {
      CountSome(g.tasks, t, IsLive);
    }
  }
}
