/**
The worker pool of one Scan call as a step system.

One counting semaphore of `workers` slots is shared by the per-address host tasks
and by the port tasks those host tasks start.  A host task keeps its own slot while
the deep and the UDP stage ask for more slots.  Answers of the network and of the
store are chosen by the step that consumes them; the scheduler chooses the step.
*/
module ScanPool {
  import opened Counting

  datatype Stage = Deep | Udp

  /** The address list of one Scan, the pool size and the options in force for it. */
  datatype Setup = Setup(
    addrs: seq<string>,
    workers: nat,
    probePorts: seq<int>,
    portStore: bool,
    deepProbe: bool,
    deepPorts: seq<int>,
    udpPorts: seq<int>)
  {
    /** The port list a stage walks.  A stage that is off walks nothing. */
    function Ports(stage: Stage): seq<int> {
      if !portStore then []
      else if stage.Deep? then (if deepProbe then deepPorts else [])
      else udpPorts
    }

    /** New never builds a semaphore without slots. */
    predicate Valid() { workers >= 1 }
  }

  datatype Phase =
    | Probing
    | Saving
    | Walking(stage: Stage, next: nat)
    | Joining(stage: Stage)
    | Tallying
    | Leaving
    | Signalling
    | Finished

  datatype ProbeResult = Pending | Dead | Alive(port: int)

  datatype HostTask = HostTask(
    addr: string,
    phase: Phase,
    probe: ProbeResult,
    saved: bool,
    tallied: bool,
    deepOut: seq<int>,
    udpOut: seq<int>,
    tcp: seq<int>,
    udp: seq<int>)
  {
    predicate Holds() { !phase.Signalling? && !phase.Finished? }
  }

  datatype PortPhase = Dialling | PortLeaving | PortSignalling | PortFinished

  datatype PortTask = PortTask(owner: nat, stage: Stage, port: int, phase: PortPhase) {
    predicate Holds() { phase.Dialling? || phase.PortLeaving? }
  }

  /** The launching loop: about to test the context, about to send on the semaphore,
      in the final Wait, or returned with the count. */
  datatype Main = Checking(next: nat) | Sending(next: nat) | Waiting | Returned(total: nat)

  datatype State = State(
    cancelled: bool,
    used: nat,
    main: Main,
    hosts: seq<HostTask>,
    ports: seq<PortTask>,
    count: nat,
    successes: nat,
    failures: nat)

  /** What a host task does on its own, with its slot in hand. */
  datatype Act =
    | ProbeFails
    | ProbeAnswers(port: int)
    | SaveFails
    | Save
    | SkipKnown
    | GiveUp
    | StartJoin
    | Join
    | Tally
    | Release
    | Signal

  datatype Step =
    | Cancel
    | Check
    | Launch
    | Return
    | Own(h: nat, act: Act)
    | Spawn(h: nat)
    | Report(p: nat, open: bool)
    | ReleasePort(p: nat)
    | SignalPort(p: nat)

  function Init(): State {
    State(false, 0, Checking(0), [], [], 0, 0, 0)
  }

  // ---- Guards -------------------------------------------------------------

  /** The walk has a port left in its list. */
  predicate HasPort(c: Setup, h: HostTask) {
    h.phase.Walking? && h.phase.next < |c.Ports(h.phase.stage)|
  }

  /** The next port of the deep walk is the one the liveness probe already found. */
  predicate AtKnown(c: Setup, h: HostTask) {
    HasPort(c, h) && h.phase.stage.Deep? && h.probe == Alive(c.Ports(Deep)[h.phase.next])
  }

  /** The host task asks for a slot for its next port task. */
  predicate Awaiting(c: Setup, h: HostTask) {
    HasPort(c, h) && !AtKnown(c, h)
  }

  /** Every port task host h started in this stage has signalled its wait group. */
  predicate Joined(s: State, h: nat, stage: Stage) {
    forall k :: 0 <= k < |s.ports| && s.ports[k].owner == h && s.ports[k].stage == stage ==>
        s.ports[k].phase.PortFinished?
  }

  predicate AllFinished(s: State) {
    forall k :: 0 <= k < |s.hosts| ==> s.hosts[k].phase.Finished?
  }

  predicate CanAct(c: Setup, s: State, h: nat, act: Act)
    requires h < |s.hosts|
  {
    var x := s.hosts[h];
    match act
    case ProbeFails => x.phase.Probing?
    case ProbeAnswers(port) => x.phase.Probing? && port in c.probePorts && port != 0
    case SaveFails => x.phase.Saving?
    case Save => x.phase.Saving?
    case SkipKnown => AtKnown(c, x)
    case GiveUp => Awaiting(c, x) && s.cancelled
    case StartJoin => x.phase.Walking? && !HasPort(c, x)
    case Join => x.phase.Joining? && Joined(s, h, x.phase.stage)
    case Tally => x.phase.Tallying?
    case Release => x.phase.Leaving? && s.used > 0
    case Signal => x.phase.Signalling?
  }

  predicate Enabled(c: Setup, s: State, step: Step) {
    match step
    case Cancel => !s.cancelled
    case Check => s.main.Checking?
    case Launch => s.main.Sending? && s.main.next < |c.addrs| && s.used < c.workers
    case Return => s.main.Waiting? && AllFinished(s)
    case Own(h, act) => h < |s.hosts| && CanAct(c, s, h, act)
    case Spawn(h) => h < |s.hosts| && Awaiting(c, s.hosts[h]) && s.used < c.workers
    case Report(p, _) => p < |s.ports| && s.ports[p].phase.Dialling? && s.ports[p].owner < |s.hosts|
    case ReleasePort(p) => p < |s.ports| && s.ports[p].phase.PortLeaving? && s.used > 0
    case SignalPort(p) => p < |s.ports| && s.ports[p].phase.PortSignalling?
  }

  // ---- Effects ------------------------------------------------------------

  /** The stage returns its result: the next stage, or the tally, starts with it. */
  function StageReturned(h: HostTask, stage: Stage): HostTask {
    match stage
    case Deep =>
      h.(tcp := (if h.probe.Alive? then [h.probe.port] else []) + h.deepOut, phase := Walking(Udp, 0))
    case Udp =>
      h.(udp := h.udpOut, phase := Tallying)
  }

  /** An open port is appended to the out slice of the stage that dialled it. */
  function Heard(h: HostTask, t: PortTask, open: bool): HostTask {
    if !open then h
    else if t.stage.Deep? then h.(deepOut := h.deepOut + [t.port])
    else h.(udpOut := h.udpOut + [t.port])
  }

  /** A host task after an act of its own. */
  function Acted(x: HostTask, act: Act): HostTask
    requires (act.GiveUp? || act.StartJoin? || act.Join?) ==> x.phase.Walking? || x.phase.Joining?
    requires act.SkipKnown? ==> x.phase.Walking?
  {
    match act
    case ProbeFails => x.(probe := Dead, phase := Leaving)
    case ProbeAnswers(port) => x.(probe := Alive(port), phase := Saving)
    case SaveFails => x.(phase := Leaving)
    case Save => x.(saved := true, phase := Walking(Deep, 0))
    case SkipKnown => x.(phase := Walking(Deep, x.phase.next + 1))
    case GiveUp => StageReturned(x, x.phase.stage)
    case StartJoin => x.(phase := Joining(x.phase.stage))
    case Join => StageReturned(x, x.phase.stage)
    case Tally => x.(tallied := true, phase := Leaving)
    case Release => x.(phase := Signalling)
    case Signal => x.(phase := Finished)
  }

  function SetPort(s: State, p: nat, phase: PortPhase): State
    requires p < |s.ports|
  {
    s.(ports := s.ports[p := s.ports[p].(phase := phase)])
  }

  function FreshHost(addr: string): HostTask {
    HostTask(addr, Probing, Pending, false, false, [], [], [], [])
  }

  function Apply(c: Setup, s: State, step: Step): State
    requires Enabled(c, s, step)
  {
    match step
    case Cancel => s.(cancelled := true)
    case Check =>
      if s.main.next >= |c.addrs| || s.cancelled then s.(main := Waiting) else s.(main := Sending(s.main.next))
    case Launch =>
      s.(used := s.used + 1, main := Checking(s.main.next + 1), hosts := s.hosts + [FreshHost(c.addrs[s.main.next])])
    case Return => s.(main := Returned(s.count))
    case Own(h, act) =>
      s.(hosts := s.hosts[h := Acted(s.hosts[h], act)],
         used := if act.Release? then s.used - 1 else s.used,
         count := s.count + Unit(act.Tally?),
         successes := s.successes + Unit(act.ProbeAnswers?),
         failures := s.failures + Unit(act.ProbeFails?))
    case Spawn(h) =>
      var w := s.hosts[h].phase;
      s.(used := s.used + 1,
         hosts := s.hosts[h := s.hosts[h].(phase := Walking(w.stage, w.next + 1))],
         ports := s.ports + [PortTask(h, w.stage, c.Ports(w.stage)[w.next], Dialling)])
    case Report(p, open) =>
      var t := s.ports[p];
      SetPort(s, p, PortLeaving).(hosts := s.hosts[t.owner := Heard(s.hosts[t.owner], t, open)])
    case ReleasePort(p) => SetPort(s, p, PortSignalling).(used := s.used - 1)
    case SignalPort(p) => SetPort(s, p, PortFinished)
  }

  // ---- Runs ---------------------------------------------------------------

  ghost predicate Feasible(c: Setup, s: State, steps: seq<Step>)
    decreases |steps|
  {
    steps == [] || (Enabled(c, s, steps[0]) && Feasible(c, Apply(c, s, steps[0]), steps[1..]))
  }

  ghost function Exec(c: Setup, s: State, steps: seq<Step>): State
    requires Feasible(c, s, steps)
    decreases |steps|
  {
    if steps == [] then s else Exec(c, Apply(c, s, steps[0]), steps[1..])
  }

  ghost predicate Reachable(c: Setup, s: State) {
    exists steps :: Feasible(c, Init(), steps) && Exec(c, Init(), steps) == s
  }

  lemma {:induction false} ExecAppend(c: Setup, s: State, a: seq<Step>, b: seq<Step>)
    requires Feasible(c, s, a) && Feasible(c, Exec(c, s, a), b)
    ensures Feasible(c, s, a + b) && Exec(c, s, a + b) == Exec(c, Exec(c, s, a), b)
    decreases |a|
  {
    if a == [] {
      assert a + b == b;
    } else {
      ExecAppend(c, Apply(c, s, a[0]), a[1..], b);
      assert (a + b)[0] == a[0] && (a + b)[1..] == a[1..] + b;
    }
  }

  // ---- Invariant ----------------------------------------------------------

  predicate HoldsHost(h: HostTask) { h.Holds() }
  predicate HoldsPort(t: PortTask) { t.Holds() }
  predicate IsTallied(h: HostTask) { h.tallied }
  predicate IsAlive(h: HostTask) { h.probe.Alive? }
  predicate IsDead(h: HostTask) { h.probe.Dead? }

  function HostSlots(s: State): nat { Count(s.hosts, HoldsHost) }
  function PortSlots(s: State): nat { Count(s.ports, HoldsPort) }

  /** What a host task has done so far, by the phase it is in. */
  predicate HostOk(c: Setup, h: HostTask) {
    && (h.probe.Alive? ==> h.probe.port in c.probePorts && h.probe.port != 0)
    && match h.phase
       case Probing => h.probe.Pending? && !h.saved && !h.tallied
       case Saving => h.probe.Alive? && !h.saved && !h.tallied
       case Walking(stage, next) => h.probe.Alive? && h.saved && !h.tallied && next <= |c.Ports(stage)|
       case Joining(_) => h.probe.Alive? && h.saved && !h.tallied
       case Tallying => h.probe.Alive? && h.saved && !h.tallied
       case _ => !h.probe.Pending? && h.saved == h.tallied && (h.saved ==> h.probe.Alive?)
  }

  /** The host task is inside the stage's call, so a port task of that stage has its parent there. */
  predicate InStage(phase: Phase, stage: Stage) {
    (phase.Walking? || phase.Joining?) && phase.stage == stage
  }

  predicate MainOk(c: Setup, s: State) {
    && |s.hosts| <= |c.addrs|
    && (forall k :: 0 <= k < |s.hosts| ==> s.hosts[k].addr == c.addrs[k])
    && match s.main
       case Checking(next) => next == |s.hosts|
       case Sending(next) => next == |s.hosts| && next < |c.addrs|
       case Waiting => !s.cancelled ==> |s.hosts| == |c.addrs|
       case Returned(total) => total == s.count && AllFinished(s) && (!s.cancelled ==> |s.hosts| == |c.addrs|)
  }

  predicate CountersOk(c: Setup, s: State) {
    && s.used == HostSlots(s) + PortSlots(s) <= c.workers
    && s.count == Count(s.hosts, IsTallied)
    && s.successes == Count(s.hosts, IsAlive)
    && s.failures == Count(s.hosts, IsDead)
  }

  /** Port tasks belong to launched hosts; without cancellation none outlives its parent's stage. */
  predicate PortsOk(s: State) {
    forall k :: 0 <= k < |s.ports| ==>
      && s.ports[k].owner < |s.hosts|
      && (!s.cancelled && !s.ports[k].phase.PortFinished?
          ==> InStage(s.hosts[s.ports[k].owner].phase, s.ports[k].stage))
  }

  predicate Inv(c: Setup, s: State) {
    && MainOk(c, s)
    && CountersOk(c, s)
    && PortsOk(s)
    && forall k :: 0 <= k < |s.hosts| ==> HostOk(c, s.hosts[k])
  }

  lemma InvInit(c: Setup)
    ensures Inv(c, Init())
  {
    assert Where(Init().hosts, HoldsHost) == {};
    assert Where(Init().ports, HoldsPort) == {};
    assert Where(Init().hosts, IsTallied) == {};
    assert Where(Init().hosts, IsAlive) == {};
    assert Where(Init().hosts, IsDead) == {};
  }

  lemma CountHostUpdate(hs: seq<HostTask>, h: nat, x: HostTask)
    requires h < |hs|
    ensures Count(hs[h := x], HoldsHost) == Count(hs, HoldsHost) - Unit(hs[h].Holds()) + Unit(x.Holds())
    ensures Count(hs[h := x], IsTallied) == Count(hs, IsTallied) - Unit(hs[h].tallied) + Unit(x.tallied)
    ensures Count(hs[h := x], IsAlive) == Count(hs, IsAlive) - Unit(hs[h].probe.Alive?) + Unit(x.probe.Alive?)
    ensures Count(hs[h := x], IsDead) == Count(hs, IsDead) - Unit(hs[h].probe.Dead?) + Unit(x.probe.Dead?)
  {
    CountUpdate(hs, h, x, HoldsHost);
    CountUpdate(hs, h, x, IsTallied);
    CountUpdate(hs, h, x, IsAlive);
    CountUpdate(hs, h, x, IsDead);
  }

  /** The counters an act moves are those of the host task it changes. */
  lemma ActDeltas(c: Setup, s: State, h: nat, act: Act)
    requires h < |s.hosts| && HostOk(c, s.hosts[h]) && CanAct(c, s, h, act)
    ensures
      var t, x, y := Apply(c, s, Own(h, act)), s.hosts[h], Acted(s.hosts[h], act);
      && t.used == s.used - Unit(x.Holds()) + Unit(y.Holds())
      && t.count == s.count - Unit(x.tallied) + Unit(y.tallied)
      && t.successes == s.successes - Unit(x.probe.Alive?) + Unit(y.probe.Alive?)
      && t.failures == s.failures - Unit(x.probe.Dead?) + Unit(y.probe.Dead?)
      && (x.Holds() || !y.Holds())
  {
  }

  lemma CountersStep(c: Setup, s: State, step: Step)
    requires Inv(c, s) && Enabled(c, s, step)
    ensures CountersOk(c, Apply(c, s, step))
  {
    if step.Own? {
      ActDeltas(c, s, step.h, step.act);
      CountHostUpdate(s.hosts, step.h, Acted(s.hosts[step.h], step.act));
    } else {
      CountersOther(c, s, step);
    }
  }

  lemma CountersOther(c: Setup, s: State, step: Step)
    requires Inv(c, s) && Enabled(c, s, step) && !step.Own?
    ensures CountersOk(c, Apply(c, s, step))
  {
    match step
    case Launch => LaunchCounters(c, s);
    case Spawn(h) => SpawnCounters(c, s, h);
    case Report(p, open) => ReportCounters(c, s, p, open);
    case ReleasePort(p) => CountUpdate(s.ports, p, s.ports[p].(phase := PortSignalling), HoldsPort);
    case SignalPort(p) => CountUpdate(s.ports, p, s.ports[p].(phase := PortFinished), HoldsPort);
    case _ =>
  }

  lemma LaunchCounters(c: Setup, s: State)
    requires CountersOk(c, s) && Enabled(c, s, Launch)
    ensures CountersOk(c, Apply(c, s, Launch))
  {
    var x := FreshHost(c.addrs[s.main.next]);
    CountAppend(s.hosts, x, HoldsHost);
    CountAppend(s.hosts, x, IsTallied);
    CountAppend(s.hosts, x, IsAlive);
    CountAppend(s.hosts, x, IsDead);
  }

  lemma SpawnCounters(c: Setup, s: State, h: nat)
    requires CountersOk(c, s) && Enabled(c, s, Spawn(h))
    ensures CountersOk(c, Apply(c, s, Spawn(h)))
  {
    var t := Apply(c, s, Spawn(h));
    CountHostUpdate(s.hosts, h, t.hosts[h]);
    CountAppend(s.ports, t.ports[|s.ports|], HoldsPort);
  }

  lemma ReportCounters(c: Setup, s: State, p: nat, open: bool)
    requires CountersOk(c, s) && Enabled(c, s, Report(p, open))
    ensures CountersOk(c, Apply(c, s, Report(p, open)))
  {
    var owner := s.ports[p].owner;
    CountUpdate(s.ports, p, s.ports[p].(phase := PortLeaving), HoldsPort);
    CountHostUpdate(s.hosts, owner, Heard(s.hosts[owner], s.ports[p], open));
  }

  lemma ActHostOk(c: Setup, s: State, h: nat, act: Act)
    requires h < |s.hosts| && CanAct(c, s, h, act) && HostOk(c, s.hosts[h])
    ensures HostOk(c, Acted(s.hosts[h], act))
    ensures Acted(s.hosts[h], act).addr == s.hosts[h].addr && !s.hosts[h].phase.Finished?
  {
  }

  lemma HostsStep(c: Setup, s: State, step: Step)
    requires Inv(c, s) && Enabled(c, s, step)
    ensures forall k :: 0 <= k < |Apply(c, s, step).hosts| ==> HostOk(c, Apply(c, s, step).hosts[k])
  {
    if step.Own? {
      ActHostOk(c, s, step.h, step.act);
    } else {
      OtherHosts(c, s, step);
    }
  }

  lemma OtherHosts(c: Setup, s: State, step: Step)
    requires Enabled(c, s, step) && !step.Own? && forall k :: 0 <= k < |s.hosts| ==> HostOk(c, s.hosts[k])
    ensures forall k :: 0 <= k < |Apply(c, s, step).hosts| ==> HostOk(c, Apply(c, s, step).hosts[k])
  {
    var t := Apply(c, s, step);
    forall k | 0 <= k < |t.hosts| ensures HostOk(c, t.hosts[k]) {
      if k < |s.hosts| { assert HostOk(c, s.hosts[k]); }
    }
  }

  lemma MainStep(c: Setup, s: State, step: Step)
    requires Inv(c, s) && Enabled(c, s, step)
    ensures MainOk(c, Apply(c, s, step))
  {
    if step.Own? {
      ActHostOk(c, s, step.h, step.act);
    } else if step.Cancel? || step.Check? || step.Launch? || step.Return? {
      LoopStepMain(c, s, step);
    } else {
      TaskStepMain(c, s, step);
    }
  }

  lemma LoopStepMain(c: Setup, s: State, step: Step)
    requires MainOk(c, s) && Enabled(c, s, step) && (step.Cancel? || step.Check? || step.Launch? || step.Return?)
    ensures MainOk(c, Apply(c, s, step))
  {
  }

  lemma TaskStepMain(c: Setup, s: State, step: Step)
    requires MainOk(c, s) && Enabled(c, s, step)
        && (step.Spawn? || step.Report? || step.ReleasePort? || step.SignalPort?)
    ensures MainOk(c, Apply(c, s, step))
  {
  }

  lemma PortsStep(c: Setup, s: State, step: Step)
    requires Inv(c, s) && Enabled(c, s, step)
    ensures PortsOk(Apply(c, s, step))
  {
    if step.Own? {
      ActPorts(c, s, step.h, step.act);
    } else {
      OtherPorts(c, s, step);
    }
  }

  lemma ActPorts(c: Setup, s: State, h: nat, act: Act)
    requires PortsOk(s) && Enabled(c, s, Own(h, act))
    ensures PortsOk(Apply(c, s, Own(h, act)))
  {
    var t := Apply(c, s, Own(h, act));
    forall k | 0 <= k < |s.ports| && s.ports[k].owner == h && !s.cancelled && !s.ports[k].phase.PortFinished?
      ensures InStage(t.hosts[h].phase, s.ports[k].stage)
    {
      assert InStage(s.hosts[h].phase, s.ports[k].stage);
    }
  }

  lemma OtherPorts(c: Setup, s: State, step: Step)
    requires PortsOk(s) && Enabled(c, s, step) && !step.Own?
    ensures PortsOk(Apply(c, s, step))
  {
    var t := Apply(c, s, step);
    forall k | 0 <= k < |t.ports|
      ensures t.ports[k].owner < |t.hosts|
      ensures !t.cancelled && !t.ports[k].phase.PortFinished?
          ==> InStage(t.hosts[t.ports[k].owner].phase, t.ports[k].stage)
    {
      if k < |s.ports| {
        assert s.ports[k].owner < |s.hosts|;
        assert t.ports[k].owner == s.ports[k].owner && t.ports[k].stage == s.ports[k].stage;
      }
    }
  }

  /** Every step keeps the invariant. */
  lemma InvStep(c: Setup, s: State, step: Step)
    requires Inv(c, s) && Enabled(c, s, step)
    ensures Inv(c, Apply(c, s, step))
  {
    MainStep(c, s, step);
    CountersStep(c, s, step);
    PortsStep(c, s, step);
    HostsStep(c, s, step);
  }

  lemma {:induction false} InvExec(c: Setup, s: State, steps: seq<Step>)
    requires Inv(c, s) && Feasible(c, s, steps)
    ensures Inv(c, Exec(c, s, steps))
    decreases |steps|
  {
    if steps == [] {
    } else {
      InvStep(c, s, steps[0]);
      InvExec(c, Apply(c, s, steps[0]), steps[1..]);
    }
  }

  lemma InvReachable(c: Setup, s: State)
    requires Reachable(c, s)
    ensures Inv(c, s)
  {
    var steps :| Feasible(c, Init(), steps) && Exec(c, Init(), steps) == s;
    InvInit(c);
    InvExec(c, Init(), steps);
  }

  // ---- Conservation -------------------------------------------------------

  /** In every reachable state, cancelled or not, the slots in use are the live host tasks plus the
      live port tasks and never exceed the pool; the launched tasks are those of a prefix of the
      address list, in order, one task an address. */
  lemma SlotConservation(c: Setup, s: State)
    requires Reachable(c, s)
    ensures s.used
            == |set k: nat | k < |s.hosts| && s.hosts[k].Holds()| + |set k: nat | k < |s.ports| && s.ports[k].Holds()|
    ensures s.used <= c.workers
    ensures |s.hosts| <= |c.addrs|
    ensures forall k :: 0 <= k < |s.hosts| ==> s.hosts[k].addr == c.addrs[k]
  {
    InvReachable(c, s);
    assert Where(s.hosts, HoldsHost) == set k: nat | k < |s.hosts| && s.hosts[k].Holds();
    assert Where(s.ports, HoldsPort) == set k: nat | k < |s.ports| && s.ports[k].Holds();
  }

  /** A Scan returns the number of hosts whose first upsert succeeded, cancelled or not.  After a
      return the slots still in use are those of port tasks that outlived their parents. */
  lemma ReturnedCount(c: Setup, s: State)
    requires Reachable(c, s) && s.main.Returned?
    ensures s.main.total == |set k: nat | k < |s.hosts| && s.hosts[k].saved|
    ensures s.successes + s.failures == |s.hosts|
    ensures s.used == |set k: nat | k < |s.ports| && s.ports[k].Holds()|
  {
    InvReachable(c, s);
    forall k | 0 <= k < |s.hosts|
      ensures s.hosts[k].saved == s.hosts[k].tallied && s.hosts[k].probe.Alive? != s.hosts[k].probe.Dead?
          && !s.hosts[k].Holds()
    {
      assert HostOk(c, s.hosts[k]) && s.hosts[k].phase.Finished?;
    }
    assert Where(s.hosts, IsTallied) == set k: nat | k < |s.hosts| && s.hosts[k].saved;
    CountSplit(s.hosts, IsAlive, IsDead);
    CountZero(s.hosts, HoldsHost);
    assert Where(s.ports, HoldsPort) == set k: nat | k < |s.ports| && s.ports[k].Holds();
  }

  /** An uncancelled Scan that returns has probed every address and given every slot back. */
  lemma UncancelledReturn(c: Setup, s: State)
    requires Reachable(c, s) && s.main.Returned? && !s.cancelled
    ensures s.used == 0
    ensures |s.hosts| == |c.addrs|
    ensures s.successes + s.failures == |c.addrs|
    ensures forall k :: 0 <= k < |s.ports| ==> s.ports[k].phase.PortFinished?
  {
    InvReachable(c, s);
    ReturnedCount(c, s);
    forall k | 0 <= k < |s.ports|
      ensures s.ports[k].phase.PortFinished?
    {
      assert s.hosts[s.ports[k].owner].phase.Finished?;
    }
    CountZero(s.hosts, HoldsHost);
    CountZero(s.ports, HoldsPort);
  }
}
