/**
What an uncancelled Scan hands to the classifier: for a fixed network the two port lists
of a host do not depend, up to order, on the schedule of the worker pool.
*/
module ScanPoolResults {
  import opened Counting
  import opened ScanPool
  import opened Classify

  /** Which ports answer on which launched address. */
  datatype World = World(tcp: (nat, int) -> bool, udp: (nat, int) -> bool) {
    predicate Answers(h: nat, stage: Stage, port: int) {
      if stage.Deep? then tcp(h, port) else udp(h, port)
    }
  }

  /** The step reports what the world answers. */
  predicate Agrees(w: World, s: State, step: Step) {
    match step
    case Own(h, act) => act.ProbeAnswers? ==> w.tcp(h, act.port)
    case Report(p, open) => p < |s.ports| && open == w.Answers(s.ports[p].owner, s.ports[p].stage, s.ports[p].port)
    case _ => true
  }

  /** A run without cancellation in which every answer is the world's. */
  ghost predicate Observes(c: Setup, w: World, s: State, steps: seq<Step>)
    decreases |steps|
  {
    steps == [] ||
    (Enabled(c, s, steps[0]) && !steps[0].Cancel? && Agrees(w, s, steps[0])
        && Observes(c, w, Apply(c, s, steps[0]), steps[1..]))
  }

  lemma {:induction false} ObservedIsFeasible(c: Setup, w: World, s: State, steps: seq<Step>)
    requires Observes(c, w, s, steps)
    ensures Feasible(c, s, steps)
    decreases |steps|
  {
    if steps == [] {
    } else {
      ObservedIsFeasible(c, w, Apply(c, s, steps[0]), steps[1..]);
    }
  }

  /** The deep stage does not dial the port the liveness probe found. */
  predicate Dialled(stage: Stage, known: ProbeResult, r: int) {
    stage.Deep? ==> known != Alive(r)
  }

  /** How often port r is heard open when the whole list has been walked: once an occurrence if it is dialled
      and answers, never otherwise. */
  function Heardable(w: World, h: nat, stage: Stage, known: ProbeResult, list: seq<int>, r: int): nat {
    if Dialled(stage, known, r) && w.Answers(h, stage, r) then Occurs(list, r) else 0
  }

  /** Tasks of host h and this stage that are dialling port r. */
  function InFlight(h: nat, stage: Stage, ps: seq<PortTask>, r: int): nat {
    if ps == [] then 0 else InFlight(h, stage, ps[..|ps| - 1], r) + Due(h, stage, ps[|ps| - 1], r)
  }

  function Due(h: nat, stage: Stage, t: PortTask, r: int): nat {
    if t.owner == h && t.stage == stage && t.phase.Dialling? && t.port == r then 1 else 0
  }

  lemma {:induction false} InFlightUpdate(h: nat, stage: Stage, ps: seq<PortTask>, k: nat, t: PortTask, r: int)
    requires k < |ps|
    ensures InFlight(h, stage, ps[k := t], r)
        == InFlight(h, stage, ps, r) - Due(h, stage, ps[k], r) + Due(h, stage, t, r)
    decreases |ps|
  {
    var n := |ps| - 1;
    if k == n {
      assert ps[k := t][..n] == ps[..n];
    } else {
      assert ps[k := t][..n] == ps[..n][k := t];
      InFlightUpdate(h, stage, ps[..n], k, t, r);
    }
  }

  lemma InFlightAppend(h: nat, stage: Stage, ps: seq<PortTask>, t: PortTask, r: int)
    ensures InFlight(h, stage, ps + [t], r) == InFlight(h, stage, ps, r) + Due(h, stage, t, r)
  {
    assert (ps + [t])[..|ps|] == ps;
  }

  lemma {:induction false} InFlightNone(h: nat, stage: Stage, ps: seq<PortTask>, r: int)
    requires forall k :: 0 <= k < |ps| && ps[k].owner == h && ps[k].stage == stage ==> ps[k].phase.PortFinished?
    ensures InFlight(h, stage, ps, r) == 0
    decreases |ps|
  {
    if ps == [] {
    } else {
      InFlightNone(h, stage, ps[..|ps| - 1], r);
    }
  }

  function Out(x: HostTask, stage: Stage): seq<int> {
    if stage.Deep? then x.deepOut else x.udpOut
  }

  /** What the stage has heard of port r, and will hear from its `flying` tasks, is what the walked part of
      its list gives. */
  predicate Walked(w: World, h: nat, x: HostTask, stage: Stage, flying: nat, walked: seq<int>, r: int) {
    if Dialled(stage, x.probe, r) && w.Answers(h, stage, r)
    then Occurs(Out(x, stage), r) + flying == Occurs(walked, r)
    else Occurs(Out(x, stage), r) == 0 && (!Dialled(stage, x.probe, r) ==> flying == 0)
  }

  predicate DeepDone(c: Setup, w: World, h: nat, x: HostTask, r: int) {
    x.probe.Alive? && Occurs(x.tcp, r) == Occurs([x.probe.port], r) + Heardable(w, h, Deep, x.probe, c.Ports(Deep), r)
  }

  predicate UdpDone(c: Setup, w: World, h: nat, x: HostTask, r: int) {
    Occurs(x.udp, r) == Heardable(w, h, Udp, x.probe, c.Ports(Udp), r)
  }

  /** Port r in the lists of host task x with `deep` and `udp` tasks for r in flight, by its phase. */
  predicate TaskOk(c: Setup, w: World, h: nat, x: HostTask, deep: nat, udp: nat, r: int) {
    && (x.probe.Alive? ==> w.tcp(h, x.probe.port))
    && match x.phase
       case Probing => x.deepOut == [] && x.udpOut == []
       case Saving => x.deepOut == [] && x.udpOut == []
       case Walking(Deep, next) =>
         x.udpOut == [] && next <= |c.Ports(Deep)| && Walked(w, h, x, Deep, deep, c.Ports(Deep)[..next], r)
       case Joining(Deep) =>
         x.udpOut == [] && Walked(w, h, x, Deep, deep, c.Ports(Deep), r)
       case Walking(Udp, next) =>
         DeepDone(c, w, h, x, r) && next <= |c.Ports(Udp)| && Walked(w, h, x, Udp, udp, c.Ports(Udp)[..next], r)
       case Joining(Udp) =>
         DeepDone(c, w, h, x, r) && Walked(w, h, x, Udp, udp, c.Ports(Udp), r)
       case _ => x.saved ==> DeepDone(c, w, h, x, r) && UdpDone(c, w, h, x, r)
  }

  predicate ListsOk(c: Setup, w: World, s: State, h: nat, r: int)
    requires h < |s.hosts|
  {
    TaskOk(c, w, h, s.hosts[h], InFlight(h, Deep, s.ports, r), InFlight(h, Udp, s.ports, r), r)
  }

  /** A host outside a stage has no port task of that stage in flight. */
  lemma NothingInFlight(s: State, h: nat, stage: Stage, r: int)
    requires PortsOk(s) && !s.cancelled && h < |s.hosts| && !InStage(s.hosts[h].phase, stage)
    ensures InFlight(h, stage, s.ports, r) == 0
  {
    InFlightNone(h, stage, s.ports, r);
  }

  lemma OccursNext(list: seq<int>, next: nat, r: int)
    requires next < |list|
    ensures Occurs(list[..next + 1], r) == Occurs(list[..next], r) + Occurs([list[next]], r)
  {
    assert list[..next + 1] == list[..next] + [list[next]];
  }

  lemma OccursAppend(list: seq<int>, p: int, r: int)
    ensures Occurs(list + [p], r) == Occurs(list, r) + (if p == r then 1 else 0)
  {
  }

  /** An act of a host task keeps its own lists right. */
  lemma ActLists(c: Setup, w: World, s: State, h: nat, act: Act, r: int)
    requires Inv(c, s) && !s.cancelled && h < |s.hosts| && CanAct(c, s, h, act)
    requires act.ProbeAnswers? ==> w.tcp(h, act.port)
    requires ListsOk(c, w, s, h, r)
    ensures TaskOk(c, w, h, Acted(s.hosts[h], act), InFlight(h, Deep, s.ports, r), InFlight(h, Udp, s.ports, r), r)
  {
    var x := s.hosts[h];
    assert HostOk(c, x);
    if act.Join? {
      JoinLists(c, w, s, h, r);
    } else if act.Save? {
      SaveLists(c, w, s, h, r);
    } else if act.SkipKnown? || act.StartJoin? {
      WalkLists(c, w, h, x, act, InFlight(h, Deep, s.ports, r), InFlight(h, Udp, s.ports, r), r);
    }
  }

  lemma WalkLists(c: Setup, w: World, h: nat, x: HostTask, act: Act, deep: nat, udp: nat, r: int)
    requires HostOk(c, x) && TaskOk(c, w, h, x, deep, udp, r)
    requires (act.SkipKnown? && AtKnown(c, x)) || (act.StartJoin? && x.phase.Walking? && !HasPort(c, x))
    ensures TaskOk(c, w, h, Acted(x, act), deep, udp, r)
  {
    if act.SkipKnown? {
      OccursNext(c.Ports(Deep), x.phase.next, r);
    } else {
      assert c.Ports(x.phase.stage)[..|c.Ports(x.phase.stage)|] == c.Ports(x.phase.stage);
    }
  }

  lemma SaveLists(c: Setup, w: World, s: State, h: nat, r: int)
    requires Inv(c, s) && !s.cancelled && h < |s.hosts| && CanAct(c, s, h, Save) && ListsOk(c, w, s, h, r)
    ensures TaskOk(c, w, h, Acted(s.hosts[h], Save), InFlight(h, Deep, s.ports, r), InFlight(h, Udp, s.ports, r), r)
  {
    NothingInFlight(s, h, Deep, r);
    assert c.Ports(Deep)[..0] == [];
  }

  lemma JoinLists(c: Setup, w: World, s: State, h: nat, r: int)
    requires Inv(c, s) && !s.cancelled && h < |s.hosts| && CanAct(c, s, h, Join) && ListsOk(c, w, s, h, r)
    ensures TaskOk(c, w, h, Acted(s.hosts[h], Join), InFlight(h, Deep, s.ports, r), InFlight(h, Udp, s.ports, r), r)
  {
    var x := s.hosts[h];
    assert HostOk(c, x);
    InFlightNone(h, x.phase.stage, s.ports, r);
    var y := Acted(x, Join);
    if x.phase.stage.Deep? {
      NothingInFlight(s, h, Udp, r);
      assert c.Ports(Udp)[..0] == [];
      assert y.tcp == [x.probe.port] + x.deepOut;
      assert Occurs(y.tcp, r) == Occurs([x.probe.port], r) + Occurs(x.deepOut, r);
    }
  }

  lemma SpawnLists(c: Setup, w: World, s: State, p: nat, h: nat, r: int)
    requires h < |s.hosts| && ListsOk(c, w, s, h, r) && Enabled(c, s, Spawn(p))
    ensures ListsOk(c, w, Apply(c, s, Spawn(p)), h, r)
  {
    SpawnFlights(c, s, p, h, Deep, r);
    SpawnFlights(c, s, p, h, Udp, r);
    if h == p {
      ParentLists(c, w, s, p, r);
    } else {
      assert Apply(c, s, Spawn(p)).hosts[h] == s.hosts[h];
    }
  }

  lemma ParentLists(c: Setup, w: World, s: State, p: nat, r: int)
    requires p < |s.hosts| && ListsOk(c, w, s, p, r) && Enabled(c, s, Spawn(p))
    ensures ListsOk(c, w, Apply(c, s, Spawn(p)), p, r)
  {
    SpawnFlights(c, s, p, p, Deep, r);
    SpawnFlights(c, s, p, p, Udp, r);
    SpawnedLists(c, w, p, s.hosts[p], InFlight(p, Deep, s.ports, r), InFlight(p, Udp, s.ports, r), r);
  }

  /** A host that spawns the task for its next port has one more occurrence in flight and one more walked. */
  lemma SpawnedLists(c: Setup, w: World, h: nat, x: HostTask, deep: nat, udp: nat, r: int)
    requires TaskOk(c, w, h, x, deep, udp, r) && Awaiting(c, x)
    ensures
      var hit := if c.Ports(x.phase.stage)[x.phase.next] == r then 1 else 0;
      var y := x.(phase := Walking(x.phase.stage, x.phase.next + 1));
      var deep' := if x.phase.stage.Deep? then deep + hit else deep;
      var udp' := if x.phase.stage.Udp? then udp + hit else udp;
      TaskOk(c, w, h, y, deep', udp', r)
  {
    OccursNext(c.Ports(x.phase.stage), x.phase.next, r);
  }

  /** The in-flight counts of host h after host p has spawned its next port task. */
  lemma SpawnFlights(c: Setup, s: State, p: nat, h: nat, stage: Stage, r: int)
    requires Enabled(c, s, Spawn(p))
    ensures
      var x := s.hosts[p].phase;
      InFlight(h, stage, Apply(c, s, Spawn(p)).ports, r)
      == InFlight(h, stage, s.ports, r) + if h == p && stage == x.stage && c.Ports(stage)[x.next] == r then 1 else 0
  {
    InFlightAppend(h, stage, s.ports, Apply(c, s, Spawn(p)).ports[|s.ports|], r);
  }

  /** A port task that reports moves one occurrence from its flight to the out list of its owner's stage. */
  lemma HeardLists(c: Setup, w: World, x: HostTask, t: PortTask, deep: nat, udp: nat, r: int)
    requires TaskOk(c, w, t.owner, x, deep, udp, r) && InStage(x.phase, t.stage)
    requires t.port == r ==> if t.stage.Deep? then deep > 0 else udp > 0
    ensures
      var d := if t.port == r && t.stage.Deep? then 1 else 0;
      var u := if t.port == r && t.stage.Udp? then 1 else 0;
      TaskOk(c, w, t.owner, Heard(x, t, w.Answers(t.owner, t.stage, t.port)), deep - d, udp - u, r)
  {
    if t.stage.Deep? {
      OccursAppend(x.deepOut, t.port, r);
    } else {
      OccursAppend(x.udpOut, t.port, r);
    }
  }

  /** The in-flight counts of host h after task p has reported. */
  lemma ReportFlights(s: State, p: nat, h: nat, stage: Stage, r: int)
    requires p < |s.ports| && s.ports[p].phase.Dialling?
    ensures
      var d := if s.ports[p].owner == h && s.ports[p].stage == stage && s.ports[p].port == r then 1 else 0;
      && d <= InFlight(h, stage, s.ports, r)
      && InFlight(h, stage, SetPort(s, p, PortLeaving).ports, r) == InFlight(h, stage, s.ports, r) - d
  {
    InFlightUpdate(h, stage, s.ports, p, s.ports[p].(phase := PortLeaving), r);
    DueBound(h, stage, s.ports, p, r);
  }

  lemma ReportLists(c: Setup, w: World, s: State, p: nat, open: bool, h: nat, r: int)
    requires Inv(c, s) && !s.cancelled && h < |s.hosts| && ListsOk(c, w, s, h, r)
    requires Enabled(c, s, Report(p, open)) && Agrees(w, s, Report(p, open))
    ensures ListsOk(c, w, Apply(c, s, Report(p, open)), h, r)
  {
    ReportFlights(s, p, h, Deep, r);
    ReportFlights(s, p, h, Udp, r);
    if h == s.ports[p].owner {
      OwnerHears(c, w, s, p, open, r);
    } else {
      assert Apply(c, s, Report(p, open)).hosts[h] == s.hosts[h];
    }
  }

  lemma OwnerHears(c: Setup, w: World, s: State, p: nat, open: bool, r: int)
    requires Inv(c, s) && !s.cancelled
    requires Enabled(c, s, Report(p, open)) && Agrees(w, s, Report(p, open))
    requires s.ports[p].owner < |s.hosts| && ListsOk(c, w, s, s.ports[p].owner, r)
    ensures ListsOk(c, w, Apply(c, s, Report(p, open)), s.ports[p].owner, r)
  {
    var task, h := s.ports[p], s.ports[p].owner;
    assert InStage(s.hosts[h].phase, task.stage);
    ReportFlights(s, p, h, Deep, r);
    ReportFlights(s, p, h, Udp, r);
    HeardLists(c, w, s.hosts[h], task, InFlight(h, Deep, s.ports, r), InFlight(h, Udp, s.ports, r), r);
  }

  lemma {:induction false} DueBound(h: nat, stage: Stage, ps: seq<PortTask>, k: nat, r: int)
    requires k < |ps|
    ensures Due(h, stage, ps[k], r) <= InFlight(h, stage, ps, r)
    decreases |ps|
  {
    if k < |ps| - 1 {
      DueBound(h, stage, ps[..|ps| - 1], k, r);
    }
  }

  lemma PortStepLists(c: Setup, w: World, s: State, step: Step, h: nat, r: int)
    requires Inv(c, s) && h < |s.hosts| && ListsOk(c, w, s, h, r)
    requires Enabled(c, s, step) && (step.ReleasePort? || step.SignalPort?)
    ensures ListsOk(c, w, Apply(c, s, step), h, r)
  {
    PortStepFlights(c, s, step, h, Deep, r);
    PortStepFlights(c, s, step, h, Udp, r);
  }

  lemma PortStepFlights(c: Setup, s: State, step: Step, h: nat, stage: Stage, r: int)
    requires Enabled(c, s, step) && (step.ReleasePort? || step.SignalPort?)
    ensures InFlight(h, stage, Apply(c, s, step).ports, r) == InFlight(h, stage, s.ports, r)
    ensures Apply(c, s, step).hosts == s.hosts
  {
    InFlightUpdate(h, stage, s.ports, step.p, Apply(c, s, step).ports[step.p], r);
  }

  lemma MainStepLists(c: Setup, w: World, s: State, step: Step, h: nat, r: int)
    requires Inv(c, s) && Enabled(c, s, step) && (step.Check? || step.Launch? || step.Return?)
    requires h < |s.hosts| ==> ListsOk(c, w, s, h, r)
    requires h < |Apply(c, s, step).hosts|
    ensures ListsOk(c, w, Apply(c, s, step), h, r)
  {
  }

  /** Every uncancelled step that reports what the world answers keeps the lists of every host right. */
  lemma ListsStep(c: Setup, w: World, s: State, step: Step, h: nat, r: int)
    requires Inv(c, s) && !s.cancelled && Enabled(c, s, step) && !step.Cancel? && Agrees(w, s, step)
    requires h < |s.hosts| ==> ListsOk(c, w, s, h, r)
    requires h < |Apply(c, s, step).hosts|
    ensures ListsOk(c, w, Apply(c, s, step), h, r)
  {
    if step.Own? {
      if h == step.h {
        ActLists(c, w, s, h, step.act, r);
      }
    } else if step.Spawn? {
      SpawnLists(c, w, s, step.h, h, r);
    } else if step.Report? {
      ReportLists(c, w, s, step.p, step.open, h, r);
    } else if step.ReleasePort? || step.SignalPort? {
      PortStepLists(c, w, s, step, h, r);
    } else {
      MainStepLists(c, w, s, step, h, r);
    }
  }

  lemma {:induction false} ListsKept(c: Setup, w: World, s: State, steps: seq<Step>, h: nat, r: int)
    requires Inv(c, s) && !s.cancelled && Observes(c, w, s, steps)
    requires h < |s.hosts| ==> ListsOk(c, w, s, h, r)
    requires Feasible(c, s, steps) && h < |Exec(c, s, steps).hosts|
    ensures ListsOk(c, w, Exec(c, s, steps), h, r)
    decreases |steps|
  {
    if steps == [] {
    } else {
      var t := Apply(c, s, steps[0]);
      if h < |t.hosts| {
        ListsStep(c, w, s, steps[0], h, r);
      }
      InvStep(c, s, steps[0]);
      ListsKept(c, w, t, steps[1..], h, r);
    }
  }

  /** Both stages of host h have returned in state s, reached by an uncancelled run over the world. */
  ghost predicate Classified(c: Setup, w: World, s: State, h: nat) {
    && h < |s.hosts| && s.hosts[h].saved
    && (s.hosts[h].phase.Tallying? || s.hosts[h].phase.Leaving? || s.hosts[h].phase.Signalling?
        || s.hosts[h].phase.Finished?)
    && Observed(c, w, s)
  }

  /** Some uncancelled run in which the network answers as this world reaches the state. */
  ghost predicate Observed(c: Setup, w: World, s: State) {
    exists steps :: Observes(c, w, Init(), steps) && Feasible(c, Init(), steps) && Exec(c, Init(), steps) == s
  }

  /** The classifier sees the liveness port and exactly the answering ports of the two lists, an occurrence of
      a list each; the known port is not dialled again. */
  lemma FinalLists(c: Setup, w: World, s: State, h: nat)
    requires Classified(c, w, s, h)
    ensures s.hosts[h].probe.Alive? && s.hosts[h].probe.port in c.probePorts && w.tcp(h, s.hosts[h].probe.port)
    ensures forall r :: Occurs(s.hosts[h].tcp, r) ==
                        if r == s.hosts[h].probe.port then 1 else if w.tcp(h, r) then Occurs(c.Ports(Deep), r) else 0
    ensures forall r :: Occurs(s.hosts[h].udp, r) == if w.udp(h, r) then Occurs(c.Ports(Udp), r) else 0
  {
    var steps :| Observes(c, w, Init(), steps) && Feasible(c, Init(), steps) && Exec(c, Init(), steps) == s;
    InvInit(c);
    InvExec(c, Init(), steps);
    assert HostOk(c, s.hosts[h]);
    forall r
      ensures ListsOk(c, w, s, h, r)
      ensures Occurs(s.hosts[h].tcp, r) ==
              if r == s.hosts[h].probe.port then 1 else if w.tcp(h, r) then Occurs(c.Ports(Deep), r) else 0
      ensures Occurs(s.hosts[h].udp, r) == if w.udp(h, r) then Occurs(c.Ports(Udp), r) else 0
    {
      ListsKept(c, w, Init(), steps, h, r);
    }
    assert ListsOk(c, w, s, h, 0);
  }

  /** For a fixed network, vendor and banner, and the same liveness winner, every uncancelled schedule gives
      a host the same device type. */
  lemma ScheduleIndependent(c: Setup, w: World, s: State, t: State, h: nat, vendor: string, banner: string)
    requires Classified(c, w, s, h) && Classified(c, w, t, h)
    requires s.hosts[h].probe == t.hosts[h].probe
    ensures Type(vendor, banner, s.hosts[h].tcp, s.hosts[h].udp) == Type(vendor, banner, t.hosts[h].tcp, t.hosts[h].udp)
  {
    FinalLists(c, w, s, h);
    FinalLists(c, w, t, h);
    SameCounts(s.hosts[h].tcp, t.hosts[h].tcp);
    SameCounts(s.hosts[h].udp, t.hosts[h].udp);
    OrderIrrelevant(vendor, banner, s.hosts[h].tcp, t.hosts[h].tcp, s.hosts[h].udp, t.hosts[h].udp);
  }
}
