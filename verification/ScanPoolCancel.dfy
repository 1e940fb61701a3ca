/**
Cancelled runs of the worker pool: a cancellation stops the launching, the two stages still run in order,
what the classifier gets is still true of the network, and port tasks may outlive the Scan.
*/
module ScanPoolCancel {
  import opened Counting
  import opened ScanPool
  import opened ScanPoolProgress
  import opened ScanPoolResults

  // ---- Launching stops --------------------------------------------------------------

  lemma CancelledStep(c: Setup, s: State, step: Step)
    requires s.cancelled && Enabled(c, s, step)
    ensures
      var t := Apply(c, s, step);
      && t.cancelled
      && (if s.main.Sending? then |t.hosts| <= |s.hosts| + 1 else |t.hosts| == |s.hosts| && !t.main.Sending?)
      && (|t.hosts| > |s.hosts| ==> !t.main.Sending?)
  {
  }

  /** After a cancellation nothing is launched, but for the one address whose send on the semaphore was already past
      the test of the context. */
  lemma {:induction false} CancelStopsLaunching(c: Setup, s: State, steps: seq<Step>)
    requires s.cancelled && Feasible(c, s, steps)
    ensures |Exec(c, s, steps).hosts| <= |s.hosts| + 1
    ensures !s.main.Sending? ==> |Exec(c, s, steps).hosts| == |s.hosts|
    decreases |steps|
  {
    if steps == [] {
    } else {
      CancelledStep(c, s, steps[0]);
      CancelStopsLaunching(c, Apply(c, s, steps[0]), steps[1..]);
    }
  }

  /** So the count a cancelled Scan returns is at most the number of hosts launched before the cancellation plus
      one, and at most that number unless a send was pending. */
  lemma CancelledCount(c: Setup, s: State, steps: seq<Step>)
    requires Reachable(c, s) && s.cancelled && Feasible(c, s, steps) && Exec(c, s, steps).main.Returned?
    ensures Exec(c, s, steps).main.total <= |s.hosts| + (if s.main.Sending? then 1 else 0)
  {
    var t := Exec(c, s, steps);
    CancelStopsLaunching(c, s, steps);
    var before :| Feasible(c, Init(), before) && Exec(c, Init(), before) == s;
    ExecAppend(c, Init(), before, steps);
    assert Reachable(c, t);
    InvReachable(c, t);
    CountBelow(t.hosts, IsTallied);
  }

  // ---- Stages in order -----------------------------------------------------------------

  /** The only way out of the deep stage is into the UDP stage, and out of that to the tally, cancelled or not; the
      stage hands over what it has heard. */
  lemma StagesInOrder(c: Setup, s: State, step: Step, h: nat)
    requires Enabled(c, s, step) && h < |s.hosts|
    ensures
      var x, y := s.hosts[h], Apply(c, s, step).hosts[h];
      && (InStage(x.phase, Deep) && !InStage(y.phase, Deep) ==>
            && y.phase == Walking(Udp, 0)
            && y.tcp == (if x.probe.Alive? then [x.probe.port] else []) + x.deepOut)
      && (InStage(x.phase, Udp) && !InStage(y.phase, Udp) ==> y.phase == Tallying && y.udp == x.udpOut)
      && (!InStage(x.phase, Deep) && InStage(y.phase, Deep) ==> x.phase == Saving && y.phase == Walking(Deep, 0))
  {
  }

  // ---- What is heard is true ----------------------------------------------------------------

  /** The port task is for a port of its stage's list. */
  predicate Listed(c: Setup, t: PortTask) { t.port in c.Ports(t.stage) }

  /** Everything the host has heard is listed and answers. */
  predicate True(c: Setup, w: World, h: nat, x: HostTask) {
    && (x.probe.Alive? ==> w.tcp(h, x.probe.port))
    && (forall r :: r in x.deepOut ==> r in c.Ports(Deep) && w.tcp(h, r))
    && (forall r :: r in x.udpOut ==> r in c.Ports(Udp) && w.udp(h, r))
    && (forall r :: r in x.tcp ==> w.tcp(h, r) && (x.probe == Alive(r) || r in c.Ports(Deep)))
    && (forall r :: r in x.udp ==> w.udp(h, r) && r in c.Ports(Udp))
  }

  predicate AllTrue(c: Setup, w: World, s: State) {
    && (forall h: nat :: h < |s.hosts| ==> True(c, w, h, s.hosts[h]))
    && (forall k :: 0 <= k < |s.ports| ==> Listed(c, s.ports[k]))
  }

  lemma ActTrue(c: Setup, w: World, s: State, h: nat, act: Act)
    requires h < |s.hosts| && CanAct(c, s, h, act) && (act.ProbeAnswers? ==> w.tcp(h, act.port))
    requires True(c, w, h, s.hosts[h]) && HostOk(c, s.hosts[h])
    ensures True(c, w, h, Acted(s.hosts[h], act))
  {
  }

  lemma TrueStep(c: Setup, w: World, s: State, step: Step)
    requires Inv(c, s) && AllTrue(c, w, s) && Enabled(c, s, step) && Agrees(w, s, step)
    ensures AllTrue(c, w, Apply(c, s, step))
  {
    if step.Own? {
      ActTrue(c, w, s, step.h, step.act);
    } else if step.Report? {
      ReportTrue(c, w, s, step.p, step.open);
    } else {
      OtherTrue(c, w, s, step);
    }
  }

  lemma ReportTrue(c: Setup, w: World, s: State, p: nat, open: bool)
    requires AllTrue(c, w, s) && Enabled(c, s, Report(p, open)) && Agrees(w, s, Report(p, open))
    ensures AllTrue(c, w, Apply(c, s, Report(p, open)))
  {
    var t, owner := Apply(c, s, Report(p, open)), s.ports[p].owner;
    assert Listed(c, s.ports[p]);
    assert True(c, w, owner, s.hosts[owner]);
    assert True(c, w, owner, Heard(s.hosts[owner], s.ports[p], open));
    forall k | 0 <= k < |t.ports| ensures Listed(c, t.ports[k]) {
      assert Listed(c, s.ports[k]);
    }
  }

  lemma OtherTrue(c: Setup, w: World, s: State, step: Step)
    requires AllTrue(c, w, s) && Enabled(c, s, step) && !step.Own? && !step.Report?
    ensures AllTrue(c, w, Apply(c, s, step))
  {
    var t := Apply(c, s, step);
    forall h: nat | h < |t.hosts| ensures True(c, w, h, t.hosts[h]) {
      if h < |s.hosts| {
        assert True(c, w, h, s.hosts[h]);
      }
    }
    forall k | 0 <= k < |t.ports| ensures Listed(c, t.ports[k]) {
      if k < |s.ports| {
        assert Listed(c, s.ports[k]);
      }
    }
  }

  /** A run in which every answer is the world's, with a cancellation anywhere or none. */
  ghost predicate Watched(c: Setup, w: World, s: State, steps: seq<Step>)
    decreases |steps|
  {
    steps == []
    || (Enabled(c, s, steps[0]) && Agrees(w, s, steps[0]) && Watched(c, w, Apply(c, s, steps[0]), steps[1..]))
  }

  lemma {:induction false} TrueRun(c: Setup, w: World, s: State, steps: seq<Step>)
    requires Inv(c, s) && AllTrue(c, w, s) && Watched(c, w, s, steps)
    ensures Feasible(c, s, steps) && AllTrue(c, w, Exec(c, s, steps))
    decreases |steps|
  {
    if steps == [] {
    } else {
      TrueStep(c, w, s, steps[0]);
      InvStep(c, s, steps[0]);
      TrueRun(c, w, Apply(c, s, steps[0]), steps[1..]);
    }
  }

  /** In every run, cancelled or not, the classifier gets only ports that answer on that host: the liveness winner and
      ports of the two lists. */
  lemma HeardIsTrue(c: Setup, w: World, steps: seq<Step>, h: nat, r: int)
    requires Watched(c, w, Init(), steps)
    ensures Feasible(c, Init(), steps)
    ensures
      var s := Exec(c, Init(), steps);
      h < |s.hosts| ==>
        && (r in s.hosts[h].tcp ==> w.tcp(h, r) && (s.hosts[h].probe == Alive(r) || r in c.Ports(Deep)))
        && (r in s.hosts[h].udp ==> w.udp(h, r) && r in c.Ports(Udp))
  {
    InvInit(c);
    TrueRun(c, w, Init(), steps);
    var s := Exec(c, Init(), steps);
    if h < |s.hosts| {
      assert True(c, w, h, s.hosts[h]);
    }
  }

  // ---- Switches -------------------------------------------------------------------------

  /** The task is one the switches allow. */
  predicate Allowed(c: Setup, t: PortTask) {
    && c.portStore
    && (t.stage.Deep? ==> c.deepProbe && t.port in c.deepPorts)
    && (t.stage.Udp? ==> t.port in c.udpPorts)
  }

  /** Only ports of the configured lists are dialled after the liveness probe, and only with a port store: TCP ports
      of the deep list when deep probing is on, UDP ports of the UDP list. */
  lemma SwitchesRespected(c: Setup, s: State)
    requires Reachable(c, s)
    ensures forall k :: 0 <= k < |s.ports| ==> Allowed(c, s.ports[k])
  {
    var steps :| Feasible(c, Init(), steps) && Exec(c, Init(), steps) == s;
    ListedRun(c, Init(), steps);
    forall k | 0 <= k < |s.ports| ensures Allowed(c, s.ports[k]) {
      assert Listed(c, s.ports[k]);
      ListedIsAllowed(c, s.ports[k]);
    }
  }

  lemma ListedIsAllowed(c: Setup, t: PortTask)
    requires Listed(c, t)
    ensures Allowed(c, t)
  {
  }

  lemma {:induction false} ListedRun(c: Setup, s: State, steps: seq<Step>)
    requires Feasible(c, s, steps) && forall k :: 0 <= k < |s.ports| ==> Listed(c, s.ports[k])
    ensures forall k :: 0 <= k < |Exec(c, s, steps).ports| ==> Listed(c, Exec(c, s, steps).ports[k])
    decreases |steps|
  {
    if steps == [] {
    } else {
      var t := Apply(c, s, steps[0]);
      forall k | 0 <= k < |t.ports| ensures Listed(c, t.ports[k]) {
        if k < |s.ports| {
          assert Listed(c, s.ports[k]);
        }
      }
      ListedRun(c, t, steps[1..]);
    }
  }

  /** A classified host has been asked for exactly the configured lists: each answering entry of the deep list when
      deep probing is on, of the UDP list always, and of neither without a port store. */
  lemma SwitchedLists(c: Setup, w: World, s: State, h: nat, r: int)
    requires Classified(c, w, s, h)
    ensures s.hosts[h].probe.Alive?
    ensures r != s.hosts[h].probe.port ==>
              Occurs(s.hosts[h].tcp, r)
              == if c.portStore && c.deepProbe && w.tcp(h, r) then Occurs(c.deepPorts, r) else 0
    ensures Occurs(s.hosts[h].udp, r) == if c.portStore && w.udp(h, r) then Occurs(c.udpPorts, r) else 0
  {
    FinalLists(c, w, s, h);
    assert Occurs([], r) == 0;
  }

  // ---- Orphans -----------------------------------------------------------------------------

  lemma Goes(c: Setup, s: State, step: Step) returns (t: State)
    requires Reachable(c, s) && Enabled(c, s, step)
    ensures t == Apply(c, s, step) && Reachable(c, t)
  {
    t := Apply(c, s, step);
    var before :| Feasible(c, Init(), before) && Exec(c, Init(), before) == s;
    assert [step][1..] == [];
    assert Feasible(c, t, []) && Exec(c, t, []) == t;
    assert Feasible(c, s, [step]) && Exec(c, s, [step]) == t;
    ExecAppend(c, Init(), before, [step]);
  }

  /** A stage that finds a slot free after a cancellation may still start a port task, as either branch of the
      select may be taken. */
  lemma SpawnsAfterCancel() returns (c: Setup, s: State, t: State)
    ensures Reachable(c, s) && s.cancelled && s.ports == [] && Enabled(c, s, Spawn(0)) && Enabled(c, s, Own(0, GiveUp))
    ensures c == Setup(["10.0.0.1"], 2, [22], true, true, [80, 81], []) && t == Apply(c, s, Spawn(0)) && Reachable(c, t)
    ensures !t.main.Returned? && |t.hosts| == 1 && t.used == 2 && t.cancelled
    ensures t.hosts[0].phase == Walking(Deep, 1) && t.hosts[0].probe == Alive(22) && t.main == Checking(1)
    ensures |t.ports| == 1 && t.ports[0].phase.Dialling? && t.ports[0].stage.Deep?
  {
    c := Setup(["10.0.0.1"], 2, [22], true, true, [80, 81], []);
    s := FirstSaved(c);
    s := Goes(c, s, Cancel);
    t := Goes(c, s, Spawn(0));
  }

  lemma FirstSaved(c: Setup) returns (s: State)
    requires c.workers == 2 && |c.addrs| > 0 && 22 in c.probePorts
    ensures Reachable(c, s) && !s.cancelled && s.used == 1 && s.main == Checking(1) && |s.hosts| == 1 && s.ports == []
    ensures s.hosts[0].phase == Walking(Deep, 0) && s.hosts[0].probe == Alive(22)
  {
    assert Feasible(c, Init(), []) && Exec(c, Init(), []) == Init();
    s := Goes(c, Init(), Check);
    s := Goes(c, s, Launch);
    s := Goes(c, s, Own(0, ProbeAnswers(22)));
    s := Goes(c, s, Own(0, Save));
  }

  /** The deep stage gives up, the UDP stage has nothing to do, and the host is counted. */
  lemma GivesUp(c: Setup, s: State) returns (t: State)
    requires Reachable(c, s) && s.cancelled
    requires c.Ports(Deep) == [80, 81] && c.Ports(Udp) == [] && c.addrs == ["10.0.0.1"]
    requires |s.hosts| == 1 && s.hosts[0].phase == Walking(Deep, 1) && s.hosts[0].probe == Alive(22)
    requires s.used == 2 && s.main == Checking(1)
    requires |s.ports| == 1 && s.ports[0].phase.Dialling? && s.ports[0].stage.Deep?
    ensures Reachable(c, t) && t.cancelled && t.used == 2 && t.main == Checking(1)
    ensures |t.hosts| == 1 && t.hosts[0].phase == Leaving
  {
    t := Goes(c, s, Own(0, GiveUp));
    t := Goes(c, t, Own(0, StartJoin));
    t := Goes(c, t, Own(0, Join));
    t := Goes(c, t, Own(0, Tally));
  }

  /** Port tasks may outlive a cancelled Scan: it returns while one of them still holds a slot. */
  lemma OrphanHoldsSlot() returns (c: Setup, s: State)
    ensures Reachable(c, s) && s.main.Returned? && s.cancelled && s.used == 1
  {
    var before, start;
    c, before, start := SpawnsAfterCancel();
    s := GivesUp(c, start);
    s := Goes(c, s, Own(0, Release));
    s := Goes(c, s, Own(0, Signal));
    s := Goes(c, s, Check);
    s := Goes(c, s, Return);
  }
}
