/**
From which states an uncancelled Scan can still return, and for which configurations
a deadlock can be reached at all.
*/
module ScanPoolDeadlock {
  import opened Counting
  import opened ScanPool
  import opened ScanPoolProgress

  /** Some port from position `next` on of the stage's list has to be dialled. */
  predicate MoreToDial(c: Setup, probe: ProbeResult, stage: Stage, next: nat) {
    exists j: nat :: next <= j < |c.Ports(stage)| && (stage.Deep? ==> probe != Alive(c.Ports(Deep)[j]))
  }

  /** The host task holds its slot until it gets at least one more. */
  predicate Committed(c: Setup, h: HostTask) {
    match h.phase
    case Walking(Deep, next) => MoreToDial(c, h.probe, Deep, next) || c.Ports(Udp) != []
    case Joining(Deep) => c.Ports(Udp) != []
    case Walking(Udp, next) => next < |c.Ports(Udp)|
    case _ => false
  }

  function Committers(c: Setup, s: State): set<nat> {
    set k: nat | k < |s.hosts| && Committed(c, s.hosts[k])
  }

  /** Every slot is held by a host task that needs another slot before it can let go. */
  predicate Doomed(c: Setup, s: State) {
    |Committers(c, s)| == c.workers
  }

  ghost predicate NoCancel(steps: seq<Step>) {
    forall k :: 0 <= k < |steps| ==> !steps[k].Cancel?
  }

  /** Some schedule and some answers make the Scan return without being cancelled. */
  ghost predicate CanReturn(c: Setup, s: State) {
    exists steps :: Feasible(c, s, steps) && NoCancel(steps) && Exec(c, s, steps).main.Returned?
  }

  lemma CommittedBound(c: Setup, s: State)
    requires Inv(c, s)
    ensures |Committers(c, s)| <= HostSlots(s) <= s.used <= c.workers
    ensures |Committers(c, s)| == s.used ==>
              && PortSlots(s) == 0
              && forall k :: 0 <= k < |s.hosts| && s.hosts[k].Holds() ==> Committed(c, s.hosts[k])
  {
    HoldersBound(c, s, Committers(c, s));
    if |Committers(c, s)| == s.used {
      forall k | 0 <= k < |s.hosts| && s.hosts[k].Holds() ensures Committed(c, s.hosts[k]) {
        assert k in Committers(c, s);
      }
    }
  }

  // ---- A doomed state stays doomed -------------------------------------------

  lemma DoomedStays(c: Setup, s: State, step: Step)
    requires c.Valid() && Inv(c, s) && Doomed(c, s) && Enabled(c, s, step) && !step.Cancel? && !s.cancelled
    ensures Doomed(c, Apply(c, s, step))
    ensures !Apply(c, s, step).main.Returned?
  {
    CommittedBound(c, s);
    CountZero(s.ports, HoldsPort);
    var t := Apply(c, s, step);
    var a: nat :| a in Committers(c, s);
    assert !s.hosts[a].phase.Finished?;
    if step.Own? {
      CommittedKeeps(c, s, step.h, step.act);
      assert Committers(c, t) == Committers(c, s);
    } else {
      assert t.hosts == s.hosts;
      assert Committers(c, t) == Committers(c, s);
    }
  }

  /** With every slot committed, a step of a host task neither starts nor ends a commitment. */
  lemma CommittedKeeps(c: Setup, s: State, h: nat, act: Act)
    requires Inv(c, s) && h < |s.hosts| && CanAct(c, s, h, act) && !s.cancelled
    requires forall k :: 0 <= k < |s.hosts| && s.hosts[k].Holds() ==> Committed(c, s.hosts[k])
    ensures Committed(c, Acted(s.hosts[h], act)) == Committed(c, s.hosts[h])
  {
    var x := s.hosts[h];
    assert HostOk(c, x);
    if x.Holds() {
      assert Committed(c, x);
      match x.phase
      case Walking(Deep, next) =>
        if act.SkipKnown? && MoreToDial(c, x.probe, Deep, next) {
          var j: nat :| next <= j < |c.Ports(Deep)| && x.probe != Alive(c.Ports(Deep)[j]);
          assert j != next;
        }
      case _ =>
    }
  }

  lemma {:induction false} DoomedForever(c: Setup, s: State, steps: seq<Step>)
    requires c.Valid() && Inv(c, s) && Doomed(c, s) && !s.cancelled && Feasible(c, s, steps) && NoCancel(steps)
    ensures !Exec(c, s, steps).main.Returned?
    decreases |steps|
  {
    if steps == [] {
      var a: nat :| a in Committers(c, s);
      assert !s.hosts[a].phase.Finished?;
    } else {
      assert !steps[0].Cancel?;
      DoomedStays(c, s, steps[0]);
      InvStep(c, s, steps[0]);
      assert NoCancel(steps[1..]);
      DoomedForever(c, Apply(c, s, steps[0]), steps[1..]);
    }
  }

  // ---- Any other state can still return ---------------------------------------

  /** Replacing a host task by one that is not newly committed does not add to the committed tasks. */
  lemma CommittersShrink(c: Setup, s: State, t: State)
    requires Inv(c, s) && !Doomed(c, s)
    requires |t.hosts| >= |s.hosts|
    requires forall k :: 0 <= k < |t.hosts| && Committed(c, t.hosts[k]) ==> k < |s.hosts| && Committed(c, s.hosts[k])
    ensures !Doomed(c, t)
  {
    CommittedBound(c, s);
    SubsetSize(Committers(c, t), Committers(c, s));
  }

  lemma FinishPort(c: Setup, s: State, p: nat) returns (step: Step)
    requires Inv(c, s) && !Doomed(c, s) && p < |s.ports| && !s.ports[p].phase.PortFinished?
    ensures Enabled(c, s, step) && !step.Cancel? && !Doomed(c, Apply(c, s, step))
  {
    match s.ports[p].phase
    case Dialling =>
      assert s.ports[p].owner < |s.hosts|;
      step := Report(p, false);
      CommittersShrink(c, s, Apply(c, s, step));
    case PortLeaving =>
      CountZero(s.ports, HoldsPort);
      step := ReleasePort(p);
      CommittersShrink(c, s, Apply(c, s, step));
    case PortSignalling =>
      step := SignalPort(p);
      CommittersShrink(c, s, Apply(c, s, step));
  }

  /** With no port task in flight, a host task that does not ask for a slot can go on without committing. */
  function Onward(c: Setup, x: HostTask): Act
    requires !x.phase.Finished? && !Awaiting(c, x)
  {
    match x.phase
    case Probing => ProbeFails
    case Saving => SaveFails
    case Walking(_, _) => if AtKnown(c, x) then SkipKnown else StartJoin
    case Joining(_) => Join
    case Tallying => Tally
    case Leaving => Release
    case Signalling => Signal
  }

  lemma OnwardWorks(c: Setup, s: State, h: nat)
    requires Inv(c, s) && !Doomed(c, s)
    requires forall k :: 0 <= k < |s.ports| ==> s.ports[k].phase.PortFinished?
    requires h < |s.hosts| && !s.hosts[h].phase.Finished? && !Awaiting(c, s.hosts[h])
    ensures
      var step := Own(h, Onward(c, s.hosts[h]));
      Enabled(c, s, step) && !Doomed(c, Apply(c, s, step))
  {
    CountZero(s.hosts, HoldsHost);
    var x := s.hosts[h];
    assert HostOk(c, x);
    OnwardCommits(c, s, h);
    CommittersShrink(c, s, Apply(c, s, Own(h, Onward(c, x))));
  }

  lemma OnwardCommits(c: Setup, s: State, h: nat)
    requires h < |s.hosts| && HostOk(c, s.hosts[h]) && !s.hosts[h].phase.Finished? && !Awaiting(c, s.hosts[h])
    requires CanAct(c, s, h, Onward(c, s.hosts[h]))
    ensures Committed(c, Acted(s.hosts[h], Onward(c, s.hosts[h]))) ==> Committed(c, s.hosts[h])
  {
  }

  lemma SpawnWorks(c: Setup, s: State, h: nat)
    requires Inv(c, s) && !Doomed(c, s) && h < |s.hosts| && Awaiting(c, s.hosts[h]) && s.used < c.workers
    ensures Enabled(c, s, Spawn(h)) && !Doomed(c, Apply(c, s, Spawn(h)))
  {
    var t := Apply(c, s, Spawn(h));
    InvStep(c, s, Spawn(h));
    CommittedBound(c, t);
    CountZero(t.ports, HoldsPort);
    assert t.ports[|s.ports|].Holds();
  }

  lemma AwaitingIsCommitted(c: Setup, s: State, h: nat)
    requires Inv(c, s) && h < |s.hosts| && Awaiting(c, s.hosts[h])
    ensures Committed(c, s.hosts[h])
  {
    var x := s.hosts[h];
    if x.phase.stage.Deep? {
      assert MoreToDial(c, x.probe, Deep, x.phase.next);
    }
  }

  /** From an unfinished state that is not doomed some step leads to a state that is not doomed. */
  lemma PickStep(c: Setup, s: State) returns (step: Step)
    requires c.Valid() && Inv(c, s) && !s.cancelled && !Doomed(c, s) && !s.main.Returned?
    ensures Enabled(c, s, step) && !step.Cancel? && !Doomed(c, Apply(c, s, step))
  {
    if p: nat :| p < |s.ports| && !s.ports[p].phase.PortFinished? {
      step := FinishPort(c, s, p);
    } else if h: nat :| h < |s.hosts| && !s.hosts[h].phase.Finished? && !Awaiting(c, s.hosts[h]) {
      step := Own(h, Onward(c, s.hosts[h]));
      OnwardWorks(c, s, h);
    } else {
      FreeSlot(c, s);
      if h: nat :| h < |s.hosts| && !s.hosts[h].phase.Finished? {
        step := Spawn(h);
        SpawnWorks(c, s, h);
      } else {
        step := MainMove(c, s);
      }
    }
  }

  /** With no task in flight but the awaiting ones, a state that is not doomed has a free slot. */
  lemma FreeSlot(c: Setup, s: State)
    requires c.Valid() && Inv(c, s) && !Doomed(c, s)
    requires forall k :: 0 <= k < |s.ports| ==> s.ports[k].phase.PortFinished?
    requires forall k :: 0 <= k < |s.hosts| && !s.hosts[k].phase.Finished? ==> Awaiting(c, s.hosts[k])
    ensures s.used < c.workers
  {
    CountZero(s.ports, HoldsPort);
    CommittedBound(c, s);
    forall k | 0 <= k < |s.hosts| && s.hosts[k].Holds() ensures Committed(c, s.hosts[k]) {
      AwaitingIsCommitted(c, s, k);
    }
    assert Where(s.hosts, HoldsHost) == Committers(c, s);
  }

  lemma MainMove(c: Setup, s: State) returns (step: Step)
    requires Inv(c, s) && !s.cancelled && !Doomed(c, s) && !s.main.Returned? && s.used < c.workers
    requires AllFinished(s)
    ensures Enabled(c, s, step) && !step.Cancel? && !Doomed(c, Apply(c, s, step))
  {
    step := if s.main.Checking? then Check else if s.main.Sending? then Launch else Return;
    CommittersShrink(c, s, Apply(c, s, step));
  }

  lemma {:induction false} WayOut(c: Setup, s: State) returns (steps: seq<Step>)
    requires c.Valid() && Inv(c, s) && !s.cancelled && !Doomed(c, s)
    ensures Feasible(c, s, steps) && NoCancel(steps) && Exec(c, s, steps).main.Returned?
    decreases Work(c, s)
  {
    if s.main.Returned? {
      steps := [];
    } else {
      var step := PickStep(c, s);
      StepDecreases(c, s, step);
      InvStep(c, s, step);
      var more := WayOut(c, Apply(c, s, step));
      steps := [step] + more;
      assert steps[1..] == more;
    }
  }

  /** The deadlock theorem: without a cancellation a Scan can still return exactly when not every slot is
      held by a host task that needs one more slot. */
  lemma CanReturnExactly(c: Setup, s: State)
    requires c.Valid() && Reachable(c, s) && !s.cancelled
    ensures CanReturn(c, s) <==> !Doomed(c, s)
  {
    InvReachable(c, s);
    if Doomed(c, s) {
      forall steps | Feasible(c, s, steps) && NoCancel(steps) ensures !Exec(c, s, steps).main.Returned? {
        DoomedForever(c, s, steps);
      }
    } else {
      var steps := WayOut(c, s);
    }
  }

  // ---- When no run can deadlock ----------------------------------------------

  /** Fewer answering addresses than slots, or both extra stages off, keep every state free of deadlock:
      something is enabled until the Scan returns, and every run can still return. */
  lemma NoDeadlock(c: Setup, s: State)
    requires c.Valid() && Reachable(c, s) && !s.cancelled
    requires s.successes < c.workers || (c.Ports(Deep) == [] && c.Ports(Udp) == [])
    ensures CanReturn(c, s)
    ensures !s.main.Returned? ==> exists step: Step :: !step.Cancel? && Enabled(c, s, step)
  {
    InvReachable(c, s);
    forall k: nat | k in Committers(c, s) ensures k in Where(s.hosts, IsAlive) {
      assert HostOk(c, s.hosts[k]);
    }
    SubsetSize(Committers(c, s), Where(s.hosts, IsAlive));
    if c.Ports(Deep) == [] && c.Ports(Udp) == [] {
      assert Committers(c, s) == {} by {
        forall k: nat | k < |s.hosts| ensures !Committed(c, s.hosts[k]) { }
      }
    }
    CanReturnExactly(c, s);
    if !s.main.Returned? {
      var step := PickStep(c, s);
    }
  }

  /** Once every slot is committed the uncancelled Scan runs into a stuck state, whatever the schedule:
      a run that cannot be extended ends with all slots held by host tasks waiting for a slot. */
  lemma DoomedEndsWedged(c: Setup, s: State, steps: seq<Step>)
    requires c.Valid() && Reachable(c, s) && !s.cancelled && Doomed(c, s)
    requires Feasible(c, s, steps) && NoCancel(steps) && Stuck(c, Exec(c, s, steps))
    ensures Wedged(c, Exec(c, s, steps))
  {
    InvReachable(c, s);
    DoomedForever(c, s, steps);
    StaysUncancelled(c, s, steps);
    var before :| Feasible(c, Init(), before) && Exec(c, Init(), before) == s;
    ExecAppend(c, Init(), before, steps);
    StuckExactly(c, Exec(c, s, steps));
  }

  lemma {:induction false} StaysUncancelled(c: Setup, s: State, steps: seq<Step>)
    requires Feasible(c, s, steps) && NoCancel(steps)
    ensures Exec(c, s, steps).cancelled == s.cancelled
    decreases |steps|
  {
    if steps == [] {
    } else {
      assert !steps[0].Cancel?;
      assert NoCancel(steps[1..]);
      StaysUncancelled(c, Apply(c, s, steps[0]), steps[1..]);
    }
  }

  // ---- Which configurations can deadlock --------------------------------------

  /** As many addresses as slots, and a liveness port whose answer leaves another port to dial. */
  predicate Risky(c: Setup) {
    && c.workers <= |c.addrs|
    && exists q :: q in c.probePorts && q != 0 && (MoreToDial(c, Alive(q), Deep, 0) || c.Ports(Udp) != [])
  }

  /** The deadlock is reachable exactly for these configurations. */
  lemma DeadlockReachableExactly(c: Setup)
    requires c.Valid()
    ensures (exists s :: Reachable(c, s) && !s.cancelled && Doomed(c, s)) <==> Risky(c)
  {
    if Risky(c) {
      var q :| q in c.probePorts && q != 0 && (MoreToDial(c, Alive(q), Deep, 0) || c.Ports(Udp) != []);
      var steps := CommitFirst(c, q, c.workers);
      var s := Exec(c, Init(), steps);
      assert Committers(c, s) == FirstNats(c.workers);
      assert Reachable(c, s);
    }
    forall s | Reachable(c, s) && !s.cancelled && Doomed(c, s) ensures Risky(c) {
      InvReachable(c, s);
      CommittedBound(c, s);
      CountBelow(s.hosts, HoldsHost);
      var k: nat :| k in Committers(c, s);
      assert HostOk(c, s.hosts[k]);
      CommittedNeedsPorts(c, s.hosts[k]);
    }
  }

  /** Every state can be run on, without a cancellation, until nothing but a cancellation is enabled. */
  lemma {:induction false} RunOn(c: Setup, s: State) returns (steps: seq<Step>)
    requires Inv(c, s)
    ensures Feasible(c, s, steps) && NoCancel(steps) && Stuck(c, Exec(c, s, steps))
    decreases Work(c, s)
  {
    if Stuck(c, s) {
      steps := [];
    } else {
      var step: Step :| !step.Cancel? && Enabled(c, s, step);
      StepDecreases(c, s, step);
      InvStep(c, s, step);
      var more := RunOn(c, Apply(c, s, step));
      steps := [step] + more;
      assert steps[1..] == more;
    }
  }

  /** An uncancelled Scan can be stuck before it has returned exactly for these configurations. */
  lemma StuckReachableExactly(c: Setup)
    requires c.Valid()
    ensures (exists s :: Reachable(c, s) && !s.cancelled && !s.main.Returned? && Stuck(c, s)) <==> Risky(c)
  {
    DeadlockReachableExactly(c);
    if Risky(c) {
      var s :| Reachable(c, s) && !s.cancelled && Doomed(c, s);
      var t := DoomedGetsStuck(c, s);
    }
    forall s | Reachable(c, s) && !s.cancelled && !s.main.Returned? && Stuck(c, s) ensures Risky(c) {
      InvReachable(c, s);
      if !Doomed(c, s) {
        var step := PickStep(c, s);
      }
    }
  }

  lemma DoomedGetsStuck(c: Setup, s: State) returns (t: State)
    requires c.Valid() && Reachable(c, s) && !s.cancelled && Doomed(c, s)
    ensures Reachable(c, t) && !t.cancelled && !t.main.Returned? && Stuck(c, t)
  {
    InvReachable(c, s);
    var steps := RunOn(c, s);
    t := Exec(c, s, steps);
    DoomedForever(c, s, steps);
    StaysUncancelled(c, s, steps);
    var before :| Feasible(c, Init(), before) && Exec(c, Init(), before) == s;
    ExecAppend(c, Init(), before, steps);
    assert Feasible(c, Init(), before + steps) && Exec(c, Init(), before + steps) == t;
  }

  /** A maximal uncancelled run in which fewer addresses answered than there are slots has returned, and so has
      one with both extra stages off. */
  lemma QuietRunsReturn(c: Setup, steps: seq<Step>)
    requires c.Valid() && Feasible(c, Init(), steps) && NoCancel(steps) && Stuck(c, Exec(c, Init(), steps))
    requires Exec(c, Init(), steps).successes < c.workers || (c.Ports(Deep) == [] && c.Ports(Udp) == [])
    ensures Exec(c, Init(), steps).main.Returned?
  {
    StaysUncancelled(c, Init(), steps);
    var t := Exec(c, Init(), steps);
    assert Reachable(c, t);
    NoDeadlock(c, t);
  }

  lemma CommittedNeedsPorts(c: Setup, h: HostTask)
    requires HostOk(c, h) && Committed(c, h)
    ensures h.probe.Alive? && (MoreToDial(c, Alive(h.probe.port), Deep, 0) || c.Ports(Udp) != [])
  {
    match h.phase
    case Walking(Deep, next) =>
      if MoreToDial(c, h.probe, Deep, next) {
        var j: nat :| next <= j < |c.Ports(Deep)| && h.probe != Alive(c.Ports(Deep)[j]);
        assert 0 <= j;
        assert MoreToDial(c, h.probe, Deep, 0);
      }
    case _ =>
  }

  function FirstNats(n: nat): (r: set<nat>)
    ensures forall k: nat :: k in r <==> k < n
    ensures |r| == n
  {
    if n == 0 then {} else FirstNats(n - 1) + {n - 1}
  }

  /** A schedule that launches n host tasks, lets each find port q and store its host, and stops there. */
  lemma {:induction false} CommitFirst(c: Setup, q: int, n: nat) returns (steps: seq<Step>)
    requires n <= c.workers && n <= |c.addrs| && q in c.probePorts && q != 0
    ensures Feasible(c, Init(), steps)
    ensures
      var s := Exec(c, Init(), steps);
      && !s.cancelled && s.main == Checking(n) && s.used == n && |s.hosts| == n
      && forall k :: 0 <= k < n ==> s.hosts[k].phase == Walking(Deep, 0) && s.hosts[k].probe == Alive(q)
  {
    if n == 0 {
      steps := [];
    } else {
      var before := CommitFirst(c, q, n - 1);
      var s := Exec(c, Init(), before);
      var four := FourSteps(c, s, q);
      ExecAppend(c, Init(), before, four);
      steps := before + four;
    }
  }

  lemma FourSteps(c: Setup, s: State, q: int) returns (four: seq<Step>)
    requires !s.cancelled && s.main.Checking? && s.main.next == |s.hosts| < |c.addrs| && s.used < c.workers
    requires q in c.probePorts && q != 0
    ensures Feasible(c, s, four)
    ensures
      var t := Exec(c, s, four);
      && !t.cancelled && t.main == Checking(s.main.next + 1) && t.used == s.used + 1 && |t.hosts| == |s.hosts| + 1
      && t.hosts[..|s.hosts|] == s.hosts
      && t.hosts[|s.hosts|].phase == Walking(Deep, 0) && t.hosts[|s.hosts|].probe == Alive(q)
  {
    var h := |s.hosts|;
    var s1 := Apply(c, s, Check);
    var s2 := Apply(c, s1, Launch);
    var s3 := Apply(c, s2, Own(h, ProbeAnswers(q)));
    var s4 := Apply(c, s3, Own(h, Save));
    One(c, s3, Own(h, Save));
    Two(c, s2, Own(h, ProbeAnswers(q)), [Own(h, Save)]);
    Two(c, s1, Launch, [Own(h, ProbeAnswers(q)), Own(h, Save)]);
    Two(c, s, Check, [Launch, Own(h, ProbeAnswers(q)), Own(h, Save)]);
    four := [Check, Launch, Own(h, ProbeAnswers(q)), Own(h, Save)];
    assert four == [Check] + [Launch, Own(h, ProbeAnswers(q)), Own(h, Save)];
    assert [Launch, Own(h, ProbeAnswers(q)), Own(h, Save)] == [Launch] + [Own(h, ProbeAnswers(q)), Own(h, Save)];
    assert [Own(h, ProbeAnswers(q)), Own(h, Save)] == [Own(h, ProbeAnswers(q))] + [Own(h, Save)];
  }

  lemma One(c: Setup, s: State, step: Step)
    requires Enabled(c, s, step)
    ensures Feasible(c, s, [step]) && Exec(c, s, [step]) == Apply(c, s, step)
  {
    assert [step][1..] == [];
    assert Exec(c, Apply(c, s, step), []) == Apply(c, s, step);
  }

  lemma Two(c: Setup, s: State, step: Step, more: seq<Step>)
    requires Enabled(c, s, step) && Feasible(c, Apply(c, s, step), more)
    ensures Feasible(c, s, [step] + more)
    ensures Exec(c, s, [step] + more) == Exec(c, Apply(c, s, step), more)
  {
    assert ([step] + more)[1..] == more;
  }
}
