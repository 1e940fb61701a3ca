/**
When the worker pool makes progress: every run is finite, the stuck states are exactly
described, and so are the states from which no uncancelled run can return any more.
*/
module ScanPoolProgress {
  import opened Counting
  import opened ScanPool

  // ---- Every step decreases a measure ---------------------------------------

  function Rest(c: Setup, stage: Stage, next: nat): nat {
    4 * (if next < |c.Ports(stage)| then |c.Ports(stage)| - next else 0)
  }

  /** The steps a host task and the port tasks it has still to start can take. */
  function HostWork(c: Setup, phase: Phase): nat {
    var udp := 5 + Rest(c, Udp, 0);
    var deep := udp + 2 + Rest(c, Deep, 0);
    match phase
    case Probing => deep + 2
    case Saving => deep + 1
    case Walking(Deep, next) => udp + 2 + Rest(c, Deep, next)
    case Joining(Deep) => udp + 1
    case Walking(Udp, next) => 5 + Rest(c, Udp, next)
    case Joining(Udp) => 4
    case Tallying => 3
    case Leaving => 2
    case Signalling => 1
    case Finished => 0
  }

  function PortWork(phase: PortPhase): nat {
    match phase
    case Dialling => 3
    case PortLeaving => 2
    case PortSignalling => 1
    case PortFinished => 0
  }

  function HostsWork(c: Setup, hs: seq<HostTask>): nat {
    if hs == [] then 0 else HostsWork(c, hs[..|hs| - 1]) + HostWork(c, hs[|hs| - 1].phase)
  }

  function PortsWork(ps: seq<PortTask>): nat {
    if ps == [] then 0 else PortsWork(ps[..|ps| - 1]) + PortWork(ps[|ps| - 1].phase)
  }

  /** Work of launching n more addresses and of the tasks they start. */
  function LaunchWork(c: Setup, n: nat): nat {
    if n == 0 then 0 else LaunchWork(c, n - 1) + HostWork(c, Probing) + 2
  }

  function MainWork(c: Setup, main: Main): nat {
    match main
    case Checking(next) => 3 + LaunchWork(c, if next < |c.addrs| then |c.addrs| - next else 0)
    case Sending(next) => 2 + LaunchWork(c, if next < |c.addrs| then |c.addrs| - next else 0)
    case Waiting => 1
    case Returned(_) => 0
  }

  function Work(c: Setup, s: State): nat {
    Unit(!s.cancelled) + MainWork(c, s.main) + HostsWork(c, s.hosts) + PortsWork(s.ports)
  }

  lemma {:induction false} HostsWorkUpdate(c: Setup, hs: seq<HostTask>, k: nat, x: HostTask)
    requires k < |hs|
    ensures HostsWork(c, hs[k := x]) == HostsWork(c, hs) - HostWork(c, hs[k].phase) + HostWork(c, x.phase)
    decreases |hs|
  {
    var n := |hs| - 1;
    if k == n {
      assert hs[k := x][..n] == hs[..n];
    } else {
      assert hs[k := x][..n] == hs[..n][k := x];
      HostsWorkUpdate(c, hs[..n], k, x);
    }
  }

  lemma {:induction false} PortsWorkUpdate(ps: seq<PortTask>, k: nat, x: PortTask)
    requires k < |ps|
    ensures PortsWork(ps[k := x]) == PortsWork(ps) - PortWork(ps[k].phase) + PortWork(x.phase)
    decreases |ps|
  {
    var n := |ps| - 1;
    if k == n {
      assert ps[k := x][..n] == ps[..n];
    } else {
      assert ps[k := x][..n] == ps[..n][k := x];
      PortsWorkUpdate(ps[..n], k, x);
    }
  }

  /** An act of a host task lowers the work of that task. */
  lemma ActDecreases(c: Setup, s: State, h: nat, act: Act)
    requires h < |s.hosts| && HostOk(c, s.hosts[h]) && CanAct(c, s, h, act)
    ensures HostWork(c, Acted(s.hosts[h], act).phase) < HostWork(c, s.hosts[h].phase)
  {
  }

  /** Every step, cancellation included, lowers the work left. */
  lemma StepDecreases(c: Setup, s: State, step: Step)
    requires Inv(c, s) && Enabled(c, s, step)
    ensures Work(c, Apply(c, s, step)) < Work(c, s)
  {
    if step.Own? {
      ActDecreases(c, s, step.h, step.act);
      HostsWorkUpdate(c, s.hosts, step.h, Acted(s.hosts[step.h], step.act));
    } else if step.Spawn? || step.Report? {
      ParentStepDecreases(c, s, step);
    } else {
      match step
      case Launch => LaunchDecreases(c, s);
      case ReleasePort(p) => PortDecreases(c, s, p);
      case SignalPort(p) => PortDecreases(c, s, p);
      case _ =>
    }
  }

  /** The last two steps of a port task. */
  lemma PortDecreases(c: Setup, s: State, p: nat)
    requires p < |s.ports|
    ensures Enabled(c, s, ReleasePort(p)) ==> Work(c, Apply(c, s, ReleasePort(p))) < Work(c, s)
    ensures Enabled(c, s, SignalPort(p)) ==> Work(c, Apply(c, s, SignalPort(p))) < Work(c, s)
  {
    PortsWorkUpdate(s.ports, p, s.ports[p].(phase := PortSignalling));
    PortsWorkUpdate(s.ports, p, s.ports[p].(phase := PortFinished));
  }

  lemma LaunchDecreases(c: Setup, s: State)
    requires Enabled(c, s, Launch)
    ensures Work(c, Apply(c, s, Launch)) < Work(c, s)
  {
    var t := Apply(c, s, Launch);
    assert t.hosts[..|s.hosts|] == s.hosts;
    assert HostsWork(c, t.hosts) == HostsWork(c, s.hosts) + HostWork(c, Probing);
  }

  /** The steps that touch a host task and a port task at once. */
  lemma ParentStepDecreases(c: Setup, s: State, step: Step)
    requires Inv(c, s) && Enabled(c, s, step) && (step.Spawn? || step.Report?)
    ensures Work(c, Apply(c, s, step)) < Work(c, s)
  {
    if step.Spawn? {
      SpawnDecreases(c, s, step.h);
    } else {
      var t := Apply(c, s, step);
      PortsWorkUpdate(s.ports, step.p, t.ports[step.p]);
      HostsWorkUpdate(c, s.hosts, s.ports[step.p].owner, t.hosts[s.ports[step.p].owner]);
    }
  }

  lemma SpawnDecreases(c: Setup, s: State, h: nat)
    requires Enabled(c, s, Spawn(h))
    ensures Work(c, Apply(c, s, Spawn(h))) < Work(c, s)
  {
    var t := Apply(c, s, Spawn(h));
    HostsWorkUpdate(c, s.hosts, h, t.hosts[h]);
    assert t.ports[..|s.ports|] == s.ports;
    assert HostWork(c, t.hosts[h].phase) + 4 == HostWork(c, s.hosts[h].phase);
  }

  /** No run, whatever the schedule, the answers and the moment of cancellation, is longer than the
      work its first state holds. */
  lemma {:induction false} RunsAreFinite(c: Setup, s: State, steps: seq<Step>)
    requires Inv(c, s) && Feasible(c, s, steps)
    ensures |steps| + Work(c, Exec(c, s, steps)) <= Work(c, s)
    decreases |steps|
  {
    if steps == [] {
    } else {
      StepDecreases(c, s, steps[0]);
      InvStep(c, s, steps[0]);
      RunsAreFinite(c, Apply(c, s, steps[0]), steps[1..]);
    }
  }

  /** An explicit bound for the runs of a Scan: at most eleven steps an address, two for launching it and
      four for each port of each stage, plus the cancellation and the last three steps of the loop. */
  lemma ScanStepBound(c: Setup, steps: seq<Step>)
    requires Feasible(c, Init(), steps)
    ensures |steps| <= 4 + |c.addrs| * (11 + 4 * (|c.Ports(Deep)| + |c.Ports(Udp)|))
  {
    InvInit(c);
    RunsAreFinite(c, Init(), steps);
    LaunchWorkClosed(c, |c.addrs|);
  }

  lemma {:induction false} LaunchWorkClosed(c: Setup, n: nat)
    ensures LaunchWork(c, n) == n * (11 + 4 * (|c.Ports(Deep)| + |c.Ports(Udp)|))
  {
    if n == 0 {
    } else {
      LaunchWorkClosed(c, n - 1);
      var k := 11 + 4 * (|c.Ports(Deep)| + |c.Ports(Udp)|);
      assert HostWork(c, Probing) + 2 == k;
      assert n * k == (n - 1) * k + k;
    }
  }

  // ---- Stuck states ---------------------------------------------------------

  function Awaiters(c: Setup, s: State): set<nat> {
    set k: nat | k < |s.hosts| && Awaiting(c, s.hosts[k])
  }

  /** Nothing but a cancellation can happen. */
  ghost predicate Stuck(c: Setup, s: State) {
    forall step: Step :: !step.Cancel? ==> !Enabled(c, s, step)
  }

  /** The bookkeeping after the last slot was given back is done. */
  predicate Quiet(c: Setup, s: State) {
    && !s.main.Checking?
    && (forall k :: 0 <= k < |s.hosts| && !Awaiting(c, s.hosts[k]) ==> s.hosts[k].phase.Finished?)
    && (forall k :: 0 <= k < |s.ports| ==> s.ports[k].phase.PortFinished?)
  }

  /** All slots are held by host tasks that each ask for another slot. */
  predicate Wedged(c: Setup, s: State) {
    |Awaiters(c, s)| == c.workers
  }

  lemma HoldersBound(c: Setup, s: State, a: set<nat>)
    requires Inv(c, s)
    requires forall k :: k in a ==> k < |s.hosts| && s.hosts[k].Holds()
    ensures |a| <= HostSlots(s) <= s.used <= c.workers
    ensures |a| == s.used ==> PortSlots(s) == 0 && forall k :: 0 <= k < |s.hosts| && s.hosts[k].Holds() ==> k in a
  {
    SubsetSize(a, Where(s.hosts, HoldsHost));
    if |a| == s.used {
      forall k | 0 <= k < |s.hosts| && s.hosts[k].Holds() ensures k in a {
        assert k in Where(s.hosts, HoldsHost);
      }
    }
  }

  /** The exact description of deadlock: a reachable state that is neither cancelled nor finished has no
      enabled step exactly when every slot is held by a host task waiting for another slot and all other
      bookkeeping is done. */
  lemma StuckExactly(c: Setup, s: State)
    requires c.Valid() && Reachable(c, s) && !s.cancelled && !s.main.Returned?
    ensures Stuck(c, s) <==> Wedged(c, s) && Quiet(c, s)
  {
    InvReachable(c, s);
    if Stuck(c, s) {
      StuckIsWedged(c, s);
    }
    if Wedged(c, s) && Quiet(c, s) {
      HoldersBound(c, s, Awaiters(c, s));
      var a :| a in Awaiters(c, s);
      assert !s.hosts[a].phase.Finished?;
    }
  }

  lemma StuckIsWedged(c: Setup, s: State)
    requires c.Valid() && Inv(c, s) && !s.cancelled && !s.main.Returned? && Stuck(c, s)
    ensures Wedged(c, s) && Quiet(c, s)
  {
    forall k: nat | k < |s.ports| ensures s.ports[k].phase.PortFinished? {
      StuckPort(c, s, k);
    }
    forall k: nat | k < |s.hosts| && !Awaiting(c, s.hosts[k]) ensures s.hosts[k].phase.Finished? {
      StuckHost(c, s, k);
    }
    assert !s.main.Checking? by { assert !Enabled(c, s, Check); }
    HoldersBound(c, s, Awaiters(c, s));
    CountZero(s.ports, HoldsPort);
    assert forall k :: 0 <= k < |s.hosts| && s.hosts[k].Holds() ==> k in Awaiters(c, s);
    assert Awaiters(c, s) == Where(s.hosts, HoldsHost);
    assert !Enabled(c, s, Launch) && !Enabled(c, s, Return);
    if AllFinished(s) {
      assert s.main.Sending?;
    } else {
      var k: nat :| k < |s.hosts| && !s.hosts[k].phase.Finished?;
      assert !Enabled(c, s, Spawn(k));
    }
  }

  lemma StuckPort(c: Setup, s: State, k: nat)
    requires Inv(c, s) && Stuck(c, s) && k < |s.ports|
    ensures s.ports[k].phase.PortFinished?
  {
    assert !Enabled(c, s, Report(k, false)) && !Enabled(c, s, ReleasePort(k)) && !Enabled(c, s, SignalPort(k));
    assert s.ports[k].owner < |s.hosts|;
    CountZero(s.ports, HoldsPort);
  }

  lemma NoAct(c: Setup, s: State, k: nat, act: Act)
    requires Stuck(c, s) && k < |s.hosts|
    ensures !CanAct(c, s, k, act)
  {
    assert !Enabled(c, s, Own(k, act));
  }

  lemma StuckHost(c: Setup, s: State, k: nat)
    requires Inv(c, s) && Stuck(c, s) && k < |s.hosts| && !Awaiting(c, s.hosts[k])
    requires forall j :: 0 <= j < |s.ports| ==> s.ports[j].phase.PortFinished?
    ensures s.hosts[k].phase.Finished?
  {
    match s.hosts[k].phase
    case Probing => NoAct(c, s, k, ProbeFails);
    case Saving => NoAct(c, s, k, SaveFails);
    case Walking(_, _) =>
      NoAct(c, s, k, SkipKnown);
      NoAct(c, s, k, StartJoin);
    case Joining(_) => NoAct(c, s, k, Join);
    case Tallying => NoAct(c, s, k, Tally);
    case Leaving =>
      NoAct(c, s, k, Release);
      CountZero(s.hosts, HoldsHost);
    case Signalling => NoAct(c, s, k, Signal);
    case Finished =>
  }

  /** After a cancellation some step is always enabled until Scan has returned. */
  lemma CancelledNeverStuck(c: Setup, s: State)
    requires c.Valid() && Reachable(c, s) && s.cancelled && !s.main.Returned?
    ensures exists step: Step :: !step.Cancel? && Enabled(c, s, step)
  {
    InvReachable(c, s);
    if Stuck(c, s) {
      assert !Enabled(c, s, Check) && !Enabled(c, s, Launch) && !Enabled(c, s, Return);
      forall k: nat | k < |s.ports| ensures s.ports[k].phase.PortFinished? {
        StuckPort(c, s, k);
      }
      forall k: nat | k < |s.hosts| ensures s.hosts[k].phase.Finished? {
        assert !Enabled(c, s, Own(k, GiveUp));
        StuckHost(c, s, k);
      }
      CountZero(s.hosts, HoldsHost);
      CountZero(s.ports, HoldsPort);
    }
  }

  /** A run that starts after a cancellation and cannot be extended has returned. */
  lemma CancelledRunsReturn(c: Setup, s: State, steps: seq<Step>)
    requires c.Valid() && Reachable(c, s) && s.cancelled && Feasible(c, s, steps)
    requires Stuck(c, Exec(c, s, steps))
    ensures Exec(c, s, steps).main.Returned?
  {
    var t := Exec(c, s, steps);
    var before :| Feasible(c, Init(), before) && Exec(c, Init(), before) == s;
    ExecAppend(c, Init(), before, steps);
    CancelledStays(c, s, steps);
    assert Reachable(c, t);
    if !t.main.Returned? {
      CancelledNeverStuck(c, t);
    }
  }

  lemma {:induction false} CancelledStays(c: Setup, s: State, steps: seq<Step>)
    requires Feasible(c, s, steps) && s.cancelled
    ensures Exec(c, s, steps).cancelled
    decreases |steps|
  {
    if steps == [] {
    } else {
      CancelledStays(c, Apply(c, s, steps[0]), steps[1..]);
    }
  }
}
