/**
The concurrent stages of a Scan against a sequential reference, and whether the device type
depends on which probe port answered first.
*/
module ScanPoolWinners {
  import opened Counting
  import opened ScanPool
  import opened ScanPoolResults
  import opened Classify
  import L = Labels

  // ---- A sequential reference -----------------------------------------------

  /** The entries of a list that satisfy f, in order. */
  function Kept(list: seq<int>, f: int -> bool): seq<int> {
    if list == [] then []
    else
      var n := |list| - 1;
      Kept(list[..n], f) + if f(list[n]) then [list[n]] else []
  }

  lemma {:induction false} KeptOccurs(list: seq<int>, f: int -> bool, r: int)
    ensures Occurs(Kept(list, f), r) == if f(r) then Occurs(list, r) else 0
    decreases |list|
  {
    if list == [] {
    } else {
      var n := |list| - 1;
      assert list == list[..n] + [list[n]];
      OccursAppend(list[..n], list[n], r);
      OccursAppend(Kept(list[..n], f), list[n], r);
      KeptOccurs(list[..n], f, r);
    }
  }

  function Answering(w: World, h: nat, stage: Stage): int -> bool {
    r => w.Answers(h, stage, r)
  }

  function AnsweringBut(w: World, h: nat, winner: int): int -> bool {
    r => r != winner && w.tcp(h, r)
  }

  /** What a scan of one port after the other hears: the winner, then each other answering entry of the deep list. */
  function SequentialTcp(c: Setup, w: World, h: nat, winner: int): seq<int> {
    [winner] + Kept(c.Ports(Deep), AnsweringBut(w, h, winner))
  }

  function SequentialUdp(c: Setup, w: World, h: nat): seq<int> {
    Kept(c.Ports(Udp), Answering(w, h, Udp))
  }

  function SequentialType(c: Setup, w: World, h: nat, winner: int, vendor: string, banner: string): string {
    Type(vendor, banner, SequentialTcp(c, w, h, winner), SequentialUdp(c, w, h))
  }

  /** Every uncancelled schedule hands over what the sequential scan hears, up to order. */
  lemma RefinesSequential(c: Setup, w: World, s: State, h: nat)
    requires Classified(c, w, s, h)
    ensures s.hosts[h].probe.Alive?
    ensures multiset(s.hosts[h].tcp) == multiset(SequentialTcp(c, w, h, s.hosts[h].probe.port))
    ensures multiset(s.hosts[h].udp) == multiset(SequentialUdp(c, w, h))
  {
    FinalLists(c, w, s, h);
    var p := s.hosts[h].probe.port;
    forall r ensures Occurs(s.hosts[h].tcp, r) == Occurs(SequentialTcp(c, w, h, p), r) {
      KeptOccurs(c.Ports(Deep), AnsweringBut(w, h, p), r);
      OccursFirst(p, Kept(c.Ports(Deep), AnsweringBut(w, h, p)), r);
    }
    forall r ensures Occurs(s.hosts[h].udp, r) == Occurs(SequentialUdp(c, w, h), r) {
      KeptOccurs(c.Ports(Udp), Answering(w, h, Udp), r);
    }
    SameCounts(s.hosts[h].tcp, SequentialTcp(c, w, h, p));
    SameCounts(s.hosts[h].udp, SequentialUdp(c, w, h));
  }

  lemma OccursFirst(p: int, list: seq<int>, r: int)
    ensures Occurs([p] + list, r) == (if p == r then 1 else 0) + Occurs(list, r)
  {
  }

  /** The device type is that of the sequential scan: the schedule decides nothing but the winner. */
  lemma TypeIsSequential(c: Setup, w: World, s: State, h: nat, vendor: string, banner: string)
    requires Classified(c, w, s, h)
    ensures s.hosts[h].probe.Alive?
    ensures Type(vendor, banner, s.hosts[h].tcp, s.hosts[h].udp)
        == SequentialType(c, w, h, s.hosts[h].probe.port, vendor, banner)
  {
    RefinesSequential(c, w, s, h);
    OrderIrrelevant(vendor, banner, s.hosts[h].tcp, SequentialTcp(c, w, h, s.hosts[h].probe.port), s.hosts[h].udp,
        SequentialUdp(c, w, h));
  }

  // ---- Labels of scanned hosts ---------------------------------------------------

  /** The TCP ports the classifier sees: the winner and the listed ports that answer. */
  function OpenTcp(c: Setup, w: World, h: nat, winner: int): set<int> {
    {winner} + set r | r in c.Ports(Deep) && w.tcp(h, r)
  }

  function OpenUdp(c: Setup, w: World, h: nat): set<int> {
    set r | r in c.Ports(Udp) && w.udp(h, r)
  }

  /** What the classifier knows of a host in this network when this port wins. */
  function Scanned(c: Setup, w: World, h: nat, winner: int, vendor: string, banner: string): L.Evidence {
    L.Evidence(
      Lower(vendor), Lower(banner), OpenTcp(c, w, h, winner), |SequentialTcp(c, w, h, winner)|, OpenUdp(c, w, h))
  }

  /** A classified host is known by the ports that answer: which ports are open on the network decides every
      signal. */
  lemma KnownByAnswers(c: Setup, w: World, s: State, h: nat, vendor: string, banner: string)
    requires Classified(c, w, s, h)
    ensures s.hosts[h].probe.Alive?
    ensures L.Known(vendor, banner, s.hosts[h].tcp, s.hosts[h].udp)
            == Scanned(c, w, h, s.hosts[h].probe.port, vendor, banner)
  {
    RefinesSequential(c, w, s, h);
    FinalLists(c, w, s, h);
    var x := s.hosts[h];
    var winner := x.probe.port;
    SequentialMembers(c, w, h, winner);
    SameMembers(x.tcp, SequentialTcp(c, w, h, winner));
    SameMembers(x.udp, SequentialUdp(c, w, h));
    var tcp := SequentialTcp(c, w, h, winner);
    assert |multiset(x.tcp)| == |x.tcp| && |multiset(tcp)| == |tcp|;
  }

  lemma SequentialMembers(c: Setup, w: World, h: nat, winner: int)
    ensures Members(SequentialTcp(c, w, h, winner)) == OpenTcp(c, w, h, winner)
    ensures Members(SequentialUdp(c, w, h)) == OpenUdp(c, w, h)
  {
    KeptMembers(c.Ports(Deep), AnsweringBut(w, h, winner));
    KeptMembers(c.Ports(Udp), Answering(w, h, Udp));
    forall r ensures r in SequentialTcp(c, w, h, winner) <==> r in OpenTcp(c, w, h, winner) {
      assert r in SequentialTcp(c, w, h, winner)
             <==> r == winner || r in Kept(c.Ports(Deep), AnsweringBut(w, h, winner));
    }
    forall r ensures r in SequentialUdp(c, w, h) <==> r in OpenUdp(c, w, h) {
      assert Answering(w, h, Udp)(r) == w.udp(h, r);
    }
  }

  /** The label of a scanned host follows from which ports answer: it is that of the most specific signal among
      them, in every uncancelled schedule. */
  lemma ScannedLabel(c: Setup, w: World, s: State, h: nat, vendor: string, banner: string, k: nat)
    requires Classified(c, w, s, h) && s.hosts[h].probe.Alive?
    requires L.First(k, Scanned(c, w, h, s.hosts[h].probe.port, vendor, banner))
    ensures Type(vendor, banner, s.hosts[h].tcp, s.hosts[h].udp)
            == L.Tag(k, Scanned(c, w, h, s.hosts[h].probe.port, vendor, banner))
  {
    KnownByAnswers(c, w, s, h, vendor, banner);
    L.FirstSignalDecides(vendor, banner, s.hosts[h].tcp, s.hosts[h].udp, k);
  }

  /** A host without vendor and banner on which one TCP port answers and no UDP port does gets the label of that
      port. */
  lemma ScannedOnePort(c: Setup, w: World, s: State, h: nat, p: int)
    requires Classified(c, w, s, h)
    requires (forall r :: w.tcp(h, r) <==> r == p) && forall r :: !w.udp(h, r)
    ensures Type("", "", s.hosts[h].tcp, s.hosts[h].udp) == L.PortLabel(p)
  {
    FinalLists(c, w, s, h);
    OneAnswer(c, w, h, p);
    TypeIsSequential(c, w, s, h, "", "");
    L.OnePort(p);
  }

  lemma OneAnswer(c: Setup, w: World, h: nat, p: int)
    requires (forall r :: w.tcp(h, r) <==> r == p) && forall r :: !w.udp(h, r)
    ensures SequentialType(c, w, h, p, "", "") == Type("", "", [p], [])
  {
    NothingKept(c.Ports(Deep), AnsweringBut(w, h, p));
    NothingKept(c.Ports(Udp), Answering(w, h, Udp));
    assert SequentialTcp(c, w, h, p) == [p] && SequentialUdp(c, w, h) == [];
  }

  lemma {:induction false} NothingKept(list: seq<int>, f: int -> bool)
    requires forall r :: !f(r)
    ensures Kept(list, f) == []
    decreases |list|
  {
    if list == [] {
    } else {
      NothingKept(list[..|list| - 1], f);
    }
  }

  // ---- Every answering probe port can win --------------------------------------

  /** A probe port that answers at this host. */
  predicate Candidate(c: Setup, w: World, h: nat, p: int) {
    p in c.probePorts && p != 0 && w.tcp(h, p)
  }

  lemma {:induction false} ObservesAppend(c: Setup, w: World, s: State, steps: seq<Step>, step: Step)
    requires Observes(c, w, s, steps) && Feasible(c, s, steps)
    requires Enabled(c, Exec(c, s, steps), step) && !step.Cancel? && Agrees(w, Exec(c, s, steps), step)
    ensures Observes(c, w, s, steps + [step]) && Feasible(c, s, steps + [step])
    ensures Exec(c, s, steps + [step]) == Apply(c, Exec(c, s, steps), step)
    decreases |steps|
  {
    if steps == [] {
      assert [] + [step] == [step] && [step][1..] == [];
      var t := Apply(c, s, step);
      assert Observes(c, w, t, []) && Feasible(c, t, []) && Exec(c, t, []) == t;
    } else {
      ObservesAppend(c, w, Apply(c, s, steps[0]), steps[1..], step);
      assert (steps + [step])[0] == steps[0] && (steps + [step])[1..] == steps[1..] + [step];
    }
  }

  lemma Does(c: Setup, w: World, s: State, step: Step) returns (t: State)
    requires Observed(c, w, s) && Enabled(c, s, step) && !step.Cancel? && Agrees(w, s, step)
    ensures t == Apply(c, s, step) && Observed(c, w, t)
  {
    var steps :| Observes(c, w, Init(), steps) && Feasible(c, Init(), steps) && Exec(c, Init(), steps) == s;
    ObservesAppend(c, w, Init(), steps, step);
    t := Apply(c, s, step);
  }

  /** The first n addresses have been probed without an answer; nothing is running. */
  lemma {:induction false} SkipsFirst(c: Setup, w: World, n: nat) returns (s: State)
    requires c.Valid() && n <= |c.addrs|
    ensures Observed(c, w, s) && !s.cancelled && s.used == 0 && s.main == Checking(n) && |s.hosts| == n && s.ports == []
  {
    if n == 0 {
      s := Init();
      assert Observes(c, w, s, []) && Feasible(c, s, []) && Exec(c, s, []) == s;
    } else {
      s := SkipsFirst(c, w, n - 1);
      s := Does(c, w, s, Check);
      s := Does(c, w, s, Launch);
      s := Does(c, w, s, Own(n - 1, ProbeFails));
      s := Does(c, w, s, Own(n - 1, Release));
      s := Does(c, w, s, Own(n - 1, Signal));
    }
  }

  /** Host h, found alive on port p, is alone in the pool and in this phase. */
  predicate Alone(s: State, h: nat, p: int, phase: Phase) {
    && !s.cancelled && s.used == 1 && h < |s.hosts|
    && s.hosts[h].phase == phase && s.hosts[h].probe == Alive(p) && s.hosts[h].saved
    && forall k :: 0 <= k < |s.ports| ==> s.ports[k].phase.PortFinished?
  }

  lemma FindsAlive(c: Setup, w: World, h: nat, p: int) returns (s: State)
    requires c.Valid() && h < |c.addrs| && Candidate(c, w, h, p)
    ensures Observed(c, w, s) && Alone(s, h, p, Walking(Deep, 0))
  {
    s := SkipsFirst(c, w, h);
    s := Does(c, w, s, Check);
    s := Does(c, w, s, Launch);
    s := Does(c, w, s, Own(h, ProbeAnswers(p)));
    s := Does(c, w, s, Own(h, Save));
  }

  /** The first n entries of the deep list are the known port. */
  predicate AllKnown(c: Setup, p: int, n: nat) {
    n <= |c.Ports(Deep)| && forall j :: 0 <= j < n ==> c.Ports(Deep)[j] == p
  }

  /** A host found alive on p can get through both stages: there is a second slot, or nothing to dial. */
  predicate CanFinish(c: Setup, p: int) {
    c.workers >= 2 || (AllKnown(c, p, |c.Ports(Deep)|) && c.Ports(Udp) == [])
  }

  lemma DialsNext(c: Setup, w: World, s: State, h: nat, p: int, stage: Stage, next: nat) returns (t: State)
    requires CanFinish(c, p) && Observed(c, w, s) && Alone(s, h, p, Walking(stage, next)) && next < |c.Ports(stage)|
    ensures Observed(c, w, t) && Alone(t, h, p, Walking(stage, next + 1))
  {
    if AtKnown(c, s.hosts[h]) {
      t := Does(c, w, s, Own(h, SkipKnown));
    } else {
      t := Dials(c, w, s, h, p, stage, next);
      t := Does(c, w, t, ReleasePort(|s.ports|));
      t := Does(c, w, t, SignalPort(|s.ports|));
    }
  }

  /** The port task of the next entry has reported and holds its slot. */
  lemma Dials(c: Setup, w: World, s: State, h: nat, p: int, stage: Stage, next: nat) returns (t: State)
    requires CanFinish(c, p) && Observed(c, w, s) && Alone(s, h, p, Walking(stage, next)) && next < |c.Ports(stage)|
    requires !AtKnown(c, s.hosts[h])
    ensures Observed(c, w, t) && !t.cancelled && t.used == 2 && h < |t.hosts|
    ensures t.hosts[h].phase == Walking(stage, next + 1) && t.hosts[h].probe == Alive(p) && t.hosts[h].saved
    ensures |t.ports| == |s.ports| + 1 && t.ports[..|s.ports|] == s.ports && t.ports[|s.ports|].phase == PortLeaving
  {
    t := Does(c, w, s, Spawn(h));
    t := Does(c, w, t, Report(|s.ports|, w.Answers(h, stage, c.Ports(stage)[next])));
  }

  lemma {:induction false} WalksOn(c: Setup, w: World, s: State, h: nat, p: int, stage: Stage, next: nat)
      returns (t: State)
    requires CanFinish(c, p) && Observed(c, w, s) && Alone(s, h, p, Walking(stage, next)) && next <= |c.Ports(stage)|
    ensures Observed(c, w, t) && Alone(t, h, p, if stage.Deep? then Walking(Udp, 0) else Tallying)
    decreases |c.Ports(stage)| - next
  {
    if next == |c.Ports(stage)| {
      t := Does(c, w, s, Own(h, StartJoin));
      t := Does(c, w, t, Own(h, Join));
    } else {
      t := DialsNext(c, w, s, h, p, stage, next);
      t := WalksOn(c, w, t, h, p, stage, next + 1);
    }
  }

  /** Every answering probe port of every address wins in some schedule that classifies the host, if any can get
      through. */
  lemma CandidateWins(c: Setup, w: World, h: nat, p: int) returns (s: State)
    requires c.Valid() && h < |c.addrs| && Candidate(c, w, h, p) && CanFinish(c, p)
    ensures Classified(c, w, s, h) && s.hosts[h].probe == Alive(p)
  {
    s := FindsAlive(c, w, h, p);
    s := WalksOn(c, w, s, h, p, Deep, 0);
    s := WalksOn(c, w, s, h, p, Udp, 0);
  }

  lemma WinnerIsCandidate(c: Setup, w: World, s: State, h: nat)
    requires c.Valid() && Classified(c, w, s, h)
    ensures h < |c.addrs| && s.hosts[h].probe.Alive?
    ensures Candidate(c, w, h, s.hosts[h].probe.port) && CanFinish(c, s.hosts[h].probe.port)
  {
    FinalLists(c, w, s, h);
    var steps :| Observes(c, w, Init(), steps) && Feasible(c, Init(), steps) && Exec(c, Init(), steps) == s;
    InvInit(c);
    InvExec(c, Init(), steps);
    assert HostOk(c, s.hosts[h]);
    if c.workers == 1 {
      OneSlotExec(c, w, Init(), steps);
      assert OneSlotOk(c, s.hosts[h]);
    }
  }

  /** With a single slot a host only gets past entries it does not have to dial. */
  predicate OneSlotOk(c: Setup, x: HostTask) {
    x.saved && x.probe.Alive? ==>
      match x.phase
      case Walking(Deep, next) => AllKnown(c, x.probe.port, next)
      case Joining(Deep) => AllKnown(c, x.probe.port, |c.Ports(Deep)|)
      case Walking(Udp, next) => AllKnown(c, x.probe.port, |c.Ports(Deep)|) && next == 0
      case _ => CanFinish(c, x.probe.port)
  }

  lemma OneSlotStep(c: Setup, s: State, step: Step)
    requires c.workers == 1 && Inv(c, s) && !s.cancelled && Enabled(c, s, step)
    requires forall k :: 0 <= k < |s.hosts| ==> OneSlotOk(c, s.hosts[k])
    ensures forall k :: 0 <= k < |Apply(c, s, step).hosts| ==> OneSlotOk(c, Apply(c, s, step).hosts[k])
  {
    if step.Spawn? {
      OnlySlotHeld(c, s, step.h);
    } else if step.Own? {
      assert HostOk(c, s.hosts[step.h]);
      OneSlotAct(c, s, step.h, step.act);
    }
  }

  lemma OnlySlotHeld(c: Setup, s: State, h: nat)
    requires c.workers == 1 && CountersOk(c, s) && h < |s.hosts| && s.hosts[h].Holds()
    ensures s.used == c.workers
  {
    CountZero(s.hosts, HoldsHost);
  }

  lemma OneSlotAct(c: Setup, s: State, h: nat, act: Act)
    requires c.workers == 1 && h < |s.hosts| && !s.cancelled && CanAct(c, s, h, act)
    requires HostOk(c, s.hosts[h]) && OneSlotOk(c, s.hosts[h])
    ensures OneSlotOk(c, Acted(s.hosts[h], act))
  {
  }

  lemma {:induction false} OneSlotExec(c: Setup, w: World, s: State, steps: seq<Step>)
    requires c.workers == 1 && Inv(c, s) && !s.cancelled && Observes(c, w, s, steps) && Feasible(c, s, steps)
    requires forall k :: 0 <= k < |s.hosts| ==> OneSlotOk(c, s.hosts[k])
    ensures forall k :: 0 <= k < |Exec(c, s, steps).hosts| ==> OneSlotOk(c, Exec(c, s, steps).hosts[k])
    decreases |steps|
  {
    if steps == [] {
    } else {
      OneSlotStep(c, s, steps[0]);
      InvStep(c, s, steps[0]);
      OneSlotExec(c, w, Apply(c, s, steps[0]), steps[1..]);
    }
  }

  // ---- Whichever probe port wins ---------------------------------------------

  /** The device type a classified host gets: the banner is read from the port that won. */
  function Label(x: HostTask, vendor: string, banner: int -> string): string
    requires x.probe.Alive?
  {
    Type(vendor, banner(x.probe.port), x.tcp, x.udp)
  }

  /** The device type of the sequential scan when this port wins. */
  function WinnerType(c: Setup, w: World, h: nat, winner: int, vendor: string, banner: int -> string): string {
    SequentialType(c, w, h, winner, vendor, banner(winner))
  }

  lemma LabelIsSequential(c: Setup, w: World, s: State, h: nat, vendor: string, banner: int -> string)
    requires Classified(c, w, s, h)
    ensures s.hosts[h].probe.Alive?
    ensures Label(s.hosts[h], vendor, banner) == WinnerType(c, w, h, s.hosts[h].probe.port, vendor, banner)
  {
    FinalLists(c, w, s, h);
    TypeIsSequential(c, w, s, h, vendor, banner(s.hosts[h].probe.port));
  }

  /** No schedule decides the device type of host h in this network. */
  ghost predicate TypeSettled(c: Setup, w: World, h: nat, vendor: string, banner: int -> string) {
    forall s, t ::
      Classified(c, w, s, h) && Classified(c, w, t, h) && s.hosts[h].probe.Alive? && t.hosts[h].probe.Alive?
      ==> Label(s.hosts[h], vendor, banner) == Label(t.hosts[h], vendor, banner)
  }

  /** A probe port that some schedule makes the winner of a classified host. */
  predicate CanWin(c: Setup, w: World, h: nat, p: int) {
    Candidate(c, w, h, p) && CanFinish(c, p)
  }

  /** The device type does not depend on the schedule, the liveness winner included, exactly when the sequential scan
      gives one type for all the probe ports that can win. */
  lemma WinnerIrrelevantExactly(c: Setup, w: World, h: nat, vendor: string, banner: int -> string)
    requires c.Valid() && h < |c.addrs|
    ensures TypeSettled(c, w, h, vendor, banner)
            <==> forall p, q :: CanWin(c, w, h, p) && CanWin(c, w, h, q) ==>
                   WinnerType(c, w, h, p, vendor, banner) == WinnerType(c, w, h, q, vendor, banner)
  {
    if TypeSettled(c, w, h, vendor, banner) {
      forall p, q | CanWin(c, w, h, p) && CanWin(c, w, h, q)
        ensures WinnerType(c, w, h, p, vendor, banner) == WinnerType(c, w, h, q, vendor, banner)
      {
        var s := CandidateWins(c, w, h, p);
        var t := CandidateWins(c, w, h, q);
        LabelIsSequential(c, w, s, h, vendor, banner);
        LabelIsSequential(c, w, t, h, vendor, banner);
      }
    } else {
      var s, t :|
        && Classified(c, w, s, h) && Classified(c, w, t, h) && s.hosts[h].probe.Alive? && t.hosts[h].probe.Alive?
        && Label(s.hosts[h], vendor, banner) != Label(t.hosts[h], vendor, banner);
      WinnerIsCandidate(c, w, s, h);
      WinnerIsCandidate(c, w, t, h);
      LabelIsSequential(c, w, s, h, vendor, banner);
      LabelIsSequential(c, w, t, h, vendor, banner);
    }
  }

  /** The entries of the deep list that answer, repeats included. */
  function AnsweringEntries(c: Setup, w: World, h: nat): seq<int> {
    Kept(c.Ports(Deep), Answering(w, h, Deep))
  }

  /** A listed winner is classified by the answering ports of the list; only the length depends on the winner, which
      stands for all its occurrences. */
  lemma ListedWinner(c: Setup, w: World, h: nat, p: int)
    requires w.tcp(h, p) && p in c.Ports(Deep)
    ensures Members(SequentialTcp(c, w, h, p)) == Members(AnsweringEntries(c, w, h))
    ensures |SequentialTcp(c, w, h, p)| == |AnsweringEntries(c, w, h)| - Occurs(c.Ports(Deep), p) + 1
  {
    KeptMembers(c.Ports(Deep), AnsweringBut(w, h, p));
    KeptMembers(c.Ports(Deep), Answering(w, h, Deep));
    KeptLength(c.Ports(Deep), w, h, p);
    forall r ensures r in Members(SequentialTcp(c, w, h, p)) <==> r in Members(AnsweringEntries(c, w, h)) {
      assert r in SequentialTcp(c, w, h, p) <==> r == p || r in Kept(c.Ports(Deep), AnsweringBut(w, h, p));
    }
  }

  lemma {:induction false} KeptMembers(list: seq<int>, f: int -> bool)
    ensures forall r :: r in Kept(list, f) <==> r in list && f(r)
    decreases |list|
  {
    if list == [] {
    } else {
      var n := |list| - 1;
      assert list == list[..n] + [list[n]];
      KeptMembers(list[..n], f);
    }
  }

  lemma {:induction false} KeptLength(list: seq<int>, w: World, h: nat, p: int)
    requires w.tcp(h, p)
    ensures |Kept(list, AnsweringBut(w, h, p))| == |Kept(list, Answering(w, h, Deep))| - Occurs(list, p)
    decreases |list|
  {
    if list == [] {
    } else {
      var n := |list| - 1;
      assert list == list[..n] + [list[n]];
      OccursAppend(list[..n], list[n], p);
      KeptLength(list[..n], w, h, p);
    }
  }

  /** A rule before the one on the greeting applies to the answering ports of the lists. */
  predicate EarlierApplies(c: Setup, w: World, h: nat, vendor: string) {
    EarlierRule(Lower(vendor), Members(AnsweringEntries(c, w, h)), Members(SequentialUdp(c, w, h))) != Unclassified
  }

  /** How many TCP entries the classifier gets when this listed port wins. */
  function EntriesWith(c: Setup, w: World, h: nat, p: int): int {
    |AnsweringEntries(c, w, h)| - Occurs(c.Ports(Deep), p) + 1
  }

  /** The banners of two listed winners lead to the same later rule. */
  predicate WinnersAgree(c: Setup, w: World, h: nat, p: int, q: int, banner: int -> string) {
    var n, m := EntriesWith(c, w, h, p), EntriesWith(c, w, h, q);
    n >= 0 && m >= 0
    && Agree(HintOf(Lower(banner(p))), n, HintOf(Lower(banner(q))), m, 22 in AnsweringEntries(c, w, h))
  }

  /** Two listed winners give the same type exactly when an earlier rule applies to the answering ports, or their
      banners and the lengths of their lists agree. */
  lemma ListedWinnersExactly(c: Setup, w: World, h: nat, p: int, q: int, vendor: string, banner: int -> string)
    requires w.tcp(h, p) && w.tcp(h, q) && p in c.Ports(Deep) && q in c.Ports(Deep)
    ensures WinnerType(c, w, h, p, vendor, banner) == WinnerType(c, w, h, q, vendor, banner)
            <==> EarlierApplies(c, w, h, vendor) || WinnersAgree(c, w, h, p, q, banner)
  {
    ListedWinner(c, w, h, p);
    ListedWinner(c, w, h, q);
    var a, b, entries := SequentialTcp(c, w, h, p), SequentialTcp(c, w, h, q), AnsweringEntries(c, w, h);
    assert 22 in Members(a) <==> 22 in a;
    assert 22 in Members(entries) <==> 22 in entries;
    SameTypeExactly(vendor, banner(p), banner(q), a, b, SequentialUdp(c, w, h));
  }

  /** Two winners that the deep list holds equally often, at least once, give the same type in all their schedules
      exactly when an earlier rule applies or their banners agree: one hint, or a greeting of OpenSSH on Unix against no
      hint with SSH in a list of at most three. */
  lemma WinnerIndependent(
    c: Setup, w: World, s: State, t: State, h: nat, vendor: string, banner: int -> string)
    requires Classified(c, w, s, h) && Classified(c, w, t, h)
    requires s.hosts[h].probe.Alive? && t.hosts[h].probe.Alive?
    requires Occurs(c.Ports(Deep), s.hosts[h].probe.port) == Occurs(c.Ports(Deep), t.hosts[h].probe.port) >= 1
    ensures
      var p, q := s.hosts[h].probe.port, t.hosts[h].probe.port;
      && EntriesWith(c, w, h, p) == EntriesWith(c, w, h, q)
      && (Label(s.hosts[h], vendor, banner) == Label(t.hosts[h], vendor, banner)
          <==> EarlierApplies(c, w, h, vendor) || WinnersAgree(c, w, h, p, q, banner))
  {
    FinalLists(c, w, s, h);
    FinalLists(c, w, t, h);
    LabelIsSequential(c, w, s, h, vendor, banner);
    LabelIsSequential(c, w, t, h, vendor, banner);
    ListedWinnersExactly(c, w, h, s.hosts[h].probe.port, t.hosts[h].probe.port, vendor, banner);
  }

  /** A deep list without repeated ports that covers the probe list settles the device type of a host exactly when an
      earlier rule applies to its answering ports, or the banners of the probe ports that can win agree pairwise. */
  lemma CoveringListExactly(c: Setup, w: World, h: nat, vendor: string, banner: int -> string)
    requires c.Valid() && h < |c.addrs|
    requires Covering(c)
    ensures TypeSettled(c, w, h, vendor, banner)
            <==> || EarlierApplies(c, w, h, vendor)
                 || forall p, q :: CanWin(c, w, h, p) && CanWin(c, w, h, q) ==> BannersAgree(c, w, h, p, q, banner)
  {
    WinnerIrrelevantExactly(c, w, h, vendor, banner);
    if TypeSettled(c, w, h, vendor, banner) {
      if !EarlierApplies(c, w, h, vendor) {
        forall p, q | CanWin(c, w, h, p) && CanWin(c, w, h, q) ensures BannersAgree(c, w, h, p, q, banner) {
          CoveredPair(c, w, h, p, q, vendor, banner);
        }
      }
    } else {
      var p, q :| CanWin(c, w, h, p) && CanWin(c, w, h, q)
                  && WinnerType(c, w, h, p, vendor, banner) != WinnerType(c, w, h, q, vendor, banner);
      CoveredPair(c, w, h, p, q, vendor, banner);
    }
  }

  /** The deep list repeats no port and covers the probe list. */
  predicate Covering(c: Setup) {
    && (forall p :: p in c.probePorts ==> p in c.Ports(Deep))
    && forall j, k :: 0 <= j < k < |c.Ports(Deep)| ==> c.Ports(Deep)[j] != c.Ports(Deep)[k]
  }

  lemma CoveredPair(c: Setup, w: World, h: nat, p: int, q: int, vendor: string, banner: int -> string)
    requires Covering(c) && CanWin(c, w, h, p) && CanWin(c, w, h, q)
    ensures WinnerType(c, w, h, p, vendor, banner) == WinnerType(c, w, h, q, vendor, banner)
            <==> EarlierApplies(c, w, h, vendor) || BannersAgree(c, w, h, p, q, banner)
  {
    OnceIn(c.Ports(Deep), p);
    OnceIn(c.Ports(Deep), q);
    ListedWinnersExactly(c, w, h, p, q, vendor, banner);
  }

  /** The banners of two ports lead to the same later rule for the answering entries. */
  predicate BannersAgree(c: Setup, w: World, h: nat, p: int, q: int, banner: int -> string) {
    var entries := AnsweringEntries(c, w, h);
    Agree(HintOf(Lower(banner(p))), |entries|, HintOf(Lower(banner(q))), |entries|, 22 in entries)
  }

  /** Banners that give one hint, in particular none, settle every type under such a list. */
  lemma OneHintSettles(c: Setup, w: World, h: nat, vendor: string, banner: int -> string)
    requires c.Valid() && h < |c.addrs|
    requires Covering(c)
    requires forall p, q :: p in c.probePorts && q in c.probePorts ==>
               HintOf(Lower(banner(p))) == HintOf(Lower(banner(q)))
    ensures TypeSettled(c, w, h, vendor, banner)
  {
    CoveringListExactly(c, w, h, vendor, banner);
    forall p, q | CanWin(c, w, h, p) && CanWin(c, w, h, q) ensures BannersAgree(c, w, h, p, q, banner) {
      assert p in c.probePorts && q in c.probePorts;
    }
  }

  lemma {:induction false} OnceIn(list: seq<int>, p: int)
    requires p in list
    requires forall j, k :: 0 <= j < k < |list| ==> list[j] != list[k]
    ensures Occurs(list, p) == 1
    decreases |list|
  {
    var n := |list| - 1;
    assert list == list[..n] + [list[n]];
    assert multiset(list) == multiset(list[..n]) + multiset{list[n]};
    if list[n] == p {
      assert p !in multiset(list[..n]);
    } else {
      OnceIn(list[..n], p);
    }
  }

  // ---- When it matters ---------------------------------------------------------

  /** Two reachable classified states of one network in which host 0 gets these device types. */
  ghost predicate BothTypes(c: Setup, w: World, vendor: string, banner: int -> string, x: string, y: string) {
    exists s, t ::
      && Classified(c, w, s, 0) && Classified(c, w, t, 0) && s.hosts[0].probe.Alive? && t.hosts[0].probe.Alive?
      && Label(s.hosts[0], vendor, banner) == x && Label(t.hosts[0], vendor, banner) == y
  }

  lemma TwoWinners(c: Setup, w: World, p: int, q: int, vendor: string, banner: int -> string)
    requires c.Valid() && |c.addrs| > 0 && CanWin(c, w, 0, p) && CanWin(c, w, 0, q)
    ensures BothTypes(c, w, vendor, banner, WinnerType(c, w, 0, p, vendor, banner),
        WinnerType(c, w, 0, q, vendor, banner))
  {
    var s := CandidateWins(c, w, 0, p);
    var t := CandidateWins(c, w, 0, q);
    LabelIsSequential(c, w, s, 0, vendor, banner);
    LabelIsSequential(c, w, t, 0, vendor, banner);
  }

  /** The lists New uses when none are configured. */
  const DEFAULT_PROBE := [22, 80, 443, 8080]
  const DEFAULT_LOW := [21, 22, 23, 25, 53, 80, 110, 111, 135, 139, 143, 443, 445, 465, 587]
  const DEFAULT_MIDDLE := [993, 995, 1433, 1723, 2049, 3000, 3306, 3389, 5432, 5900, 6379, 8000]
  const DEFAULT_HIGH := [8080, 8443, 8888, 9090, 9100, 11211, 27017]
  const DEFAULT_DEEP := DEFAULT_LOW + DEFAULT_MIDDLE + DEFAULT_HIGH

  /** With the default lists the greeting decides: a host that answers on the four probe ports and greets with OpenSSH
      on 22 is a linux-host when 22 wins and nothing when 80 does. */
  lemma BannerWinnerMatters()
    ensures
      var c := Setup(["10.0.0.1"], 50, DEFAULT_PROBE, true, true, DEFAULT_DEEP, []);
      var w := World((h, p) => p in DEFAULT_PROBE, (h, p) => false);
      BothTypes(c, w, "", p => if p == 22 then GREETING else "", "linux-host", "")
  {
    var c := Setup(["10.0.0.1"], 50, DEFAULT_PROBE, true, true, DEFAULT_DEEP, []);
    var w := World((h, p) => p in DEFAULT_PROBE, (h, p) => false);
    var banner := p => if p == 22 then GREETING else "";
    DefaultEntries(c, w);
    GreetingTypes(c, w, banner);
    TwoWinners(c, w, 22, 80, "", banner);
  }

  lemma GreetingTypes(c: Setup, w: World, banner: int -> string)
    requires Members(AnsweringEntries(c, w, 0)) == {22, 80, 443, 8080} && c.Ports(Udp) == []
    requires w.tcp(0, 22) && w.tcp(0, 80) && 22 in c.Ports(Deep) && 80 in c.Ports(Deep)
    requires banner(22) == GREETING && banner(80) == ""
    ensures WinnerType(c, w, 0, 22, "", banner) == "linux-host" && WinnerType(c, w, 0, 80, "", banner) == ""
  {
    ListedWinner(c, w, 0, 22);
    ListedWinner(c, w, 0, 80);
    assert SequentialUdp(c, w, 0) == [];
    WithGreeting(SequentialTcp(c, w, 0, 22));
    WithoutGreeting(SequentialTcp(c, w, 0, 80));
  }

  lemma WithGreeting(tcp: seq<int>)
    requires Members(tcp) == {22, 80, 443, 8080}
    ensures Type("", GREETING, tcp, []) == "linux-host"
  {
    OpenSshGreeting();
    HintDecides(tcp, GREETING);
  }

  lemma HintDecides(tcp: seq<int>, banner: string)
    requires Members(tcp) == {22, 80, 443, 8080} && HintOf(Lower(banner)) == UnixSsh
    ensures Type("", banner, tcp, []) == "linux-host"
  {
    GreetingType(tcp, banner);
    UnixName({22, 80, 443, 8080}, |tcp|);
  }

  lemma UnixName(tcp: set<int>, n: nat)
    ensures Name(LaterRule(UnixSsh, tcp, n)) == "linux-host"
  {
  }

  lemma WithoutGreeting(tcp: seq<int>)
    requires Members(tcp) == {22, 80, 443, 8080}
    ensures Type("", "", tcp, []) == ""
  {
    GreetingDecides(tcp, "");
    NoText();
    assert Kind("", "", tcp, []) == Unclassified;
  }

  lemma DefaultEntries(c: Setup, w: World)
    requires c.Ports(Deep) == DEFAULT_DEEP && forall p :: w.tcp(0, p) <==> p in DEFAULT_PROBE
    ensures Members(AnsweringEntries(c, w, 0)) == {22, 80, 443, 8080}
    ensures 22 in DEFAULT_DEEP && 80 in DEFAULT_DEEP
  {
    DefaultsCover();
    EntriesOf(c, w, DEFAULT_DEEP, {22, 80, 443, 8080});
  }

  lemma DefaultsCover()
    ensures 22 in DEFAULT_DEEP && 80 in DEFAULT_DEEP && 443 in DEFAULT_DEEP && 8080 in DEFAULT_DEEP
    ensures forall p :: p in DEFAULT_PROBE <==> p in {22, 80, 443, 8080}
  {
    assert DEFAULT_LOW[1] == 22 && DEFAULT_LOW[5] == 80 && DEFAULT_LOW[11] == 443 && DEFAULT_HIGH[0] == 8080;
  }

  lemma EntriesOf(c: Setup, w: World, list: seq<int>, open: set<int>)
    requires c.Ports(Deep) == list && (forall p :: w.tcp(0, p) <==> p in open) && forall p :: p in open ==> p in list
    ensures Members(AnsweringEntries(c, w, 0)) == open
  {
    KeptMembers(list, Answering(w, 0, Deep));
    forall r ensures r in AnsweringEntries(c, w, 0) <==> r in open {
      assert Answering(w, 0, Deep)(r) == (r in open);
    }
  }

  /** A deep list that holds one probe port once and the other three times: two schedules of one network end in
      different device types. */
  lemma RepeatedWinnerMatters()
    ensures
      var c := Setup(["10.0.0.1"], 2, [80, 22], true, true, [22, 80, 80, 80], []);
      var w := World((h, p) => p == 22 || p == 80, (h, p) => false);
      BothTypes(c, w, "", p => "", "linux-host", "")
  {
    var c := Setup(["10.0.0.1"], 2, [80, 22], true, true, [22, 80, 80, 80], []);
    var w := World((h, p) => p == 22 || p == 80, (h, p) => false);
    ShortAndLong(c, w);
    TwoWinners(c, w, 80, 22, "", p => "");
  }

  lemma ShortAndLong(c: Setup, w: World)
    requires c.Ports(Deep) == [22, 80, 80, 80] && c.Ports(Udp) == []
    requires forall p :: w.tcp(0, p) <==> p == 22 || p == 80
    ensures SequentialType(c, w, 0, 80, "", "") == "linux-host" && SequentialType(c, w, 0, 22, "", "") == ""
  {
    ListFacts();
    KeptAll([22, 80, 80, 80], Answering(w, 0, Deep));
    ListedWinner(c, w, 0, 80);
    ListedWinner(c, w, 0, 22);
    assert SequentialUdp(c, w, 0) == [];
    SshAndWeb(SequentialTcp(c, w, 0, 80));
    SshAndWeb(SequentialTcp(c, w, 0, 22));
  }

  lemma ListFacts()
    ensures Occurs([22, 80, 80, 80], 80) == 3 && Occurs([22, 80, 80, 80], 22) == 1
    ensures Members([22, 80, 80, 80]) == {22, 80}
    ensures forall r :: r in [22, 80, 80, 80] <==> r == 22 || r == 80
  {
  }

  lemma {:induction false} KeptAll(list: seq<int>, f: int -> bool)
    requires forall k :: 0 <= k < |list| ==> f(list[k])
    ensures Kept(list, f) == list
    decreases |list|
  {
    if list == [] {
    } else {
      var n := |list| - 1;
      assert list == list[..n] + [list[n]];
      KeptAll(list[..n], f);
    }
  }

  /** Without a deep list the winner is all the classifier sees. */
  lemma UnlistedWinnerMatters()
    ensures
      var c := Setup(["10.0.0.1"], 2, [9100, 80], true, false, [], []);
      var w := World((h, p) => p == 9100 || p == 80, (h, p) => false);
      BothTypes(c, w, "", p => "", "printer", "appliance")
  {
    var c := Setup(["10.0.0.1"], 2, [9100, 80], true, false, [], []);
    var w := World((h, p) => p == 9100 || p == 80, (h, p) => false);
    assert SequentialTcp(c, w, 0, 9100) == [9100] && SequentialTcp(c, w, 0, 80) == [80];
    assert SequentialUdp(c, w, 0) == [];
    assert 9100 in Members([9100]);
    OnlyWeb();
    TwoWinners(c, w, 9100, 80, "", p => "");
  }
}
