/**
The migration protocol: several processes run the same sorted list of migrations against
one database.  Each reads the recorded versions once, then for every version its snapshot
lacks takes the write lock, checks again, applies and records inside one transaction, and
commits.  A process can fail, crash or be started again at any point.
*/
module Migrations {

  /** The committed state: the migrations applied, in the order applied, and the versions recorded. */
  datatype Db = Db(schema: seq<string>, recorded: set<string>)

  datatype Phase =
    | Booting
    | Reading
    | At(i: nat)
    | Begun(i: nat)
    | Locked(i: nat)
    | Rechecked(i: nat, already: bool)
    | Executed(i: nat)
    | Recorded(i: nat)
    | Done
    | Failed
    | Crashed
  {
    predicate HoldsLock() { Locked? || Rechecked? || Executed? || Recorded? }
    predicate Live() { !Done? && !Failed? && !Crashed? }
  }

  /** `applied` is the snapshot of recorded versions read at the start. */
  datatype Proc = Proc(phase: Phase, applied: set<string>)

  /** The write lock; its holder works on a private view until it commits. */
  datatype Lock = Free | Held(p: nat, view: Db)

  datatype State = State(db: Db, table: bool, lock: Lock, procs: seq<Proc>)

  datatype Act =
    | CreateTable
    | ReadSnapshot
    | Skip
    | Begin
    | TakeLock
    | Recheck
    | CommitNoop
    | Execute
    | Record
    | Commit
    | Finish
    | Abort(crash: bool)
    | Restart

  datatype Step = Step(p: nat, act: Act)

  function Names(list: seq<string>): set<string> {
    set v | v in list
  }

  predicate Distinct(files: seq<string>) {
    forall j, k :: 0 <= j < k < |files| ==> files[j] != files[k]
  }

  // ---- Steps ----------------------------------------------------------------

  predicate CanAct(files: seq<string>, s: State, p: nat, act: Act)
    requires p < |s.procs|
  {
    var x := s.procs[p];
    match act
    case CreateTable => x.phase.Booting? && s.lock.Free?
    case ReadSnapshot => x.phase.Reading? && s.table
    case Skip => x.phase.At? && x.phase.i < |files| && files[x.phase.i] in x.applied
    case Begin => x.phase.At? && x.phase.i < |files| && files[x.phase.i] !in x.applied
    case TakeLock => x.phase.Begun? && s.lock.Free?
    case Recheck => x.phase.Locked? && x.phase.i < |files| && s.lock.Held?
    case CommitNoop => x.phase.Rechecked? && x.phase.already && s.lock.Held?
    case Execute => x.phase.Rechecked? && !x.phase.already && x.phase.i < |files| && s.lock.Held?
    case Record => x.phase.Executed? && x.phase.i < |files| && s.lock.Held? && files[x.phase.i] !in s.lock.view.recorded
    case Commit => x.phase.Recorded? && s.lock.Held?
    case Finish => x.phase.At? && x.phase.i >= |files|
    case Abort(_) => x.phase.Live()
    case Restart => x.phase.Failed? || x.phase.Crashed?
  }

  predicate Enabled(files: seq<string>, s: State, step: Step) {
    step.p < |s.procs| && CanAct(files, s, step.p, step.act)
  }

  /** The acting process afterwards. */
  function Acted(files: seq<string>, s: State, p: nat, act: Act): Proc
    requires p < |s.procs| && CanAct(files, s, p, act)
  {
    var x := s.procs[p];
    match act
    case CreateTable => x.(phase := Reading)
    case ReadSnapshot => Proc(At(0), s.db.recorded)
    case Skip => x.(phase := At(x.phase.i + 1))
    case Begin => x.(phase := Begun(x.phase.i))
    case TakeLock => x.(phase := Locked(x.phase.i))
    case Recheck => x.(phase := Rechecked(x.phase.i, files[x.phase.i] in s.lock.view.recorded))
    case CommitNoop => x.(phase := At(x.phase.i + 1))
    case Execute => x.(phase := Executed(x.phase.i))
    case Record => x.(phase := Recorded(x.phase.i))
    case Commit => x.(phase := At(x.phase.i + 1))
    case Finish => x.(phase := Done)
    case Abort(crash) => x.(phase := if crash then Crashed else Failed)
    case Restart => Proc(Booting, {})
  }

  function LockAfter(files: seq<string>, s: State, p: nat, act: Act): Lock
    requires p < |s.procs| && CanAct(files, s, p, act)
  {
    var x := s.procs[p];
    match act
    case TakeLock => Held(p, s.db)
    case Execute => s.lock.(view := s.lock.view.(schema := s.lock.view.schema + [files[x.phase.i]]))
    case Record => s.lock.(view := s.lock.view.(recorded := s.lock.view.recorded + {files[x.phase.i]}))
    case CommitNoop => Free
    case Commit => Free
    case Abort(_) => if x.phase.HoldsLock() then Free else s.lock
    case _ => s.lock
  }

  function Apply(files: seq<string>, s: State, step: Step): State
    requires Enabled(files, s, step)
  {
    State(
      if step.act.Commit? || step.act.CommitNoop? then s.lock.view else s.db,
      s.table || step.act.CreateTable?,
      LockAfter(files, s, step.p, step.act),
      s.procs[step.p := Acted(files, s, step.p, step.act)])
  }

  /** A database whose recorded versions are a prefix of the list, applied in order. */
  predicate IsPrefix(files: seq<string>, db: Db) {
    && |db.schema| <= |files|
    && db.schema == files[..|db.schema|]
    && db.recorded == Names(db.schema)
  }

  /** n processes about to start on a database in which some prefix has been recorded. */
  predicate Initial(files: seq<string>, s: State) {
    && IsPrefix(files, s.db)
    && s.lock.Free?
    && forall p :: 0 <= p < |s.procs| ==> s.procs[p] == Proc(Booting, {})
  }

  ghost predicate Feasible(files: seq<string>, s: State, steps: seq<Step>)
    decreases |steps|
  {
    steps == [] || (Enabled(files, s, steps[0]) && Feasible(files, Apply(files, s, steps[0]), steps[1..]))
  }

  ghost function Exec(files: seq<string>, s: State, steps: seq<Step>): State
    requires Feasible(files, s, steps)
    decreases |steps|
  {
    if steps == [] then s else Exec(files, Apply(files, s, steps[0]), steps[1..])
  }

  ghost predicate Reachable(files: seq<string>, s: State) {
    exists s0, steps :: Initial(files, s0) && Feasible(files, s0, steps) && Exec(files, s0, steps) == s
  }

  // ---- Invariant --------------------------------------------------------------

  /** A process has reached position i of the list only if everything before it is recorded. */
  predicate ProcOk(files: seq<string>, db: Db, x: Proc) {
    && x.applied <= db.recorded
    && match x.phase
       case At(i) => i <= |db.schema|
       case Begun(i) => i <= |db.schema| && i < |files|
       case Locked(i) => i <= |db.schema| && i < |files|
       case Rechecked(i, _) => i <= |db.schema| && i < |files|
       case Executed(i) => i <= |db.schema| && i < |files|
       case Recorded(i) => i <= |db.schema| && i < |files|
       case Done => |db.schema| == |files|
       case _ => true
  }

  /** The private view of the lock holder, by what it has done in its transaction. */
  predicate ViewOk(files: seq<string>, db: Db, phase: Phase, view: Db) {
    match phase
    case Locked(_) => view == db
    case Rechecked(i, already) => view == db && i < |files| && already == (files[i] in db.recorded)
    case Executed(i) => i < |files| && files[i] !in db.recorded && view == db.(schema := db.schema + [files[i]])
    case Recorded(i) => i < |files| && files[i] !in db.recorded
        && view == Db(db.schema + [files[i]], db.recorded + {files[i]})
    case _ => false
  }

  predicate Inv(files: seq<string>, s: State) {
    && IsPrefix(files, s.db)
    && (forall p :: 0 <= p < |s.procs| ==> ProcOk(files, s.db, s.procs[p]))
    && (forall p :: 0 <= p < |s.procs| ==> (s.procs[p].phase.HoldsLock() <==> s.lock.Held? && s.lock.p == p))
    && (s.lock.Held? ==> s.lock.p < |s.procs| && ViewOk(files, s.db, s.procs[s.lock.p].phase, s.lock.view))
    && (forall p :: 0 <= p < |s.procs| && s.procs[p].phase.Reading? ==> s.table)
  }

  /** A recorded version of a prefix database is one of its first versions. */
  lemma RecordedBelow(files: seq<string>, db: Db, i: nat)
    requires Distinct(files) && IsPrefix(files, db) && i < |files|
    ensures files[i] in db.recorded <==> i < |db.schema|
  {
    assert forall j :: 0 <= j < |db.schema| ==> db.schema[j] == files[j];
    if i < |db.schema| {
      assert files[i] == db.schema[i];
    }
  }

  /** A commit publishes exactly the next version of the list, or nothing. */
  lemma CommitsNext(files: seq<string>, s: State, step: Step)
    requires Distinct(files) && Inv(files, s) && Enabled(files, s, step)
    ensures
      var t := Apply(files, s, step);
      && IsPrefix(files, t.db)
      && (t.db == s.db || (step.act.Commit? && |t.db.schema| == |s.db.schema| + 1
          && s.procs[step.p].phase == Recorded(|s.db.schema|)))
      && s.db.schema <= t.db.schema && s.db.recorded <= t.db.recorded
  {
    if step.act.Commit? {
      var i := s.procs[step.p].phase.i;
      RecordedBelow(files, s.db, i);
      var view := s.lock.view;
      assert s.lock.p == step.p;
      assert view.schema == files[..i + 1];
      assert Names(view.schema) == Names(s.db.schema) + {files[i]};
    } else if step.act.CommitNoop? {
      assert s.lock.p == step.p;
    }
  }

  lemma ActorOk(files: seq<string>, s: State, step: Step)
    requires Distinct(files) && Inv(files, s) && Enabled(files, s, step)
    ensures ProcOk(files, Apply(files, s, step).db, Acted(files, s, step.p, step.act))
  {
    CommitsNext(files, s, step);
    var x := s.procs[step.p];
    assert ProcOk(files, s.db, x);
    match step.act
    case Skip => RecordedBelow(files, s.db, x.phase.i);
    case CommitNoop =>
      assert s.lock.p == step.p;
      RecordedBelow(files, s.db, x.phase.i);
    case _ =>
  }

  lemma LockOk(files: seq<string>, s: State, step: Step)
    requires Distinct(files) && Inv(files, s) && Enabled(files, s, step)
    ensures
      var t := Apply(files, s, step);
      && (forall p :: 0 <= p < |t.procs| ==> (t.procs[p].phase.HoldsLock() <==> t.lock.Held? && t.lock.p == p))
      && (t.lock.Held? ==> t.lock.p < |t.procs| && ViewOk(files, t.db, t.procs[t.lock.p].phase, t.lock.view))
  {
    CommitsNext(files, s, step);
    var x := s.procs[step.p];
    assert x.phase.HoldsLock() <==> s.lock.Held? && s.lock.p == step.p;
  }

  lemma InvStep(files: seq<string>, s: State, step: Step)
    requires Distinct(files) && Inv(files, s) && Enabled(files, s, step)
    ensures Inv(files, Apply(files, s, step))
  {
    var t := Apply(files, s, step);
    CommitsNext(files, s, step);
    ActorOk(files, s, step);
    LockOk(files, s, step);
    forall p | 0 <= p < |t.procs| ensures ProcOk(files, t.db, t.procs[p]) {
      assert ProcOk(files, s.db, s.procs[p]);
    }
  }

  lemma {:induction false} InvExec(files: seq<string>, s: State, steps: seq<Step>)
    requires Distinct(files) && Inv(files, s) && Feasible(files, s, steps)
    ensures Inv(files, Exec(files, s, steps))
    ensures s.db.schema <= Exec(files, s, steps).db.schema
    decreases |steps|
  {
    if steps == [] {
    } else {
      InvStep(files, s, steps[0]);
      CommitsNext(files, s, steps[0]);
      InvExec(files, Apply(files, s, steps[0]), steps[1..]);
    }
  }

  lemma InvReachable(files: seq<string>, s: State)
    requires Distinct(files) && Reachable(files, s)
    ensures Inv(files, s)
  {
    var s0, steps :| Initial(files, s0) && Feasible(files, s0, steps) && Exec(files, s0, steps) == s;
    InvExec(files, s0, steps);
  }

  // ---- Safety -----------------------------------------------------------------

  /** Under every interleaving and every crash the recorded versions are a prefix of the sorted list and the
      committed schema is that prefix applied in order, each version once. */
  lemma RecordedPrefix(files: seq<string>, s: State)
    requires Distinct(files) && Reachable(files, s)
    ensures |s.db.schema| <= |files| && s.db.schema == files[..|s.db.schema|]
    ensures s.db.recorded == set v | v in files[..|s.db.schema|]
    ensures Distinct(s.db.schema)
  {
    InvReachable(files, s);
  }

  /** A process that returned without an error leaves every version recorded. */
  lemma DoneMeansAll(files: seq<string>, s: State, p: nat)
    requires Distinct(files) && Reachable(files, s) && p < |s.procs| && s.procs[p].phase.Done?
    ensures s.db.schema == files && forall k :: 0 <= k < |files| ==> files[k] in s.db.recorded
  {
    InvReachable(files, s);
    assert ProcOk(files, s.db, s.procs[p]);
    assert files[..|files|] == files;
  }

  /** Skipping a version by the snapshot or by the second look never skips one that is not recorded, and a
      version is applied only when it is the next one. */
  lemma SkipsAreSound(files: seq<string>, s: State, step: Step)
    requires Distinct(files) && Reachable(files, s) && Enabled(files, s, step)
    ensures step.act.Skip? || step.act.CommitNoop? ==> s.procs[step.p].phase.i < |s.db.schema|
    ensures step.act.Execute? ==> s.procs[step.p].phase.i == |s.db.schema|
  {
    InvReachable(files, s);
    var x := s.procs[step.p];
    assert ProcOk(files, s.db, x);
    if step.act.Skip? || step.act.CommitNoop? || step.act.Execute? {
      assert x.phase.Rechecked? ==> s.lock.Held? && s.lock.p == step.p;
      RecordedBelow(files, s.db, x.phase.i);
    }
  }

  /** Committed versions are never lost, and a step other than a commit changes nothing that is committed:
      a crash or an error leaves the database as the last commit left it. */
  lemma OnlyCommitsChange(files: seq<string>, s: State, step: Step)
    requires Distinct(files) && Reachable(files, s) && Enabled(files, s, step)
    ensures
      var t := Apply(files, s, step);
      && s.db.schema <= t.db.schema
      && (!step.act.Commit? ==> t.db == s.db)
      && (step.act.Commit? ==> |s.db.schema| < |files| && t.db.schema == s.db.schema + [files[|s.db.schema|]])
  {
    InvReachable(files, s);
    CommitsNext(files, s, step);
    assert step.act.Commit? || step.act.CommitNoop? ==> s.lock.Held? && s.lock.p == step.p;
    var t := Apply(files, s, step);
    if step.act.Commit? {
      var i := |s.db.schema|;
      RecordedBelow(files, s.db, s.procs[step.p].phase.i);
      assert t.db.schema == s.db.schema + [files[s.procs[step.p].phase.i]];
      assert ProcOk(files, s.db, s.procs[step.p]);
    }
  }

  lemma {:induction false} ExecAppend(files: seq<string>, s: State, a: seq<Step>, b: seq<Step>)
    requires Feasible(files, s, a) && Feasible(files, Exec(files, s, a), b)
    ensures Feasible(files, s, a + b) && Exec(files, s, a + b) == Exec(files, Exec(files, s, a), b)
    decreases |a|
  {
    if a == [] {
      assert a + b == b;
    } else {
      ExecAppend(files, Apply(files, s, a[0]), a[1..], b);
      assert (a + b)[0] == a[0] && (a + b)[1..] == a[1..] + b;
    }
  }

  lemma ReachStep(files: seq<string>, s: State, step: Step)
    requires Reachable(files, s) && Enabled(files, s, step)
    ensures Reachable(files, Apply(files, s, step))
  {
    var s0, steps :| Initial(files, s0) && Feasible(files, s0, steps) && Exec(files, s0, steps) == s;
    var t := Apply(files, s, step);
    assert [step][1..] == [];
    assert Feasible(files, t, []) && Exec(files, t, []) == t;
    assert Feasible(files, s, [step]) && Exec(files, s, [step]) == t;
    ExecAppend(files, s0, steps, [step]);
  }

  /** The second look is needed: a process can hold the write lock for a version its snapshot lacks and that a
      peer has recorded meanwhile. */
  lemma SnapshotsGoStale(v: string) returns (s: State)
    ensures Reachable([v], s)
    ensures s.procs == [Proc(Locked(0), {}), Proc(At(1), {})] && v in s.db.recorded
  {
    s := PeerRecorded(v);
    s := Does([v], s, 0, TakeLock);
  }

  lemma PeerRecorded(v: string) returns (s: State)
    ensures Reachable([v], s)
    ensures s == State(Db([v], {v}), true, Free, [Proc(Begun(0), {}), Proc(At(1), {})])
  {
    var files := [v];
    s := BothBegun(v);
    s := Does(files, s, 1, TakeLock);
    s := Does(files, s, 1, Recheck);
    s := Does(files, s, 1, Execute);
    s := Does(files, s, 1, Record);
    s := Does(files, s, 1, Commit);
  }

  lemma BothBegun(v: string) returns (s: State)
    ensures Reachable([v], s)
    ensures s == State(Db([], {}), true, Free, [Proc(Begun(0), {}), Proc(Begun(0), {})])
  {
    var files := [v];
    s := State(Db([], {}), false, Free, [Proc(Booting, {}), Proc(Booting, {})]);
    assert Feasible(files, s, []) && Exec(files, s, []) == s && Initial(files, s);
    s := Does(files, s, 0, CreateTable);
    s := Does(files, s, 0, ReadSnapshot);
    s := Does(files, s, 0, Begin);
    s := Does(files, s, 1, CreateTable);
    s := Does(files, s, 1, ReadSnapshot);
    s := Does(files, s, 1, Begin);
  }

  lemma Does(files: seq<string>, s: State, p: nat, act: Act) returns (t: State)
    requires Reachable(files, s) && Enabled(files, s, Step(p, act))
    ensures t == Apply(files, s, Step(p, act)) && Reachable(files, t)
  {
    ReachStep(files, s, Step(p, act));
    t := Apply(files, s, Step(p, act));
  }

  // ---- The snapshot saves work ---------------------------------------------------

  /** A process that has nothing to do: it has not read its snapshot yet, or has stopped, or its snapshot holds the
      whole list. */
  predicate Idle(files: seq<string>, x: Proc) {
    || x.phase.Booting? || x.phase.Reading? || !x.phase.Live()
    || (x.phase.At? && Names(files) <= x.applied)
  }

  lemma IdleStep(files: seq<string>, s: State, step: Step, p: nat)
    requires Distinct(files) && Inv(files, s) && Enabled(files, s, step) && s.db.schema == files
    requires p < |s.procs| && Idle(files, s.procs[p])
    ensures Apply(files, s, step).db.schema == files && Idle(files, Apply(files, s, step).procs[p])
  {
    CommitsNext(files, s, step);
    assert forall k :: 0 <= k < |files| ==> files[k] in Names(files);
  }

  /** A process that starts on an up-to-date database never asks for the write lock, whatever the others do. */
  lemma {:induction false} UpToDateNeverLocks(files: seq<string>, s: State, steps: seq<Step>, p: nat)
    requires Distinct(files) && Inv(files, s) && Feasible(files, s, steps) && s.db.schema == files
    requires p < |s.procs| && Idle(files, s.procs[p])
    ensures
      var t := Exec(files, s, steps);
      p < |t.procs| && !t.procs[p].phase.Begun? && !t.procs[p].phase.HoldsLock() && t.db == s.db
    decreases |steps|
  {
    if steps == [] {
    } else {
      IdleStep(files, s, steps[0], p);
      CommitsNext(files, s, steps[0]);
      InvStep(files, s, steps[0]);
      UpToDateNeverLocks(files, Apply(files, s, steps[0]), steps[1..], p);
    }
  }

  /** A process asks for the lock only for versions its snapshot lacks. */
  lemma LocksOnlyForMissing(files: seq<string>, s: State, step: Step)
    requires Enabled(files, s, step)
    ensures
      var x, y := s.procs[step.p], Apply(files, s, step).procs[step.p];
      y.phase.Begun? ==> y.phase.i < |files| && files[y.phase.i] !in y.applied
  {
  }

  // ---- Progress ---------------------------------------------------------------

  /** A process that is still running can go on, or the lock holder it waits for can. */
  lemma NeverStuck(files: seq<string>, s: State, p: nat)
    requires Distinct(files) && Reachable(files, s) && p < |s.procs| && s.procs[p].phase.Live()
    ensures exists step: Step :: !step.act.Abort? && !step.act.Restart? && Enabled(files, s, step)
  {
    InvReachable(files, s);
    if s.lock.Held? {
      assert ProcOk(files, s.db, s.procs[s.lock.p]);
      var step := Step(s.lock.p, HolderAct(s.procs[s.lock.p].phase));
      assert Enabled(files, s, step);
    } else {
      assert ProcOk(files, s.db, s.procs[p]);
      var step := Step(p, FreeAct(files, s.procs[p]));
      assert Enabled(files, s, step);
    }
  }

  function HolderAct(phase: Phase): Act
    requires phase.HoldsLock()
  {
    match phase
    case Locked(_) => Recheck
    case Rechecked(_, already) => if already then CommitNoop else Execute
    case Executed(_) => Record
    case Recorded(_) => Commit
  }

  function FreeAct(files: seq<string>, x: Proc): Act
    requires x.phase.Live() && !x.phase.HoldsLock()
  {
    match x.phase
    case Booting => CreateTable
    case Reading => ReadSnapshot
    case At(i) => if i >= |files| then Finish else if files[i] in x.applied then Skip else Begin
    case Begun(_) => TakeLock
  }

  ghost predicate OnlyBy(steps: seq<Step>, p: nat) {
    forall k :: 0 <= k < |steps| ==> steps[k].p == p && !steps[k].act.Abort? && !steps[k].act.Restart?
  }

  /** Steps left for a process that runs alone. */
  function SoloWork(files: seq<string>, phase: Phase): nat {
    var n := |files|;
    match phase
    case Booting => 9 * n + 4
    case Reading => 9 * n + 3
    case At(i) => if i < n then 9 * (n - i) + 2 else 1
    case Begun(i) => if i < n then 9 * (n - i) + 1 else 0
    case Locked(i) => if i < n then 9 * (n - i) else 0
    case Rechecked(i, _) => if i < n then 9 * (n - i) - 1 else 0
    case Executed(i) => if i < n then 9 * (n - i) - 2 else 0
    case Recorded(i) => if i < n then 9 * (n - i) - 3 else 0
    case _ => 0
  }

  /** Whatever crashed before: once the lock is free or its own, a single process left alone brings the
      database to the full list. */
  lemma {:induction false} RunsToCompletion(files: seq<string>, s: State, p: nat) returns (steps: seq<Step>)
    requires Distinct(files) && Inv(files, s) && p < |s.procs|
    requires s.procs[p].phase.Live() || s.procs[p].phase.Done?
    requires s.lock.Held? ==> s.lock.p == p
    ensures Feasible(files, s, steps) && OnlyBy(steps, p)
    ensures p < |Exec(files, s, steps).procs| && Exec(files, s, steps).procs[p].phase.Done?
        && Exec(files, s, steps).db.schema == files
    decreases SoloWork(files, s.procs[p].phase)
  {
    var x := s.procs[p];
    assert ProcOk(files, s.db, x);
    if x.phase.Done? {
      steps := [];
      assert files[..|files|] == files;
    } else {
      var act := if x.phase.HoldsLock() then HolderAct(x.phase) else FreeAct(files, x);
      var step := Step(p, act);
      SoloEnabled(files, s, p);
      InvStep(files, s, step);
      var rest := RunsToCompletion(files, Apply(files, s, step), p);
      steps := [step] + rest;
      assert steps[1..] == rest;
    }
  }

  lemma SoloEnabled(files: seq<string>, s: State, p: nat)
    requires Distinct(files) && Inv(files, s) && p < |s.procs| && s.procs[p].phase.Live()
    requires s.lock.Held? ==> s.lock.p == p
    ensures
      var x := s.procs[p];
      var act := if x.phase.HoldsLock() then HolderAct(x.phase) else FreeAct(files, x);
      && Enabled(files, s, Step(p, act))
      && SoloWork(files, Acted(files, s, p, act).phase) < SoloWork(files, x.phase)
      && (Acted(files, s, p, act).phase.Live() || Acted(files, s, p, act).phase.Done?)
      && (LockAfter(files, s, p, act).Held? ==> LockAfter(files, s, p, act).p == p)
  {
    assert ProcOk(files, s.db, s.procs[p]);
    assert s.procs[p].phase.HoldsLock() <==> s.lock.Held? && s.lock.p == p;
  }

  /** Recovery: from every reachable state in which nobody holds the lock, a process that is started again
      and left alone records every version. */
  lemma RecoversAfterCrash(files: seq<string>, s: State, p: nat) returns (steps: seq<Step>)
    requires Distinct(files) && Reachable(files, s) && p < |s.procs| && s.lock.Free?
    requires s.procs[p].phase.Crashed? || s.procs[p].phase.Failed?
    ensures |steps| > 0 && steps[0] == Step(p, Restart) && OnlyBy(steps[1..], p)
    ensures Feasible(files, s, steps)
    ensures p < |Exec(files, s, steps).procs| && Exec(files, s, steps).procs[p].phase.Done?
        && Exec(files, s, steps).db.schema == files
  {
    InvReachable(files, s);
    var step := Step(p, Restart);
    InvStep(files, s, step);
    var rest := RunsToCompletion(files, Apply(files, s, step), p);
    steps := [step] + rest;
    assert steps[1..] == rest;
  }

  // ---- Run, uninterrupted -------------------------------------------------------

  class Database {
    var schema: seq<string>
    var recorded: set<string>

    function View(): Db
      reads this
    {
      Db(schema, recorded)
    }

    /** One transaction: apply the script and record its version, or leave everything as it was. */
    method ApplyAndRecord(name: string, broken: bool) returns (ok: bool)
      requires name !in recorded
      modifies this
      ensures ok == !broken
      ensures View() == if ok then Db(old(schema) + [name], old(recorded) + {name}) else old(View())
    {
      if broken {
        return false;
      }
      schema, recorded := schema + [name], recorded + {name};
      ok := true;
    }
  }

  /** The files whose versions are not recorded, in list order. */
  function Pending(files: seq<string>, recorded: set<string>): seq<string> {
    if files == [] then []
    else
      var n := |files| - 1;
      Pending(files[..n], recorded) + if files[n] in recorded then [] else [files[n]]
  }

  /** The position of the first script that fails, or the length of the list. */
  function FirstBroken(files: seq<string>, broken: set<string>): (r: nat)
    ensures r <= |files|
    ensures r < |files| ==> files[r] in broken
    ensures forall k :: 0 <= k < r ==> files[k] !in broken
  {
    if files == [] then 0
    else
      var n := |files| - 1;
      var r := FirstBroken(files[..n], broken);
      if r < n || files[n] in broken then r else r + 1
  }

  lemma {:induction false} PendingMembers(files: seq<string>, recorded: set<string>)
    ensures forall v :: v in Pending(files, recorded) <==> v in files && v !in recorded
    decreases |files|
  {
    if files == [] {
    } else {
      var n := |files| - 1;
      PendingMembers(files[..n], recorded);
      assert files == files[..n] + [files[n]];
    }
  }

  /** A version that is not recorded is not among the pending ones before it either. */
  lemma NotYet(files: seq<string>, i: nat, recorded: set<string>)
    requires Distinct(files) && i < |files|
    ensures files[i] !in Names(Pending(files[..i], recorded))
  {
    PendingMembers(files[..i], recorded);
  }

  lemma PendingNext(files: seq<string>, i: nat, recorded: set<string>)
    requires i < |files|
    ensures Pending(files[..i + 1], recorded)
            == Pending(files[..i], recorded) + if files[i] in recorded then [] else [files[i]]
  {
    assert files[..i + 1][..i] == files[..i];
  }

  lemma {:induction false} PendingExtends(files: seq<string>, k: nat, recorded: set<string>)
    requires k <= |files|
    ensures Pending(files[..k], recorded) <= Pending(files, recorded)
    decreases |files| - k
  {
    if k == |files| {
      assert files[..k] == files;
    } else {
      PendingNext(files, k, recorded);
      PendingExtends(files, k + 1, recorded);
    }
  }

  /** After scripts that all work, the first failing one is where the run stops, however the list goes on. */
  lemma StopsHere(files: seq<string>, i: nat, recorded: set<string>, broken: set<string>)
    requires i < |files| && files[i] !in recorded && files[i] in broken
    requires FirstBroken(Pending(files[..i], recorded), broken) == |Pending(files[..i], recorded)|
    ensures
      var done, pending := Pending(files[..i], recorded), Pending(files, recorded);
      done <= pending && FirstBroken(pending, broken) == |done| < |pending|
  {
    var done, pending := Pending(files[..i], recorded), Pending(files, recorded);
    PendingNext(files, i, recorded);
    PendingExtends(files, i + 1, recorded);
    StopsAt(done, files[i], pending, broken);
  }

  lemma StopsAt(done: seq<string>, v: string, pending: seq<string>, broken: set<string>)
    requires done + [v] <= pending && v in broken && FirstBroken(done, broken) == |done|
    ensures done <= pending && FirstBroken(pending, broken) == |done| < |pending|
  {
    assert pending[|done|] == (done + [v])[|done|];
    forall k | 0 <= k < |done| ensures pending[k] !in broken {
      assert pending[k] == (done + [v])[k] == done[k];
    }
  }

  lemma NamesNext(vs: seq<string>, v: string)
    ensures Names(vs + [v]) == Names(vs) + {v}
  {
  }

  /** What a run may leave behind: the pending versions applied and recorded in order, up to the first one that
      fails; it succeeds exactly when none fails. */
  predicate Outcome(files: seq<string>, broken: set<string>, before: Db, after: Db, ok: bool) {
    var pending := Pending(files, before.recorded);
    var n := FirstBroken(pending, broken);
    && after == Db(before.schema + pending[..n], before.recorded + Names(pending[..n]))
    && (ok <==> n == |pending|)
  }

  /** The first i files are done: those of them that were pending are applied and recorded. */
  predicate Through(files: seq<string>, broken: set<string>, before: Db, now: Db, i: nat)
    requires i <= |files|
  {
    var done := Pending(files[..i], before.recorded);
    && FirstBroken(done, broken) == |done|
    && now == Db(before.schema + done, before.recorded + Names(done))
  }

  lemma ThroughNone(files: seq<string>, broken: set<string>, db: Db)
    ensures Through(files, broken, db, db, 0)
  {
    assert Names([]) == {};
    assert db.schema + [] == db.schema;
  }

  lemma ThroughNext(files: seq<string>, broken: set<string>, before: Db, now: Db, i: nat)
    requires i < |files| && Through(files, broken, before, now, i)
    ensures files[i] in before.recorded ==> Through(files, broken, before, now, i + 1)
    ensures files[i] !in before.recorded && files[i] !in broken ==>
              Through(files, broken, before, Db(now.schema + [files[i]], now.recorded + {files[i]}), i + 1)
  {
    var done := Pending(files[..i], before.recorded);
    PendingNext(files, i, before.recorded);
    if files[i] !in before.recorded && files[i] !in broken {
      NamesNext(done, files[i]);
      WorksToo(done, files[i], broken);
      assert before.schema + (done + [files[i]]) == before.schema + done + [files[i]];
      assert before.recorded + (Names(done) + {files[i]}) == before.recorded + Names(done) + {files[i]};
    }
  }

  lemma WorksToo(done: seq<string>, v: string, broken: set<string>)
    requires FirstBroken(done, broken) == |done| && v !in broken
    ensures FirstBroken(done + [v], broken) == |done| + 1
  {
    assert (done + [v])[..|done|] == done;
  }

  lemma ThroughStops(files: seq<string>, broken: set<string>, before: Db, now: Db, i: nat)
    requires i < |files| && Through(files, broken, before, now, i) && files[i] !in before.recorded && files[i] in broken
    ensures Outcome(files, broken, before, now, false)
  {
    StopsHere(files, i, before.recorded, broken);
    var done, pending := Pending(files[..i], before.recorded), Pending(files, before.recorded);
    assert pending[..|done|] == done;
  }

  lemma ThroughAll(files: seq<string>, broken: set<string>, before: Db, now: Db)
    requires Through(files, broken, before, now, |files|)
    ensures Outcome(files, broken, before, now, true)
  {
    assert files[..|files|] == files;
    var pending := Pending(files, before.recorded);
    assert pending[..|pending|] == pending;
  }

  /** Run of a process no other process and no crash interferes with; `rows` are the recorded versions in the
      order the query returns them, `broken` the scripts that raise an error. */
  method Run(db: Database, files: seq<string>, rows: seq<string>, broken: set<string>) returns (ok: bool)
    requires Distinct(files) && Names(rows) == db.recorded
    modifies db
    ensures Outcome(files, broken, old(db.View()), db.View(), ok)
  {
    var applied: set<string> := {};
    for j := 0 to |rows|
      modifies {}
      invariant applied == Names(rows[..j])
    {
      NamesNext(rows[..j], rows[j]);
      assert rows[..j + 1] == rows[..j] + [rows[j]];
      applied := applied + {rows[j]};
    }
    assert rows[..|rows|] == rows;
    ThroughNone(files, broken, db.View());
    for i := 0 to |files|
      invariant applied == old(db.recorded)
      invariant Through(files, broken, old(db.View()), db.View(), i)
    {
      ThroughNext(files, broken, old(db.View()), db.View(), i);
      if files[i] in applied {
        continue;
      }
      NotYet(files, i, applied);
      var applies := db.ApplyAndRecord(files[i], files[i] in broken);
      if !applies {
        ThroughStops(files, broken, old(db.View()), db.View(), i);
        return false;
      }
    }
    ThroughAll(files, broken, old(db.View()), db.View());
    ok := true;
  }

  /** Of a prefix database exactly the rest of the list is pending. */
  lemma {:induction false} PendingOfPrefix(files: seq<string>, db: Db, k: nat)
    requires Distinct(files) && IsPrefix(files, db) && |db.schema| <= k <= |files|
    ensures Pending(files[..k], db.recorded) == files[|db.schema|..k]
    decreases k
  {
    if k == |db.schema| {
      PrefixNotPending(files, db);
    } else {
      PendingOfPrefix(files, db, k - 1);
      RecordedBelow(files, db, k - 1);
      PendingNext(files, k - 1, db.recorded);
      OneLonger(files, |db.schema|, k);
    }
  }

  lemma PrefixNotPending(files: seq<string>, db: Db)
    requires Distinct(files) && IsPrefix(files, db)
    ensures Pending(files[..|db.schema|], db.recorded) == []
  {
    forall j | 0 <= j < |db.schema| ensures files[..|db.schema|][j] in db.recorded {
      RecordedBelow(files, db, j);
    }
    NothingPending(files[..|db.schema|], db.recorded);
  }

  lemma OneLonger(files: seq<string>, m: nat, k: nat)
    requires m < k <= |files|
    ensures files[m..k] == files[m..k - 1] + [files[k - 1]]
  {
  }

  lemma {:induction false} NothingPending(files: seq<string>, recorded: set<string>)
    requires forall k :: 0 <= k < |files| ==> files[k] in recorded
    ensures Pending(files, recorded) == []
    decreases |files|
  {
    if files == [] {
    } else {
      NothingPending(files[..|files| - 1], recorded);
    }
  }

  /** An undisturbed run on a database with a recorded prefix leaves a longer recorded prefix, and the whole list
      exactly when no script after the prefix fails. */
  lemma RunFromPrefix(files: seq<string>, broken: set<string>, before: Db, after: Db, ok: bool)
    requires Distinct(files) && IsPrefix(files, before) && Outcome(files, broken, before, after, ok)
    ensures IsPrefix(files, after) && before.schema <= after.schema
    ensures ok <==> after.schema == files
    ensures ok <==> forall k :: |before.schema| <= k < |files| ==> files[k] !in broken
  {
    var m := |before.schema|;
    PendingOfPrefix(files, before, |files|);
    assert files[..|files|] == files;
    var n := LeavesPrefix(files, m, broken, after, ok);
    PrefixDb(files, m + n);
    NoneBroken(files, m, broken);
  }

  lemma LeavesPrefix(files: seq<string>, m: nat, broken: set<string>, after: Db, ok: bool) returns (n: nat)
    requires m <= |files| && Pending(files, Names(files[..m])) == files[m..]
    requires Outcome(files, broken, Db(files[..m], Names(files[..m])), after, ok)
    ensures m + n <= |files| && n == FirstBroken(files[m..], broken)
    ensures after == Db(files[..m + n], Names(files[..m + n])) && files[..m] <= after.schema
    ensures ok <==> n == |files| - m
  {
    n := FirstBroken(files[m..], broken);
    PrefixGrows(files, m, n);
  }

  lemma PrefixDb(files: seq<string>, m: nat)
    requires m <= |files|
    ensures IsPrefix(files, Db(files[..m], Names(files[..m])))
    ensures files[..m] == files <==> m == |files|
  {
  }

  lemma NoneBroken(files: seq<string>, m: nat, broken: set<string>)
    requires m <= |files|
    ensures FirstBroken(files[m..], broken) == |files| - m <==> forall k :: m <= k < |files| ==> files[k] !in broken
  {
    var pending := files[m..];
    var n := FirstBroken(pending, broken);
    assert n < |pending| ==> pending[n] == files[m + n];
    assert forall k :: m <= k < |files| ==> files[k] == pending[k - m];
  }

  lemma PrefixGrows(files: seq<string>, m: nat, n: nat)
    requires m + n <= |files|
    ensures files[..m] + files[m..][..n] == files[..m + n]
    ensures Names(files[..m]) + Names(files[m..][..n]) == Names(files[..m + n])
  {
    assert files[..m] + files[m..][..n] == files[..m + n];
    assert forall v :: v in files[..m + n] <==> v in files[..m] || v in files[m..][..n];
  }
}
