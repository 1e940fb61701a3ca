/** Theorems over whole runs of the scan loop: cadence, pruning and event replay. */
module AgentRuns {
  import opened Store
  import opened Options
  import opened Config
  import opened Agent
  import opened Health

  /** The loop after a sequence of cycles. */
  function After(cfg: Settings, st: Loop, ins: seq<Input>): Loop {
    if ins == [] then st else Cycle(cfg, After(cfg, st, ins[..|ins| - 1]), ins[|ins| - 1])
  }

  // ---- Cadence ------------------------------------------------------------------

  /** Cycle k scans profile p. */
  predicate Scans(cfg: Settings, st: Loop, ins: seq<Input>, k: nat, p: Resolved)
    requires k < |ins|
  {
    p in cfg.profiles && IsDue(p, After(cfg, st, ins[..k]).due, ins[k].started, ins[k].force)
  }

  /** The start of the latest cycle that scanned p without an error. */
  function LastScan(cfg: Settings, st: Loop, ins: seq<Input>, p: Resolved): Option<int> {
    if ins == [] then None
    else
      var n := |ins| - 1;
      if Scans(cfg, st, ins, n, p) && ins[n].scan(p.subnet).Scanned? then Some(ins[n].started)
      else LastScan(cfg, st, ins[..n], p)
  }

  /** A sweep moves the due time of exactly the profiles it scans without an error. */
  lemma {:induction false} SweepDue(ps: seq<Resolved>, input: Input, acc: Sweep, p: Resolved)
    requires UniqueSubnets(ps) && forall q :: q in ps && q.subnet == p.subnet ==> q == p
    ensures
      var due := SweepAll(ps, input, acc).due;
      if p in ps && input.scan(p.subnet).Scanned?
      then p.subnet in due && due[p.subnet] == input.started + p.scanInterval
      else (p.subnet in due <==> p.subnet in acc.due) && (p.subnet in due ==> due[p.subnet] == acc.due[p.subnet])
    decreases |ps|
  {
    if ps == [] {
    } else {
      UniqueFront(ps);
      SweepDue(ps[..|ps| - 1], input, acc, p);
    }
  }

  lemma UniqueFront(ps: seq<Resolved>)
    requires UniqueSubnets(ps) && ps != []
    ensures
      var n := |ps| - 1;
      && UniqueSubnets(ps[..n])
      && (forall q :: q in ps <==> q in ps[..n] || q == ps[n])
      && (forall q :: q in ps[..n] ==> q.subnet != ps[n].subnet)
  {
    var n := |ps| - 1;
    assert ps == ps[..n] + [ps[n]];
  }

  lemma {:induction false} DueKeepsUnique(ps: seq<Resolved>, due: Due, started: int, force: bool)
    requires UniqueSubnets(ps)
    ensures UniqueSubnets(DueProfiles(ps, due, started, force))
    decreases |ps|
  {
    if ps == [] {
    } else {
      var n := |ps| - 1;
      DueKeepsUnique(ps[..n], due, started, force);
      var r := DueProfiles(ps[..n], due, started, force);
      forall k | 0 <= k < |r| ensures r[k].subnet != ps[n].subnet {
        assert r[k] in ps[..n];
      }
    }
  }

  /** What one cycle does to the due time of a profile. */
  lemma CycleDue(cfg: Settings, st: Loop, input: Input, p: Resolved)
    requires UniqueSubnets(cfg.profiles) && p in cfg.profiles
    ensures
      var due := Cycle(cfg, st, input).due;
      if IsDue(p, st.due, input.started, input.force) && input.scan(p.subnet).Scanned?
      then p.subnet in due && due[p.subnet] == input.started + p.scanInterval
      else (p.subnet in due <==> p.subnet in st.due) && (p.subnet in due ==> due[p.subnet] == st.due[p.subnet])
  {
    var ps := DueProfiles(cfg.profiles, st.due, input.started, input.force);
    DueKeepsUnique(cfg.profiles, st.due, input.started, input.force);
    SweepDue(ps, input, Sweep(st.due, st.db, 0, true), p);
  }

  /** The scheduler's map holds, for every profile scanned so far, the start of its latest successful scan plus
      its interval; a failed scan leaves it as it was. */
  lemma {:induction false} DueTimes(cfg: Settings, st: Loop, ins: seq<Input>, p: Resolved)
    requires UniqueSubnets(cfg.profiles) && p in cfg.profiles && st.due == map[]
    ensures
      var due, last := After(cfg, st, ins).due, LastScan(cfg, st, ins, p);
      && (p.subnet in due <==> last.Some?)
      && (last.Some? ==> due[p.subnet] == last.value + p.scanInterval)
    decreases |ins|
  {
    if ins == [] {
    } else {
      var n := |ins| - 1;
      DueTimes(cfg, st, ins[..n], p);
      CycleDue(cfg, After(cfg, st, ins[..n]), ins[n], p);
    }
  }

  /** The cadence, both ways: cycle k scans a profile exactly when it is forced, the profile has never been
      scanned without an error, or the cycle starts an interval or more after the start of its latest
      successful scan. */
  lemma CadenceExactly(cfg: Settings, st: Loop, ins: seq<Input>, k: nat, p: Resolved)
    requires UniqueSubnets(cfg.profiles) && p in cfg.profiles && st.due == map[] && k < |ins|
    ensures
      var last := LastScan(cfg, st, ins[..k], p);
      Scans(cfg, st, ins, k, p) <==> ins[k].force || last.None? || ins[k].started >= last.value + p.scanInterval
  {
    DueTimes(cfg, st, ins[..k], p);
  }

  /** Unique subnets are needed: when two profiles share a subnet, the cycle one interval after the first one's
      scan does not scan it. */
  lemma SharedSubnetBreaksCadence(p: Resolved, q: Resolved, input: Input, next: Input)
    requires p.subnet == q.subnet && 0 < p.scanInterval < q.scanInterval
    requires input.force && input.scan(p.subnet).Scanned? && !next.force
        && next.started == input.started + p.scanInterval
    ensures
      var cfg, st := Settings([p, q], 0), Loop(map[], EMPTY);
      && Scans(cfg, st, [input, next], 0, p)
      && !Scans(cfg, st, [input, next], 1, p)
  {
    var cfg, st := Settings([p, q], 0), Loop(map[], EMPTY);
    BothDue(p, q, input.started);
    SweepBoth(p, q, input, Sweep(map[], EMPTY, 0, true));
    AfterTwo(cfg, st, input, next);
    assert [input, next][..0] == [];
  }

  lemma BothDue(p: Resolved, q: Resolved, started: int)
    ensures DueProfiles([p, q], map[], started, true) == [p, q]
  {
    assert [p, q][..1] == [p] && [p][..0] == [];
    assert DueProfiles([p], map[], started, true) == [p];
  }

  lemma SweepBoth(p: Resolved, q: Resolved, input: Input, acc: Sweep)
    ensures SweepAll([p, q], input, acc) == SweepOne(q, input, SweepOne(p, input, acc))
  {
    assert [p, q][..1] == [p] && [p][..0] == [];
    assert SweepAll([p], input, acc) == SweepOne(p, input, acc);
  }

  lemma LastScanNext(cfg: Settings, st: Loop, ins: seq<Input>, n: nat, p: Resolved)
    requires n < |ins|
    ensures LastScan(cfg, st, ins[..n + 1], p)
            == if Scans(cfg, st, ins, n, p) && ins[n].scan(p.subnet).Scanned? then Some(ins[n].started)
               else LastScan(cfg, st, ins[..n], p)
  {
    assert ins[..n + 1][..n] == ins[..n];
  }

  predicate Passes(cfg: Settings, st: Loop, ins: seq<Input>, i: nat, p: Resolved) {
    i < |ins| && !Scans(cfg, st, ins, i, p)
  }

  lemma {:induction false} LastScanIs(cfg: Settings, st: Loop, ins: seq<Input>, j: nat, m: nat, p: Resolved)
    requires j < m <= |ins| && Scans(cfg, st, ins, j, p) && ins[j].scan(p.subnet).Scanned?
    requires forall i: nat :: j < i < m ==> Passes(cfg, st, ins, i, p)
    ensures LastScan(cfg, st, ins[..m], p) == Some(ins[j].started)
    decreases m
  {
    var n := m - 1;
    LastScanNext(cfg, st, ins, n, p);
    if n == j {
    } else {
      assert Passes(cfg, st, ins, n, p);
      LastScanIs(cfg, st, ins, j, n, p);
    }
  }

  /** If cycles start at most d apart and the scan did not fail, the next scan of the profile starts less than
      its interval plus d later. */
  lemma ScanGap(cfg: Settings, st: Loop, ins: seq<Input>, j: nat, k: nat, p: Resolved, d: int)
    requires UniqueSubnets(cfg.profiles) && p in cfg.profiles && st.due == map[] && p.scanInterval > 0
    requires j < k < |ins| && Scans(cfg, st, ins, j, p) && ins[j].scan(p.subnet).Scanned?
    requires forall i :: j < i < k ==> !Scans(cfg, st, ins, i, p)
    requires ins[k].started - ins[k - 1].started <= d
    ensures ins[k].started < ins[j].started + p.scanInterval + d
  {
    if k - 1 > j {
      assert forall i: nat :: j < i < k - 1 ==> Passes(cfg, st, ins, i, p);
      LastScanIs(cfg, st, ins, j, k - 1, p);
      CadenceExactly(cfg, st, ins, k - 1, p);
    }
  }

  // ---- What the tracker shows ------------------------------------------------------

  lemma {:induction false} SweepHealthy(ps: seq<Resolved>, input: Input, acc: Sweep)
    ensures SweepAll(ps, input, acc).healthy <==> acc.healthy && forall p :: p in ps ==> input.scan(p.subnet).Scanned?
    decreases |ps|
  {
    if ps == [] {
    } else {
      var n := |ps| - 1;
      assert ps == ps[..n] + [ps[n]];
      SweepHealthy(ps[..n], input, acc);
    }
  }

  /** A cycle is healthy exactly when no scan it ran failed; a profile that was not due does not matter. */
  lemma HealthyExactly(cfg: Settings, st: Loop, input: Input)
    ensures Swept(cfg, st, input).healthy
            <==> forall p :: p in cfg.profiles && IsDue(p, st.due, input.started, input.force) ==>
                input.scan(p.subnet).Scanned?
  {
    SweepHealthy(DueProfiles(cfg.profiles, st.due, input.started, input.force), input, Sweep(st.due, st.db, 0, true));
  }

  /** The hosts the scans of these profiles report, failed scans counting none. */
  function FoundBy(ps: seq<Resolved>, input: Input): nat {
    if ps == [] then 0
    else
      var r := input.scan(ps[0].subnet);
      (if r.Scanned? then r.found else 0) + FoundBy(ps[1..], input)
  }

  lemma {:induction false} FoundByLast(ps: seq<Resolved>, input: Input)
    requires ps != []
    ensures
      var n := |ps| - 1;
      var r := input.scan(ps[n].subnet);
      FoundBy(ps, input) == FoundBy(ps[..n], input) + if r.Scanned? then r.found else 0
    decreases |ps|
  {
    var n := |ps| - 1;
    if n == 0 {
      assert ps[1..] == [] && ps[..0] == [];
    } else {
      FoundByLast(ps[1..], input);
      assert ps[..n][1..] == ps[1..][..n - 1];
    }
  }

  /** The total of a cycle is the sum over its due profiles. */
  lemma {:induction false} SweepFound(ps: seq<Resolved>, input: Input, acc: Sweep)
    ensures SweepAll(ps, input, acc).found == acc.found + FoundBy(ps, input)
    decreases |ps|
  {
    if ps == [] {
    } else {
      FoundByLast(ps, input);
      SweepFound(ps[..|ps| - 1], input, acc);
    }
  }

  /** The host count a cycle reports: the size of the inventory, or, when it cannot be counted, what the due scans
      found; then the cycle is reported unhealthy. */
  lemma ReportedCount(cfg: Settings, st: Loop, input: Input, status: Status)
    ensures
      var s := Reported(cfg, st, input, status);
      var due := DueProfiles(cfg.profiles, st.due, input.started, input.force);
      && (input.countOk ==> s.hostCount == |Cycle(cfg, st, input).db.hosts|)
      && (!input.countOk ==> s.hostCount == FoundBy(due, input) && !s.healthy)
      && s.peer == status.peer && s.startedAt == status.startedAt
  {
    var due := DueProfiles(cfg.profiles, st.due, input.started, input.force);
    SweepFound(due, input, Sweep(st.due, st.db, 0, true));
  }

  /** The status after a sequence of cycles. */
  function StatusAfter(cfg: Settings, st: Loop, ins: seq<Input>, status: Status): Status {
    if ins == [] then status
    else
      var n := |ins| - 1;
      Reported(cfg, After(cfg, st, ins[..n]), ins[n], StatusAfter(cfg, st, ins[..n], status))
  }

  lemma {:induction false} ScansCounted(cfg: Settings, st: Loop, ins: seq<Input>, status: Status)
    ensures StatusAfter(cfg, st, ins, status).scanCount == status.scanCount + |ins|
    decreases |ins|
  {
    if ins == [] {
    } else {
      ScansCounted(cfg, st, ins[..|ins| - 1], status);
    }
  }

  /** After any run the tracker shows one scan a cycle, the end of the last cycle and its health; when its count
      query worked, also the size of the inventory.  So the agent's own /health answers 200 exactly while the last
      cycle had no failed scan and no failed count and ended at most the freshness limit ago. */
  lemma StatusAfterRun(cfg: Settings, st: Loop, ins: seq<Input>, status: Status, limit: int, now: int)
    requires ins != [] && limit > 0
    ensures
      var n := |ins| - 1;
      var s, before := StatusAfter(cfg, st, ins, status), After(cfg, st, ins[..n]);
      var clean := forall p :: p in cfg.profiles && IsDue(p, before.due, ins[n].started, ins[n].force) ==>
          ins[n].scan(p.subnet).Scanned?;
      && s.scanCount == status.scanCount + |ins|
      && s.lastScanAt == Some(ins[n].recordedAt)
      && (ins[n].countOk ==> s.hostCount == |After(cfg, st, ins).db.hosts|)
      && (AnswersOk(s, limit, now) <==> clean && ins[n].countOk && now - ins[n].recordedAt <= limit)
  {
    ScansCounted(cfg, st, ins, status);
    HealthyExactly(cfg, After(cfg, st, ins[..|ins| - 1]), ins[|ins| - 1]);
  }

  // ---- Keys of the host table -----------------------------------------------------

  predicate Keyed(db: Db) {
    HostKeys(db.hosts) && forall h :: h in db.hosts ==> h.id <= db.highHost
  }

  lemma KeyedDo(db: Db, op: Op)
    requires Keyed(db)
    ensures Keyed(Do(db, op))
  {
    match op
    case PutHost(ip, _, _, _) =>
      var e := Do(db, op);
      forall i, j | 0 <= i < j < |e.hosts| ensures e.hosts[i].id != e.hosts[j].id && e.hosts[i].ip != e.hosts[j].ip {
        if j == |db.hosts| {
          assert db.hosts[i] in db.hosts;
        }
      }
      forall h | h in e.hosts ensures h.id <= e.highHost {
        var k := HostAt(db.hosts, ip);
        if k < |db.hosts| && h == e.hosts[k] {
          assert db.hosts[k] in db.hosts;
        }
      }
    case DropHost(id, _) => WithoutKeepsKeys(db.hosts, id);
    case _ =>
  }

  lemma {:induction false} KeyedDoAll(db: Db, ops: seq<Op>)
    requires Keyed(db)
    ensures Keyed(DoAll(db, ops))
    decreases |ops|
  {
    if ops == [] {
    } else {
      KeyedDo(db, ops[0]);
      KeyedDoAll(Do(db, ops[0]), ops[1..]);
    }
  }

  lemma {:induction false} KeyedSweep(ps: seq<Resolved>, input: Input, acc: Sweep)
    requires Keyed(acc.db)
    ensures Keyed(SweepAll(ps, input, acc).db)
    decreases |ps|
  {
    if ps == [] {
    } else {
      var n := |ps| - 1;
      KeyedSweep(ps[..n], input, acc);
      var s := SweepAll(ps[..n], input, acc);
      if input.scan(ps[n].subnet).Scanned? {
        KeyedDoAll(s.db, input.scan(ps[n].subnet).ops);
      }
    }
  }

  // ---- Pruning ----------------------------------------------------------------------

  /** Some row of the listing makes the loop delete this id. */
  predicate Condemned(rows: seq<Host>, id: int, cutoff: int, undeletable: set<int>) {
    id !in undeletable && exists g :: g in rows && g.id == id && Stale(g, cutoff)
  }

  lemma {:induction false} PruneRowsMembers(db: Db, rows: seq<Host>, cutoff: int, undeletable: set<int>)
    ensures
      var e := PruneRows(db, rows, cutoff, undeletable);
      && (forall h: Host :: h in e.hosts <==> h in db.hosts && !Condemned(rows, h.id, cutoff, undeletable))
      && (forall p: Port :: p in e.ports <==> p in db.ports && !Condemned(rows, p.host, cutoff, undeletable))
    decreases |rows|
  {
    if rows == [] {
    } else {
      var n := |rows| - 1;
      PruneRowsMembers(db, rows[..n], cutoff, undeletable);
      assert rows == rows[..n] + [rows[n]];
      forall id ensures Condemned(rows, id, cutoff, undeletable)
                        <==> || Condemned(rows[..n], id, cutoff, undeletable)
                             || (rows[n].id == id && Stale(rows[n], cutoff) && id !in undeletable) {
        if rows[n].id == id && Stale(rows[n], cutoff) {
          assert rows[n] in rows;
        }
      }
    }
  }

  /** pruneStale leaves exactly the hosts last seen at or after the cutoff, and those whose delete failed; a port
      stays exactly when its host was not removed. */
  lemma PruneExact(db: Db, ttl: int, input: Input)
    requires Keyed(db) && ttl > 0 && input.pruneListOk
    ensures
      var e, cutoff := Prune(db, ttl, input), input.started - ttl;
      && (forall h: Host :: h in e.hosts <==> h in db.hosts && (h.lastSeen >= cutoff || h.id in input.undeletable))
      && (forall p: Port :: p in e.ports <==>
            && p in db.ports
            && !exists g :: g in db.hosts && g.id == p.host && g.lastSeen < cutoff && g.id !in input.undeletable)
  {
    var cutoff := input.started - ttl;
    PruneRowsMembers(db, db.hosts, cutoff, input.undeletable);
    forall h: Host | h in db.hosts
      ensures Condemned(db.hosts, h.id, cutoff, input.undeletable)
          <==> h.lastSeen < cutoff && h.id !in input.undeletable
    {
      OwnRowDecides(db, h, cutoff, input.undeletable);
    }
    forall p: Port
      ensures Condemned(db.hosts, p.host, cutoff, input.undeletable)
              <==> exists g :: g in db.hosts && g.id == p.host && g.lastSeen < cutoff && g.id !in input.undeletable
    {
    }
  }

  lemma OwnRowDecides(db: Db, h: Host, cutoff: int, undeletable: set<int>)
    requires Keyed(db) && h in db.hosts
    ensures Condemned(db.hosts, h.id, cutoff, undeletable) <==> h.lastSeen < cutoff && h.id !in undeletable
  {
    if Condemned(db.hosts, h.id, cutoff, undeletable) {
      var g :| g in db.hosts && g.id == h.id && Stale(g, cutoff);
      assert g == h;
    } else if h.lastSeen < cutoff {
      assert Stale(h, cutoff);
    }
  }

  lemma {:induction false} KeyedPruneRows(db: Db, rows: seq<Host>, cutoff: int, undeletable: set<int>)
    requires Keyed(db)
    ensures Keyed(PruneRows(db, rows, cutoff, undeletable))
    decreases |rows|
  {
    if rows == [] {
    } else {
      var n := |rows| - 1;
      KeyedPruneRows(db, rows[..n], cutoff, undeletable);
      WithoutKeepsKeys(PruneRows(db, rows[..n], cutoff, undeletable).hosts, rows[n].id);
    }
  }

  lemma KeyedCycle(cfg: Settings, st: Loop, input: Input)
    requires Keyed(st.db)
    ensures Keyed(Swept(cfg, st, input).db) && Keyed(Cycle(cfg, st, input).db)
  {
    KeyedSweep(DueProfiles(cfg.profiles, st.due, input.started, input.force), input, Sweep(st.due, st.db, 0, true));
    var db := Swept(cfg, st, input).db;
    KeyedPruneRows(db, db.hosts, input.started - cfg.hostTtl, input.undeletable);
  }

  // ---- No live host is pruned ---------------------------------------------------------

  /** A scan only upserts, at moments not before the start of its cycle. */
  predicate Upserts(ops: seq<Op>, started: int) {
    forall op :: op in ops ==> (op.PutHost? || op.PutPort?) && op.now >= started
  }

  predicate Finds(ops: seq<Op>, ip: string) {
    exists op :: op in ops && op.PutHost? && op.ip == ip
  }

  /** Every scan of p succeeds and upserts the host at ip. */
  ghost predicate Live(input: Input, p: Resolved, ip: string) {
    && (forall s :: input.scan(s).Scanned? ==> Upserts(input.scan(s).ops, input.started))
    && input.scan(p.subnet).Scanned? && Finds(input.scan(p.subnet).ops, ip)
  }

  /** The host at ip is in the table and was seen after this moment. */
  predicate SeenSince(db: Db, ip: string, after: int) {
    exists h :: h in db.hosts && h.ip == ip && h.lastSeen > after
  }

  lemma UpsertSeen(db: Db, op: Op, ip: string, after: int)
    requires Keyed(db) && (op.PutHost? || op.PutPort?) && op.now - SECOND >= after
    ensures SeenSince(db, ip, after) ==> SeenSince(Do(db, op), ip, after)
    ensures op.PutHost? && op.ip == ip ==> SeenSince(Do(db, op), ip, after)
  {
    if op.PutHost? {
      UpsertHostMeaning(db, op.ip, op.facts, op.now, op.gap);
      if op.ip == ip {
        var h :| h in Do(db, op).hosts && h.ip == ip;
      } else if SeenSince(db, ip, after) {
        var h :| h in db.hosts && h.ip == ip && h.lastSeen > after;
        assert h in Do(db, op).hosts;
      }
    }
  }

  lemma {:induction false} UpsertsSeen(db: Db, ops: seq<Op>, ip: string, started: int, after: int)
    requires Keyed(db) && Upserts(ops, started) && started - SECOND >= after
    ensures SeenSince(db, ip, after) || Finds(ops, ip) ==> SeenSince(DoAll(db, ops), ip, after)
    decreases |ops|
  {
    if ops == [] {
    } else {
      assert ops[0] in ops;
      UpsertSeen(db, ops[0], ip, after);
      KeyedDo(db, ops[0]);
      assert Upserts(ops[1..], started);
      assert Finds(ops, ip) ==> (ops[0].PutHost? && ops[0].ip == ip) || Finds(ops[1..], ip) by {
        assert ops == [ops[0]] + ops[1..];
      }
      UpsertsSeen(Do(db, ops[0]), ops[1..], ip, started, after);
    }
  }

  lemma {:induction false} SweepSeen(ps: seq<Resolved>, input: Input, acc: Sweep, p: Resolved, ip: string, after: int)
    requires Keyed(acc.db) && Live(input, p, ip) && input.started - SECOND >= after
    ensures SeenSince(acc.db, ip, after) || p in ps ==> SeenSince(SweepAll(ps, input, acc).db, ip, after)
    decreases |ps|
  {
    if ps == [] {
    } else {
      var n := |ps| - 1;
      SweepSeen(ps[..n], input, acc, p, ip, after);
      KeyedSweep(ps[..n], input, acc);
      assert ps == ps[..n] + [ps[n]];
      var r := input.scan(ps[n].subnet);
      if r.Scanned? {
        UpsertsSeen(SweepAll(ps[..n], input, acc).db, r.ops, ip, input.started, after);
      }
    }
  }

  /** The time to live covers a scan interval and the second the store truncates. */
  predicate Covers(ttl: int, interval: int) {
    ttl <= 0 || (ttl >= interval + SECOND - 2 && ttl >= SECOND - 1)
  }

  /** A cycle prunes whether or not its scans succeeded: with a time to live and a working listing it leaves exactly the
      hosts the scans left that were last seen at or after the cutoff, or whose delete failed, and exactly the ports of
      hosts it did not remove; otherwise it removes nothing. */
  lemma CyclePrunes(cfg: Settings, st: Loop, input: Input)
    requires Keyed(st.db)
    ensures
      var left, after, cutoff := Swept(cfg, st, input).db, Cycle(cfg, st, input).db, input.started - cfg.hostTtl;
      if cfg.hostTtl > 0 && input.pruneListOk then
        && (forall h: Host :: h in after.hosts
              <==> h in left.hosts && (h.lastSeen >= cutoff || h.id in input.undeletable))
        && (forall p: Port :: p in after.ports
              <==> && p in left.ports
                   && !exists g ::
                        g in left.hosts && g.id == p.host && g.lastSeen < cutoff && g.id !in input.undeletable)
      else after == left
  {
    KeyedCycle(cfg, st, input);
    if cfg.hostTtl > 0 && input.pruneListOk {
      PruneExact(Swept(cfg, st, input).db, cfg.hostTtl, input);
    }
  }

  /** So after any run no host is older than the time to live before the start of its last cycle, unless that cycle's
      prune could not list or delete it. */
  lemma NoStaleHostLeft(cfg: Settings, st: Loop, ins: seq<Input>, h: Host)
    requires Keyed(st.db) && ins != [] && cfg.hostTtl > 0 && ins[|ins| - 1].pruneListOk
    requires h in After(cfg, st, ins).db.hosts
    ensures h.lastSeen >= ins[|ins| - 1].started - cfg.hostTtl || h.id in ins[|ins| - 1].undeletable
  {
    var n := |ins| - 1;
    KeyedRun(cfg, st, ins[..n]);
    CyclePrunes(cfg, After(cfg, st, ins[..n]), ins[n]);
  }

  lemma {:induction false} KeyedRun(cfg: Settings, st: Loop, ins: seq<Input>)
    requires Keyed(st.db)
    ensures Keyed(After(cfg, st, ins).db)
    decreases |ins|
  {
    if ins == [] {
    } else {
      var n := |ins| - 1;
      KeyedRun(cfg, st, ins[..n]);
      KeyedCycle(cfg, After(cfg, st, ins[..n]), ins[n]);
    }
  }

  /** The statements of a cycle's scans, one scan after the other. */
  function ScanOps(ps: seq<Resolved>, input: Input): seq<Op> {
    if ps == [] then []
    else
      var r := input.scan(ps[|ps| - 1].subnet);
      ScanOps(ps[..|ps| - 1], input) + if r.Scanned? then r.ops else []
  }

  lemma {:induction false} DoAllAppend(db: Db, a: seq<Op>, b: seq<Op>)
    ensures DoAll(db, a + b) == DoAll(DoAll(db, a), b)
    decreases |a|
  {
    if a == [] {
      assert a + b == b;
    } else {
      assert (a + b)[0] == a[0] && (a + b)[1..] == a[1..] + b;
      DoAllAppend(Do(db, a[0]), a[1..], b);
    }
  }

  /** The scans of a cycle leave the store as their statements do, those of the due profiles in configured order and
      nothing else: so what holds of every history of the store holds of every cycle. */
  lemma {:induction false} SweepIsHistory(ps: seq<Resolved>, input: Input, acc: Sweep)
    ensures SweepAll(ps, input, acc).db == DoAll(acc.db, ScanOps(ps, input))
    decreases |ps|
  {
    if ps == [] {
    } else {
      var n := |ps| - 1;
      SweepIsHistory(ps[..n], input, acc);
      var r := input.scan(ps[n].subnet);
      DoAllAppend(acc.db, ScanOps(ps[..n], input), if r.Scanned? then r.ops else []);
    }
  }

  /** One cycle keeps a live host: `last` is the start of the latest cycle that scanned its profile. */
  lemma CycleKeepsLive(cfg: Settings, st: Loop, input: Input, p: Resolved, ip: string, last: int) returns (last': int)
    requires UniqueSubnets(cfg.profiles) && p in cfg.profiles && Covers(cfg.hostTtl, p.scanInterval)
    requires Keyed(st.db) && Live(input, p, ip)
    requires input.force
        || (p.subnet in st.due && st.due[p.subnet] == last + p.scanInterval && SeenSince(st.db, ip, last - SECOND))
    requires !input.force ==> last <= input.started
    ensures last' <= input.started
    ensures
      var t := Cycle(cfg, st, input);
      && p.subnet in t.due && t.due[p.subnet] == last' + p.scanInterval
      && SeenSince(t.db, ip, last' - SECOND)
  {
    var due := IsDue(p, st.due, input.started, input.force);
    last' := if due then input.started else last;
    var ps := DueProfiles(cfg.profiles, st.due, input.started, input.force);
    CycleDue(cfg, st, input, p);
    SweepSeen(ps, input, Sweep(st.due, st.db, 0, true), p, ip, last' - SECOND);
    KeyedCycle(cfg, st, input);
    var db := Swept(cfg, st, input).db;
    var h :| h in db.hosts && h.ip == ip && h.lastSeen > last' - SECOND;
    if cfg.hostTtl > 0 && input.pruneListOk {
      PruneExact(db, cfg.hostTtl, input);
      assert h.lastSeen >= input.started - cfg.hostTtl;
    }
    assert h in Cycle(cfg, st, input).db.hosts;
  }

  ghost predicate LiveRun(ins: seq<Input>, p: Resolved, ip: string) {
    && (ins != [] ==> ins[0].force)
    && (forall k :: 0 <= k < |ins| ==> Live(ins[k], p, ip))
    && (forall j, k :: 0 <= j < k < |ins| ==> ins[j].started <= ins[k].started)
  }

  lemma {:induction false} LiveHostSeen(cfg: Settings, st: Loop, ins: seq<Input>, p: Resolved, ip: string)
      returns (last: int)
    requires UniqueSubnets(cfg.profiles) && p in cfg.profiles && Covers(cfg.hostTtl, p.scanInterval)
    requires Keyed(st.db) && ins != [] && LiveRun(ins, p, ip)
    ensures last <= ins[|ins| - 1].started
    ensures
      var t := After(cfg, st, ins);
      Keyed(t.db) && p.subnet in t.due && t.due[p.subnet] == last + p.scanInterval && SeenSince(t.db, ip, last - SECOND)
    decreases |ins|
  {
    var n := |ins| - 1;
    var front := ins[..n];
    if n == 0 {
      last := CycleKeepsLive(cfg, st, ins[0], p, ip, 0);
      KeyedCycle(cfg, st, ins[0]);
      assert After(cfg, st, front) == st;
    } else {
      assert LiveRun(front, p, ip);
      var before := LiveHostSeen(cfg, st, front, p, ip);
      last := CycleKeepsLive(cfg, After(cfg, st, front), ins[n], p, ip, before);
      KeyedCycle(cfg, After(cfg, st, front), ins[n]);
    }
  }

  /** No live host is ever pruned: with a time to live of at least the interval plus a second, less two
      nanoseconds, a host upserted by every scan of its profile is in the store after every cycle of every run,
      whatever the tick jitter, the forced cycles, the other profiles and the store errors of the prune. */
  lemma LiveHostSurvives(cfg: Settings, st: Loop, ins: seq<Input>, p: Resolved, ip: string, k: nat)
    requires UniqueSubnets(cfg.profiles) && p in cfg.profiles && Covers(cfg.hostTtl, p.scanInterval)
    requires Keyed(st.db) && LiveRun(ins, p, ip) && 0 < k <= |ins|
    ensures ip in Ips(After(cfg, st, ins[..k]).db)
  {
    assert LiveRun(ins[..k], p, ip);
    var last := LiveHostSeen(cfg, st, ins[..k], p, ip);
  }

  /** No scan, listing, delete or count of the run fails. */
  ghost predicate FailureFree(ins: seq<Input>) {
    forall k :: 0 <= k < |ins| ==>
      && ins[k].snapshotOk && ins[k].pruneListOk && ins[k].undeletable == {} && ins[k].diffOk && ins[k].countOk
      && forall s :: ins[k].scan(s).Scanned?
  }

  /** The bound is exact: for any shorter positive time to live a live host is in the store after one cycle and pruned
      by the next.  The run is free of failures unless the time to live is under a second less a nanosecond; then the
      first prune has to fail to leave the host there at all. */
  lemma ShorterTtlPrunes(p: Resolved, ttl: int, ip: string) returns (ins: seq<Input>)
    requires p.scanInterval >= 1 && ttl > 0 && !Covers(ttl, p.scanInterval)
    ensures LiveRun(ins, p, ip) && |ins| == 2 && (ttl >= SECOND - 1 ==> FailureFree(ins))
    ensures
      var cfg, st := Settings([p], ttl), Loop(map[], EMPTY);
      ip in Ips(After(cfg, st, ins[..1]).db) && ip !in Ips(After(cfg, st, ins).db)
  {
    var cfg, st := Settings([p], ttl), Loop(map[], EMPTY);
    var in0 := Sighting(ip, SECOND - 1, true, ttl >= SECOND - 1);
    var in1 := Sighting(ip, SECOND + p.scanInterval - 2, false, true);
    ins := [in0, in1];
    SightingLive(ip, in0.started, true, ttl >= SECOND - 1, p);
    SightingLive(ip, in1.started, false, true, p);
    AfterTwo(cfg, st, in0, in1);
    FirstCycle(cfg, p, in0, ip, Facts("", "", "", "", ""));
    PrunedNext(cfg, p, Cycle(cfg, st, in0), in1, Host(1, ip, Facts("", "", "", "", ""), 0, 0));
  }

  lemma AfterTwo(cfg: Settings, st: Loop, a: Input, b: Input)
    ensures [a, b][..1] == [a]
    ensures After(cfg, st, [a]) == Cycle(cfg, st, a)
    ensures After(cfg, st, [a, b]) == Cycle(cfg, Cycle(cfg, st, a), b)
  {
    assert [] + [a] == [a] && [a] + [b] == [a, b] && [a, b][..1] == [a];
    AfterLast(cfg, st, [], a);
    AfterLast(cfg, st, [a], b);
  }

  lemma AfterLast(cfg: Settings, st: Loop, front: seq<Input>, last: Input)
    ensures After(cfg, st, front + [last]) == Cycle(cfg, After(cfg, st, front), last)
  {
    assert (front + [last])[..|front|] == front;
  }

  lemma PrunedNext(cfg: Settings, p: Resolved, st: Loop, input: Input, h: Host)
    requires cfg.profiles == [p] && st.db.hosts == [h] && Keyed(st.db) && h.lastSeen == 0
    requires !input.force && p.subnet in st.due && input.started < st.due[p.subnet]
    requires 0 < cfg.hostTtl < input.started && input.pruneListOk && input.undeletable == {}
    ensures h.ip in Ips(st.db) && h.ip !in Ips(Cycle(cfg, st, input).db)
  {
    assert st.db.hosts[0] in st.db.hosts;
    SecondCycle(cfg, p, st, input);
  }

  /** With a time to live under a second less a nanosecond a failure-free run of one cycle already loses the host it
      has just seen. */
  lemma TinyTtlPrunesAtOnce(p: Resolved, ttl: int, ip: string) returns (ins: seq<Input>)
    requires 0 < ttl < SECOND - 1
    ensures LiveRun(ins, p, ip) && |ins| == 1 && FailureFree(ins)
    ensures ip !in Ips(After(Settings([p], ttl), Loop(map[], EMPTY), ins).db)
  {
    var cfg, st := Settings([p], ttl), Loop(map[], EMPTY);
    var input := Sighting(ip, SECOND - 1, true, true);
    ins := [input];
    SightingLive(ip, input.started, true, true, p);
    AloneIsRun(input, p, ip);
    AfterTwo(cfg, st, input, input);
    PrunedAtOnce(cfg, p, input, ip, Facts("", "", "", "", ""));
  }

  lemma AloneIsRun(input: Input, p: Resolved, ip: string)
    requires Live(input, p, ip) && input.force && input.snapshotOk && input.pruneListOk && input.undeletable == {}
    requires input.diffOk && input.countOk && forall s :: input.scan(s).Scanned?
    ensures LiveRun([input], p, ip) && FailureFree([input])
  {
  }

  lemma PrunedAtOnce(cfg: Settings, p: Resolved, input: Input, ip: string, facts: Facts)
    requires cfg.profiles == [p] && input.force && input.started == SECOND - 1
    requires 0 < cfg.hostTtl < SECOND - 1 && input.pruneListOk && input.undeletable == {}
    requires input.scan(p.subnet) == Scanned(1, [PutHost(ip, facts, input.started, 0)])
    ensures Ips(Cycle(cfg, Loop(map[], EMPTY), input).db) == {}
  {
    FirstSweep(cfg, p, input, ip, facts);
    var db := Swept(cfg, Loop(map[], EMPTY), input).db;
    PruneExact(db, cfg.hostTtl, input);
  }

  /** A cycle whose scan upserts one host at its very start; the listing of its prune may fail. */
  function Sighting(ip: string, t: int, force: bool, listOk: bool): Input {
    var ops := [PutHost(ip, Facts("", "", "", "", ""), t, 0)];
    Input(t, force, true, s => Scanned(1, ops), listOk, {}, true, true, t)
  }

  lemma SightingLive(ip: string, t: int, force: bool, listOk: bool, p: Resolved)
    ensures Live(Sighting(ip, t, force, listOk), p, ip)
  {
    var op := PutHost(ip, Facts("", "", "", "", ""), t, 0);
    assert op in Sighting(ip, t, force, listOk).scan(p.subnet).ops;
  }

  /** A forced first cycle just before the second turns stores a sighting almost a second too old. */
  lemma FirstCycle(cfg: Settings, p: Resolved, input: Input, ip: string, facts: Facts)
    requires cfg.profiles == [p] && input.force && input.started == SECOND - 1
    requires input.pruneListOk ==> cfg.hostTtl >= SECOND - 1
    requires input.scan(p.subnet) == Scanned(1, [PutHost(ip, facts, input.started, 0)])
    ensures Cycle(cfg, Loop(map[], EMPTY), input)
            == Loop(map[p.subnet := input.started + p.scanInterval], Db([Host(1, ip, facts, 0, 0)], [], 1, 0))
  {
    FirstSweep(cfg, p, input, ip, facts);
    var db := Swept(cfg, Loop(map[], EMPTY), input).db;
    assert db.hosts[..0] == [];
    assert PruneRows(db, [], input.started - cfg.hostTtl, input.undeletable) == db;
  }

  lemma FirstSweep(cfg: Settings, p: Resolved, input: Input, ip: string, facts: Facts)
    requires cfg.profiles == [p] && input.force && input.started == SECOND - 1
    requires input.scan(p.subnet) == Scanned(1, [PutHost(ip, facts, input.started, 0)])
    ensures
      var sw := Swept(cfg, Loop(map[], EMPTY), input);
      && sw.due == map[p.subnet := input.started + p.scanInterval]
      && sw.db == Db([Host(1, ip, facts, 0, 0)], [], 1, 0)
  {
    var ops := [PutHost(ip, facts, input.started, 0)];
    assert Stamp(input.started) == 0;
    assert ops[1..] == [];
    assert DoAll(EMPTY, ops) == Db([Host(1, ip, facts, 0, 0)], [], 1, 0);
    assert cfg.profiles[..0] == [] && [p][..0] == [];
    assert DueProfiles(cfg.profiles, map[], input.started, true) == [p];
    var s0 := Sweep(map[], EMPTY, 0, true);
    assert SweepAll([p], input, s0) == SweepOne(p, input, s0);
  }

  /** A cycle that finds nothing due and a stale row removes it. */
  lemma SecondCycle(cfg: Settings, p: Resolved, st: Loop, input: Input)
    requires cfg.profiles == [p] && !input.force && p.subnet in st.due && input.started < st.due[p.subnet]
    requires cfg.hostTtl > 0 && input.pruneListOk && input.undeletable == {} && Keyed(st.db)
    requires forall h :: h in st.db.hosts ==> h.lastSeen < input.started - cfg.hostTtl
    ensures Ips(Cycle(cfg, st, input).db) == {}
  {
    assert cfg.profiles[..0] == [];
    assert DueProfiles(cfg.profiles, st.due, input.started, false) == [];
    PruneExact(st.db, cfg.hostTtl, input);
  }
}
