/**
The scan loop of one agent: which profiles a cycle scans, the scan-then-prune order, and
the change events.  Clock readings, scan outcomes and store errors are inputs of a cycle.
*/
module Agent {
  import opened Store
  import opened Options
  import opened Config
  import opened Health
  import K = Counting

  /** What Scanner.Scan did for one subnet: the statements it ran and the hosts it found, or an error.  Scan
      reports errors only before it launches anything, so a failed scan has written nothing. */
  datatype ScanResult = Scanned(found: nat, ops: seq<Op>) | ScanFailed

  datatype Kind = Discovered | Vanished

  datatype Event = Event(kind: Kind, ip: string, facts: Facts, time: int)

  /** Everything a cycle does not decide itself. */
  datatype Input = Input(
    started: int,
    force: bool,
    snapshotOk: bool,
    scan: string -> ScanResult,
    pruneListOk: bool,
    undeletable: set<int>,
    diffOk: bool,
    countOk: bool,
    recordedAt: int)

  datatype Settings = Settings(profiles: seq<Resolved>, hostTtl: int)

  type Due = map<string, int>

  // ---- Scheduling ---------------------------------------------------------------

  /** A profile is scanned when forced, when it has no due time yet, or when that time has come. */
  predicate IsDue(p: Resolved, due: Due, started: int, force: bool) {
    force || p.subnet !in due || started >= due[p.subnet]
  }

  function DueProfiles(ps: seq<Resolved>, due: Due, started: int, force: bool): (r: seq<Resolved>)
    ensures forall p :: p in r <==> p in ps && IsDue(p, due, started, force)
  {
    if ps == [] then []
    else
      DueProfiles(ps[..|ps| - 1], due, started, force)
      + if IsDue(ps[|ps| - 1], due, started, force) then [ps[|ps| - 1]] else []
  }

  /** The running state of a cycle's scans. */
  datatype Sweep = Sweep(due: Due, db: Db, found: nat, healthy: bool)

  function SweepOne(p: Resolved, input: Input, acc: Sweep): Sweep {
    match input.scan(p.subnet)
    case Scanned(found, ops) =>
      Sweep(acc.due[p.subnet := input.started + p.scanInterval], DoAll(acc.db, ops), acc.found + found, acc.healthy)
    case ScanFailed => acc.(healthy := false)
  }

  function SweepAll(ps: seq<Resolved>, input: Input, acc: Sweep): Sweep {
    if ps == [] then acc else SweepOne(ps[|ps| - 1], input, SweepAll(ps[..|ps| - 1], input, acc))
  }

  // ---- Pruning --------------------------------------------------------------------

  predicate Stale(h: Host, cutoff: int) { h.lastSeen < cutoff }

  /** Delete the stale rows of a listing one by one; a delete that fails is skipped. */
  function PruneRows(db: Db, rows: seq<Host>, cutoff: int, undeletable: set<int>): Db {
    if rows == [] then db
    else
      var d := PruneRows(db, rows[..|rows| - 1], cutoff, undeletable);
      var h := rows[|rows| - 1];
      if Stale(h, cutoff) && h.id !in undeletable then DeleteHost(d, h.id) else d
  }

  function Prune(db: Db, ttl: int, input: Input): Db {
    if ttl <= 0 || !input.pruneListOk then db
    else PruneRows(db, db.hosts, input.started - ttl, input.undeletable)
  }

  /** The rows the loop deletes and counts. */
  function Removable(cutoff: int, undeletable: set<int>): Host -> bool {
    h => Stale(h, cutoff) && h.id !in undeletable
  }

  // ---- The cycle --------------------------------------------------------------------

  datatype Loop = Loop(due: Due, db: Db)

  function Swept(cfg: Settings, st: Loop, input: Input): Sweep {
    SweepAll(DueProfiles(cfg.profiles, st.due, input.started, input.force), input, Sweep(st.due, st.db, 0, true))
  }

  /** The scheduler's map and the store after a cycle. */
  function Cycle(cfg: Settings, st: Loop, input: Input): Loop {
    var sw := Swept(cfg, st, input);
    Loop(sw.due, Prune(sw.db, cfg.hostTtl, input))
  }

  function Ips(db: Db): set<string> {
    set h | h in db.hosts :: h.ip
  }

  /** The events name each address of the set once, in some order, with the facts of its row. */
  predicate Announces(events: seq<Event>, kind: Kind, ips: set<string>, rows: map<string, Host>, time: int) {
    && (forall e :: e in events ==>
          e.kind == kind && e.ip in ips && e.ip in rows && e.facts == rows[e.ip].facts && e.time == time)
    && (forall ip :: ip in ips ==> exists k :: 0 <= k < |events| && events[k].ip == ip)
    && (forall j, k :: 0 <= j < k < |events| ==> events[j].ip != events[k].ip)
  }

  /** The diff of two snapshots: the discovered addresses, then the vanished ones, in any map order. */
  ghost predicate IsDiff(events: seq<Event>, prev: map<string, Host>, curr: map<string, Host>, time: int) {
    exists n :: 0 <= n <= |events| && SplitsAt(events, n, prev, curr, time)
  }

  ghost predicate SplitsAt(events: seq<Event>, n: nat, prev: map<string, Host>, curr: map<string, Host>, time: int)
    requires n <= |events|
  {
    && Announces(events[..n], Discovered, curr.Keys - prev.Keys, curr, time)
    && Announces(events[n..], Vanished, prev.Keys - curr.Keys, prev, time)
  }

  /** A snapshot by address of a table in which no address occurs twice. */
  predicate IsSnapshot(m: map<string, Host>, db: Db) {
    && m.Keys == Ips(db)
    && forall ip :: ip in m ==> m[ip] in db.hosts && m[ip].ip == ip
  }

  /** The events a cycle may emit: none when a scan failed or the second listing failed; otherwise the diff
      against the first snapshot, a failed one counting as an empty inventory. */
  ghost predicate Emits(cfg: Settings, st: Loop, input: Input, events: seq<Event>) {
    if !Swept(cfg, st, input).healthy || !input.diffOk then events == []
    else
      exists prev, curr ::
        && (if input.snapshotOk then IsSnapshot(prev, st.db) else prev == map[])
        && IsSnapshot(curr, Cycle(cfg, st, input).db)
        && IsDiff(events, prev, curr, input.started)
  }

  /** What the cycle reports to the health tracker. */
  function Reported(cfg: Settings, st: Loop, input: Input, status: Status): Status {
    var sw := Swept(cfg, st, input);
    status.(
      hostCount := if input.countOk then |Cycle(cfg, st, input).db.hosts| else sw.found,
      lastScanAt := Some(input.recordedAt),
      scanCount := status.scanCount + 1,
      healthy := sw.healthy && input.countOk)
  }

  class ScanLoop {
    const cfg: Settings
    const repo: Repo
    const tracker: Tracker
    var nextDue: Due
    var alerts: seq<Event>
    var trigger: bool

    function View(): Loop
      reads this, repo
    {
      Loop(nextDue, repo.View())
    }

    constructor (cfg: Settings, repo: Repo, tracker: Tracker)
      ensures this.cfg == cfg && this.repo == repo && this.tracker == tracker
      ensures nextDue == map[] && alerts == [] && !trigger
    {
      this.cfg, this.repo, this.tracker := cfg, repo, tracker;
      nextDue, alerts, trigger := map[], [], false;
    }

    /** Trigger: a send on a channel of capacity one that never blocks. */
    method Trigger() returns (queued: bool)
      modifies this`trigger
      ensures queued == !old(trigger) && trigger
    {
      if trigger {
        return false;
      }
      trigger := true;
      queued := true;
    }

    /** tickInterval: the shortest positive interval, but at least a second; a second without any. */
    method TickInterval() returns (min: int)
      ensures min >= SECOND
      ensures forall p :: p in cfg.profiles && p.scanInterval > 0 ==> min <= p.scanInterval || min == SECOND
      ensures min == SECOND || exists p :: p in cfg.profiles && p.scanInterval == min
      ensures && (exists p :: p in cfg.profiles && p.scanInterval > 0)
              && (forall p :: p in cfg.profiles && p.scanInterval > 0 ==> p.scanInterval > SECOND)
              ==> min > SECOND
    {
      min := 0;
      for i := 0 to |cfg.profiles|
        invariant min >= 0
        invariant min == 0 ==> forall k :: 0 <= k < i ==> cfg.profiles[k].scanInterval <= 0
        invariant min > 0 ==> exists k :: 0 <= k < i && cfg.profiles[k].scanInterval == min
        invariant forall k :: 0 <= k < i && cfg.profiles[k].scanInterval > 0 ==> min <= cfg.profiles[k].scanInterval
      {
        var p := cfg.profiles[i];
        if p.scanInterval <= 0 {
          continue;
        }
        if min == 0 || p.scanInterval < min {
          min := p.scanInterval;
        }
      }
      if min < SECOND {
        min := SECOND;
      }
    }

    /** The statements of one scan, in their order. */
    method Perform(ops: seq<Op>)
      modifies repo
      ensures repo.View() == DoAll(old(repo.View()), ops)
    {
      ghost var start := repo.View();
      for i := 0 to |ops|
        invariant DoAll(repo.View(), ops[i..]) == DoAll(start, ops)
      {
        assert ops[i..][0] == ops[i] && ops[i..][1..] == ops[i + 1..];
        match ops[i] {
          case PutHost(ip, facts, now, gap) => var id := repo.PutHost(ip, facts, now, gap);
          case PutPort(host, number, protocol, service, state, now, gap) =>
            var ok := repo.PutPort(host, number, protocol, service, state, now, gap);
          case DropHost(id, _) => repo.Delete(id);
          case DropPorts(host, _) => repo.DeleteByHost(host);
        }
      }
      assert ops[|ops|..] == [];
    }

    /** pruneStale. */
    method PruneStale(input: Input) returns (pruned: nat)
      modifies repo
      ensures repo.View() == Prune(old(repo.View()), cfg.hostTtl, input)
      ensures pruned == if cfg.hostTtl <= 0 || !input.pruneListOk then 0
                        else K.Count(old(repo.hosts), Removable(input.started - cfg.hostTtl, input.undeletable))
    {
      pruned := 0;
      if cfg.hostTtl <= 0 {
        return;
      }
      var cutoff := input.started - cfg.hostTtl;
      if !input.pruneListOk {
        return;
      }
      var rows := repo.hosts;
      ghost var start, undeletable := repo.View(), input.undeletable;
      PrunedNone(start, rows, cutoff, undeletable);
      for i := 0 to |rows|
        invariant PrunedThrough(start, rows, i, cutoff, undeletable, repo.View(), pruned)
      {
        PrunedNext(start, rows, i, cutoff, undeletable, repo.View(), pruned);
        if rows[i].lastSeen < cutoff {
          if rows[i].id in input.undeletable {
            continue;
          }
          repo.Delete(rows[i].id);
          pruned := pruned + 1;
        }
      }
      PrunedAll(start, rows, cutoff, undeletable, repo.View(), pruned);
    }

    /** snapshotByIP of a listing. */
    method SnapshotByIp() returns (m: map<string, Host>)
      ensures IsSnapshot(m, repo.View())
    {
      m := map[];
      for i := 0 to |repo.hosts|
        invariant m.Keys == set h | h in repo.hosts[..i] :: h.ip
        invariant forall ip :: ip in m ==> m[ip] in repo.hosts && m[ip].ip == ip
      {
        assert repo.hosts[..i + 1] == repo.hosts[..i] + [repo.hosts[i]];
        m := m[repo.hosts[i].ip := repo.hosts[i]];
      }
      assert repo.hosts[..|repo.hosts|] == repo.hosts;
    }

    /** One of the two loops of emitChangeEvents: range over a map in any order, emit for each key the other map
        lacks. */
    method Announce(kind: Kind, rows: map<string, Host>, other: map<string, Host>, time: int)
        returns (events: seq<Event>)
      ensures Announces(events, kind, rows.Keys - other.Keys, rows, time)
    {
      events := [];
      var todo := rows.Keys;
      ghost var told: set<string> := {};
      while todo != {}
        invariant todo <= rows.Keys
        invariant forall ip :: ip in told <==> ip in rows && ip !in todo && ip !in other
        invariant Announces(events, kind, told, rows, time)
        decreases |todo|
      {
        var ip :| ip in todo;
        if ip !in other {
          OneMore(events, kind, told, rows, time, ip);
          events := events + [Event(kind, ip, rows[ip].facts, time)];
          told := told + {ip};
        }
        todo := todo - {ip};
      }
      assert told == rows.Keys - other.Keys;
    }

    /** emitChangeEvents: the second listing may fail, and then nothing is emitted. */
    method EmitChangeEvents(input: Input, prev: map<string, Host>)
      modifies this`alerts
      ensures old(alerts) <= alerts
      ensures !input.diffOk ==> alerts == old(alerts)
      ensures input.diffOk ==>
                exists curr :: IsSnapshot(curr, repo.View())
                    && IsDiff(alerts[|old(alerts)|..], prev, curr, input.started)
    {
      if !input.diffOk {
        return;
      }
      var curr := SnapshotByIp();
      var discovered := Announce(Discovered, curr, prev, input.started);
      var vanished := Announce(Vanished, prev, curr, input.started);
      ghost var events := discovered + vanished;
      assert events[..|discovered|] == discovered && events[|discovered|..] == vanished;
      assert SplitsAt(events, |discovered|, prev, curr, input.started);
      alerts := alerts + discovered + vanished;
      assert alerts[|old(alerts)|..] == events;
      assert IsDiff(events, prev, curr, input.started);
    }

    /** The profiles a cycle scans, in their order. */
    method SelectDue(input: Input) returns (due: seq<Resolved>)
      ensures due == DueProfiles(cfg.profiles, nextDue, input.started, input.force)
    {
      due := [];
      for i := 0 to |cfg.profiles|
        invariant due == DueProfiles(cfg.profiles[..i], nextDue, input.started, input.force)
      {
        DueNext(cfg.profiles, i, nextDue, input.started, input.force);
        if IsDue(cfg.profiles[i], nextDue, input.started, input.force) {
          due := due + [cfg.profiles[i]];
        }
      }
      assert cfg.profiles[..|cfg.profiles|] == cfg.profiles;
    }

    /** One scan; a successful one schedules the next from the start of this cycle. */
    method ScanOne(p: Resolved, input: Input, found: nat, healthy: bool) returns (found': nat, healthy': bool)
      modifies this`nextDue, repo
      ensures Sweep(nextDue, repo.View(), found', healthy')
          == SweepOne(p, input, Sweep(old(nextDue), old(repo.View()), found, healthy))
    {
      found', healthy' := found, healthy;
      match input.scan(p.subnet) {
        case ScanFailed => healthy' := false;
        case Scanned(n, ops) =>
          Perform(ops);
          found' := found + n;
          nextDue := nextDue[p.subnet := input.started + p.scanInterval];
      }
    }

    /** The scans of one cycle. */
    method ScanDue(input: Input) returns (found: nat, healthy: bool)
      modifies this`nextDue, repo
      ensures Sweep(nextDue, repo.View(), found, healthy) == Swept(cfg, old(View()), input)
    {
      ghost var st := View();
      var due := SelectDue(input);
      found, healthy := 0, true;
      for i := 0 to |due|
        invariant Sweep(nextDue, repo.View(), found, healthy)
            == SweepAll(due[..i], input, Sweep(st.due, st.db, 0, true))
      {
        assert due[..i + 1][..i] == due[..i];
        found, healthy := ScanOne(due[i], input, found, healthy);
      }
      assert due[..|due|] == due;
    }

    /** runCycle. */
    method RunCycle(input: Input)
      modifies this`nextDue, this`alerts, repo, tracker
      ensures View() == Cycle(cfg, old(View()), input)
      ensures old(alerts) <= alerts && Emits(cfg, old(View()), input, alerts[|old(alerts)|..])
      ensures tracker.status == Reported(cfg, old(View()), input, old(tracker.status))
    {
      ghost var st := View();
      var prev: map<string, Host> := map[];
      if input.snapshotOk {
        prev := SnapshotByIp();
      }
      assert if input.snapshotOk then IsSnapshot(prev, st.db) else prev == map[];
      var found, healthy := ScanDue(input);
      var pruned := PruneStale(input);
      assert View() == Cycle(cfg, st, input);
      if healthy {
        EmitChangeEvents(input, prev);
      }
      assert Emits(cfg, st, input, alerts[|old(alerts)|..]);
      var total := found;
      var cycleHealthy := healthy;
      if input.countOk {
        total := repo.Count();
      } else {
        cycleHealthy := false;
      }
      tracker.SetHostCount(total);
      tracker.RecordScan(input.recordedAt);
      tracker.SetHealthy(cycleHealthy);
    }
  }

  lemma DueNext(ps: seq<Resolved>, i: nat, due: Due, started: int, force: bool)
    requires i < |ps|
    ensures DueProfiles(ps[..i + 1], due, started, force)
            == DueProfiles(ps[..i], due, started, force) + if IsDue(ps[i], due, started, force) then [ps[i]] else []
  {
    assert ps[..i + 1][..i] == ps[..i];
  }

  /** The loop of pruneStale has handled the first i rows of the listing. */
  predicate PrunedThrough(db: Db, rows: seq<Host>, i: nat, cutoff: int, undeletable: set<int>, now: Db, pruned: nat)
    requires i <= |rows|
  {
    && now == PruneRows(db, rows[..i], cutoff, undeletable)
    && pruned == K.Count(rows[..i], Removable(cutoff, undeletable))
  }

  lemma PrunedNone(db: Db, rows: seq<Host>, cutoff: int, undeletable: set<int>)
    ensures PrunedThrough(db, rows, 0, cutoff, undeletable, db, 0)
  {
    K.CountZero(rows[..0], Removable(cutoff, undeletable));
  }

  lemma PrunedNext(db: Db, rows: seq<Host>, i: nat, cutoff: int, undeletable: set<int>, now: Db, pruned: nat)
    requires i < |rows| && PrunedThrough(db, rows, i, cutoff, undeletable, now, pruned)
    ensures
      if Stale(rows[i], cutoff) && rows[i].id !in undeletable
      then PrunedThrough(db, rows, i + 1, cutoff, undeletable, DeleteHost(now, rows[i].id), pruned + 1)
      else PrunedThrough(db, rows, i + 1, cutoff, undeletable, now, pruned)
  {
    assert rows[..i + 1][..i] == rows[..i] && rows[..i + 1] == rows[..i] + [rows[i]];
    K.CountAppend(rows[..i], rows[i], Removable(cutoff, undeletable));
  }

  lemma PrunedAll(db: Db, rows: seq<Host>, cutoff: int, undeletable: set<int>, now: Db, pruned: nat)
    requires PrunedThrough(db, rows, |rows|, cutoff, undeletable, now, pruned)
    ensures now == PruneRows(db, rows, cutoff, undeletable) && pruned == K.Count(rows, Removable(cutoff, undeletable))
  {
    assert rows[..|rows|] == rows;
  }

  lemma OneMore(events: seq<Event>, kind: Kind, told: set<string>, rows: map<string, Host>, time: int, ip: string)
    requires Announces(events, kind, told, rows, time) && ip in rows && ip !in told
    ensures Announces(events + [Event(kind, ip, rows[ip].facts, time)], kind, told + {ip}, rows, time)
  {
    var more := events + [Event(kind, ip, rows[ip].facts, time)];
    forall x | x in told + {ip} ensures exists k :: 0 <= k < |more| && more[k].ip == x {
      if x == ip {
        assert more[|events|].ip == x;
      } else {
        var k :| 0 <= k < |events| && events[k].ip == x;
        assert more[k].ip == x;
      }
    }
    forall j, k | 0 <= j < k < |more| ensures more[j].ip != more[k].ip {
      assert events[j] in events;
    }
  }
}
