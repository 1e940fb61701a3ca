/** Replaying the change events of a run. */
module AgentEvents {
  import opened Store
  import opened Agent
  import opened AgentRuns
  import opened Options

  /** What a consumer of the events believes the inventory to be. */
  function Replay(ips: set<string>, events: seq<Event>): set<string> {
    if events == [] then ips
    else
      var before, e := Replay(ips, events[..|events| - 1]), events[|events| - 1];
      if e.kind.Discovered? then before + {e.ip} else before - {e.ip}
  }

  /** Every event changes what is believed: discovered addresses were absent, vanished ones present. */
  predicate Flips(ips: set<string>, events: seq<Event>) {
    forall k :: 0 <= k < |events| ==> (events[k].kind.Discovered? <==> events[k].ip !in Replay(ips, events[..k]))
  }

  lemma {:induction false} ReplayAppend(ips: set<string>, a: seq<Event>, b: seq<Event>)
    ensures Replay(ips, a + b) == Replay(Replay(ips, a), b)
    decreases |b|
  {
    if b == [] {
      assert a + b == a;
    } else {
      var n := |b| - 1;
      assert (a + b)[..|a + b| - 1] == a + b[..n];
      ReplayAppend(ips, a, b[..n]);
    }
  }

  lemma {:induction false} ReplayOne(ips: set<string>, events: seq<Event>, x: string)
    ensures (forall k :: 0 <= k < |events| ==> events[k].ip != x) ==> (x in Replay(ips, events) <==> x in ips)
    decreases |events|
  {
    if events == [] {
    } else {
      ReplayOne(ips, events[..|events| - 1], x);
    }
  }

  /** The addresses a list of events names. */
  function Named(events: seq<Event>): set<string> {
    if events == [] then {} else Named(events[..|events| - 1]) + {events[|events| - 1].ip}
  }

  lemma {:induction false} NamedMembers(events: seq<Event>, x: string)
    ensures x in Named(events) <==> exists k :: 0 <= k < |events| && events[k].ip == x
    decreases |events|
  {
    if events == [] {
    } else {
      var n := |events| - 1;
      NamedMembers(events[..n], x);
      if x in Named(events[..n]) {
        var k :| 0 <= k < n && events[..n][k].ip == x;
        assert events[k].ip == x;
      }
      forall k | 0 <= k < |events| && events[k].ip == x ensures x in Named(events) {
        if k < n {
          assert events[..n][k].ip == x;
        }
      }
    }
  }

  /** A list of one kind adds or removes the addresses it names. */
  lemma {:induction false} ReplayKind(ips: set<string>, events: seq<Event>, kind: Kind)
    requires forall k :: 0 <= k < |events| ==> events[k].kind == kind
    ensures Replay(ips, events) == if kind.Discovered? then ips + Named(events) else ips - Named(events)
    decreases |events|
  {
    if events == [] {
    } else {
      ReplayKind(ips, events[..|events| - 1], kind);
    }
  }

  lemma AnnouncedNames(events: seq<Event>, kind: Kind, named: set<string>, rows: map<string, Host>, time: int)
    requires Announces(events, kind, named, rows, time)
    ensures Named(events) == named
    ensures forall k :: 0 <= k < |events| ==> events[k].kind == kind
  {
    forall k | 0 <= k < |events| ensures events[k].kind == kind && events[k].ip in named {
      assert events[k] in events;
    }
    forall x ensures x in Named(events) <==> x in named {
      NamedMembers(events, x);
    }
  }

  /** A whole announcement adds or removes its set. */
  lemma ReplayAnnounced(ips: set<string>, events: seq<Event>, kind: Kind, named: set<string>, rows: map<string, Host>,
      time: int)
    requires Announces(events, kind, named, rows, time)
    ensures Replay(ips, events) == if kind.Discovered? then ips + named else ips - named
  {
    AnnouncedNames(events, kind, named, rows, time);
    ReplayKind(ips, events, kind);
  }

  lemma {:induction false} FlipsAnnounced(ips: set<string>, events: seq<Event>, kind: Kind)
    requires forall e :: e in events ==> e.kind == kind && (kind.Discovered? <==> e.ip !in ips)
    requires forall j, k :: 0 <= j < k < |events| ==> events[j].ip != events[k].ip
    ensures Flips(ips, events)
  {
    forall k | 0 <= k < |events| ensures events[k].kind.Discovered? <==> events[k].ip !in Replay(ips, events[..k]) {
      assert events[k] in events;
      ReplayOne(ips, events[..k], events[k].ip);
    }
  }

  lemma FlipsAppend(ips: set<string>, a: seq<Event>, b: seq<Event>)
    requires Flips(ips, a) && Flips(Replay(ips, a), b)
    ensures Flips(ips, a + b)
  {
    forall k | 0 <= k < |a + b| ensures (a + b)[k].kind.Discovered? <==> (a + b)[k].ip !in Replay(ips, (a + b)[..k]) {
      if k < |a| {
        assert (a + b)[..k] == a[..k];
      } else {
        assert (a + b)[..k] == a + b[..k - |a|];
        ReplayAppend(ips, a, b[..k - |a|]);
      }
    }
  }

  /** What a diff does to any belief, for every map order. */
  lemma DiffMoves(events: seq<Event>, prev: map<string, Host>, curr: map<string, Host>, time: int, ips: set<string>)
    requires IsDiff(events, prev, curr, time)
    ensures Replay(ips, events) == (ips + (curr.Keys - prev.Keys)) - (prev.Keys - curr.Keys)
  {
    var n :| 0 <= n <= |events| && SplitsAt(events, n, prev, curr, time);
    var d, v := events[..n], events[n..];
    assert events == d + v;
    ReplayAnnounced(ips, d, Discovered, curr.Keys - prev.Keys, curr, time);
    ReplayAnnounced(Replay(ips, d), v, Vanished, prev.Keys - curr.Keys, prev, time);
    ReplayAppend(ips, d, v);
  }

  /** For every map order, a diff turns the first set into the second and flips each address it names. */
  lemma DiffReplays(events: seq<Event>, prev: map<string, Host>, curr: map<string, Host>, time: int, ips: set<string>)
    requires IsDiff(events, prev, curr, time) && prev.Keys <= ips
    ensures Replay(ips, events) == curr.Keys + (ips - prev.Keys)
    ensures ips == prev.Keys ==> Flips(ips, events)
  {
    DiffMoves(events, prev, curr, time, ips);
    if ips == prev.Keys {
      DiffFlips(events, prev, curr, time);
    }
  }

  lemma DiffFlips(events: seq<Event>, prev: map<string, Host>, curr: map<string, Host>, time: int)
    requires IsDiff(events, prev, curr, time)
    ensures Flips(prev.Keys, events)
  {
    var n :| 0 <= n <= |events| && SplitsAt(events, n, prev, curr, time);
    var d, v := events[..n], events[n..];
    assert events == d + v;
    ReplayAnnounced(prev.Keys, d, Discovered, curr.Keys - prev.Keys, curr, time);
    FlipsAnnounced(prev.Keys, d, Discovered);
    FlipsAnnounced(Replay(prev.Keys, d), v, Vanished);
    FlipsAppend(prev.Keys, d, v);
  }

  /** When the events of one cycle keep a consumer in step with the store, exactly: the diff was emitted and
      taken against the inventory, or nothing was emitted and nothing had changed.  A failed first snapshot is
      diffed as an empty inventory, so every address is announced and vanished ones are missed. */
  lemma ReplayExactly(cfg: Settings, st: Loop, input: Input, events: seq<Event>)
    requires Emits(cfg, st, input, events)
    ensures
      var pre, post := Ips(st.db), Ips(Cycle(cfg, st, input).db);
      var emitted := Swept(cfg, st, input).healthy && input.diffOk;
      Replay(pre, events) == post
      <==> if !emitted then pre == post else input.snapshotOk || pre <= post
  {
    if Swept(cfg, st, input).healthy && input.diffOk {
      var prev, curr :| (if input.snapshotOk then IsSnapshot(prev, st.db) else prev == map[])
                        && IsSnapshot(curr, Cycle(cfg, st, input).db) && IsDiff(events, prev, curr, input.started);
      DiffReplays(events, prev, curr, input.started, Ips(st.db));
    }
  }

  /** A diff against nothing announces every address. */
  lemma DiffOfNothing(events: seq<Event>, curr: map<string, Host>, time: int)
    requires IsDiff(events, map[], curr, time)
    ensures Announces(events, Discovered, curr.Keys, curr, time)
  {
    var prev: map<string, Host> := map[];
    var n :| 0 <= n <= |events| && SplitsAt(events, n, prev, curr, time);
    assert prev.Keys - curr.Keys == {};
    AnnouncedNames(events[n..], Vanished, {}, prev, time);
    assert curr.Keys - prev.Keys == curr.Keys;
    assert events[..n] == events;
  }

  /** The comment on a failed snapshot promises no events.  The code emits one discovery for every address in the
      inventory, so it keeps the promise only when the inventory is empty. */
  lemma FailedSnapshotAnnouncesAll(cfg: Settings, st: Loop, input: Input, events: seq<Event>)
    requires Emits(cfg, st, input, events)
    requires !input.snapshotOk && input.diffOk && Swept(cfg, st, input).healthy
    ensures forall e :: e in events ==> e.kind == Discovered
    ensures forall x :: x in Ips(Cycle(cfg, st, input).db) <==> exists k :: 0 <= k < |events| && events[k].ip == x
    ensures events == [] <==> Ips(Cycle(cfg, st, input).db) == {}
  {
    var prev, curr :| prev == map[] && IsSnapshot(curr, Cycle(cfg, st, input).db)
        && IsDiff(events, prev, curr, input.started);
    DiffOfNothing(events, curr, input.started);
    ReplayAnnounced({}, events, Discovered, curr.Keys, curr, input.started);
    var ips := Ips(Cycle(cfg, st, input).db);
    assert forall k :: 0 <= k < |events| ==> events[k] in events;
    if ips != {} {
      var x :| x in ips;
    }
  }

  /** What an emitted event carries: the start of the cycle, and the facts of the row the address has afterwards when
      it was discovered, or had before when it vanished. */
  lemma EventsTellFacts(cfg: Settings, st: Loop, input: Input, events: seq<Event>, e: Event)
    requires Emits(cfg, st, input, events) && e in events
    ensures e.time == input.started
    ensures e.kind.Discovered? ==>
              exists h :: h in Cycle(cfg, st, input).db.hosts && h.ip == e.ip && h.facts == e.facts
    ensures e.kind.Vanished? ==> exists h :: h in st.db.hosts && h.ip == e.ip && h.facts == e.facts
    ensures e.kind.Vanished? ==> e.ip !in Ips(Cycle(cfg, st, input).db)
  {
    var prev: map<string, Host>, curr: map<string, Host> :|
      (if input.snapshotOk then IsSnapshot(prev, st.db) else prev == map[])
      && IsSnapshot(curr, Cycle(cfg, st, input).db) && IsDiff(events, prev, curr, input.started);
    DiffTells(events, prev, curr, input.started, e);
    if e.kind.Discovered? {
      assert curr[e.ip] in Cycle(cfg, st, input).db.hosts;
    } else {
      assert prev[e.ip] in st.db.hosts;
    }
  }

  lemma DiffTells(events: seq<Event>, prev: map<string, Host>, curr: map<string, Host>, time: int, e: Event)
    requires IsDiff(events, prev, curr, time) && e in events
    ensures e.time == time
    ensures e.kind.Discovered? ==> e.ip in curr && e.facts == curr[e.ip].facts
    ensures e.kind.Vanished? ==> e.ip in prev && e.ip !in curr && e.facts == prev[e.ip].facts
  {
    var n :| 0 <= n <= |events| && SplitsAt(events, n, prev, curr, time);
    assert events == events[..n] + events[n..];
  }

  // ---- Any run -------------------------------------------------------------------

  /** The cycle emits its diff. */
  predicate Emitted(cfg: Settings, st: Loop, input: Input) {
    Swept(cfg, st, input).healthy && input.diffOk
  }

  /** The events of the cycle name x: its first listing worked and x came or went, or it failed and x is there. */
  predicate Tells(cfg: Settings, st: Loop, input: Input, x: string) {
    var pre, post := Ips(st.db), Ips(Cycle(cfg, st, input).db);
    Emitted(cfg, st, input) && if input.snapshotOk then (x in pre) != (x in post) else x in post
  }

  /** What one cycle does to any belief about x. */
  lemma CycleBelief(cfg: Settings, st: Loop, input: Input, events: seq<Event>, believed: set<string>, x: string)
    requires Emits(cfg, st, input, events)
    ensures x in Replay(believed, events)
        <==> if Tells(cfg, st, input, x) then x in Ips(Cycle(cfg, st, input).db) else x in believed
  {
    if Emitted(cfg, st, input) {
      var prev, curr :| (if input.snapshotOk then IsSnapshot(prev, st.db) else prev == map[])
                        && IsSnapshot(curr, Cycle(cfg, st, input).db) && IsDiff(events, prev, curr, input.started);
      DiffMoves(events, prev, curr, input.started, believed);
    }
  }

  /** logs[k] are events cycle k may emit. */
  ghost predicate LogsCycle(cfg: Settings, st: Loop, ins: seq<Input>, logs: seq<seq<Event>>, k: nat) {
    k < |ins| && k < |logs| && Emits(cfg, After(cfg, st, ins[..k]), ins[k], logs[k])
  }

  ghost predicate Logged(cfg: Settings, st: Loop, ins: seq<Input>, logs: seq<seq<Event>>) {
    |logs| == |ins| && forall k: nat :: k < |ins| ==> LogsCycle(cfg, st, ins, logs, k)
  }

  lemma LoggedFront(cfg: Settings, st: Loop, ins: seq<Input>, logs: seq<seq<Event>>)
    requires Logged(cfg, st, ins, logs) && ins != []
    ensures Logged(cfg, st, ins[..|ins| - 1], logs[..|ins| - 1])
  {
    var n := |ins| - 1;
    forall k: nat | k < n ensures LogsCycle(cfg, st, ins[..n], logs[..n], k) {
      assert LogsCycle(cfg, st, ins, logs, k);
      assert ins[..n][..k] == ins[..k];
    }
  }

  /** The inventory after m cycles. */
  function Inventory(cfg: Settings, st: Loop, ins: seq<Input>, m: nat): set<string>
    requires m <= |ins|
  {
    Ips(After(cfg, st, ins[..m]).db)
  }

  /** What a consumer believes after m cycles. */
  function Believed(st: Loop, logs: seq<seq<Event>>, m: nat): set<string>
    requires m <= |logs|
  {
    Replay(Ips(st.db), Flat(logs[..m]))
  }

  /** The events of cycle m name x. */
  predicate TellsAt(cfg: Settings, st: Loop, ins: seq<Input>, m: nat, x: string)
    requires m < |ins|
  {
    Tells(cfg, After(cfg, st, ins[..m]), ins[m], x)
  }

  // Beliefs about one address over time, as three sequences: whether cycle m names it, whether it is there after m
  // cycles, and whether a consumer believes so.

  predicate FollowsAt(told: seq<bool>, here: seq<bool>, believed: seq<bool>, m: nat) {
    && m < |told| < |here| && |told| < |believed|
    && believed[m + 1] == if told[m] then here[m + 1] else believed[m]
  }

  predicate Follows(told: seq<bool>, here: seq<bool>, believed: seq<bool>) {
    |here| == |believed| == |told| + 1 && forall m: nat :: m < |told| ==> FollowsAt(told, here, believed, m)
  }

  /** The latest of the first m entries that is true. */
  function LastTold(told: seq<bool>, m: nat): (k: Option<nat>)
    requires m <= |told|
    ensures k.Some? ==> k.value < m && told[k.value]
    ensures forall j :: (if k.Some? then k.value + 1 else 0) <= j < m ==> !told[j]
  {
    if m == 0 then None
    else if told[m - 1] then Some(m - 1)
    else LastTold(told, m - 1)
  }

  lemma {:induction false} BeliefsFollow(told: seq<bool>, here: seq<bool>, believed: seq<bool>, m: nat)
    requires Follows(told, here, believed) && m <= |told|
    ensures believed[m] == var k := LastTold(told, m); if k.None? then believed[0] else here[k.value + 1]
    decreases m
  {
    if m == 0 {
    } else {
      BeliefsFollow(told, here, believed, m - 1);
      assert FollowsAt(told, here, believed, m - 1);
    }
  }

  lemma {:induction false} ChangeIsLost(told: seq<bool>, here: seq<bool>, believed: seq<bool>, n: nat, m: nat)
    requires Follows(told, here, believed) && n < m <= |told|
    requires !told[n] && believed[n] == here[n] != here[n + 1]
    requires forall k :: n < k < m ==> !told[k] && here[k + 1] == here[k]
    ensures believed[m] != here[m]
    decreases m
  {
    var k := m - 1;
    assert FollowsAt(told, here, believed, k);
    if n == k {
    } else {
      ChangeIsLost(told, here, believed, n, k);
    }
  }

  lemma NextCycle(cfg: Settings, st: Loop, ins: seq<Input>, m: nat)
    requires m < |ins|
    ensures After(cfg, st, ins[..m + 1]) == Cycle(cfg, After(cfg, st, ins[..m]), ins[m])
  {
    assert ins[..m + 1][..m] == ins[..m];
  }

  lemma NextLog(logs: seq<seq<Event>>, m: nat)
    requires m < |logs|
    ensures Flat(logs[..m + 1]) == Flat(logs[..m]) + logs[m]
  {
    assert logs[..m + 1][..m] == logs[..m];
  }

  /** What cycle m does to a belief. */
  lemma BeliefNext(cfg: Settings, st: Loop, ins: seq<Input>, logs: seq<seq<Event>>, m: nat, x: string)
    requires Logged(cfg, st, ins, logs) && m < |ins|
    ensures x in Believed(st, logs, m + 1)
            <==> if TellsAt(cfg, st, ins, m, x) then x in Inventory(cfg, st, ins, m + 1) else x in Believed(st, logs, m)
  {
    assert LogsCycle(cfg, st, ins, logs, m);
    NextCycle(cfg, st, ins, m);
    NextLog(logs, m);
    ReplayAppend(Ips(st.db), Flat(logs[..m]), logs[m]);
    CycleBelief(cfg, After(cfg, st, ins[..m]), ins[m], logs[m], Believed(st, logs, m), x);
  }

  /** Whether each cycle names x. */
  function Told(cfg: Settings, st: Loop, ins: seq<Input>, x: string): (r: seq<bool>)
    ensures |r| == |ins|
  {
    seq(|ins|, m requires 0 <= m < |ins| => TellsAt(cfg, st, ins, m, x))
  }

  function Here(cfg: Settings, st: Loop, ins: seq<Input>, x: string): (r: seq<bool>)
    ensures |r| == |ins| + 1
  {
    seq(|ins| + 1, m requires 0 <= m <= |ins| => x in Inventory(cfg, st, ins, m))
  }

  function Beliefs(st: Loop, logs: seq<seq<Event>>, x: string): (r: seq<bool>)
    ensures |r| == |logs| + 1
  {
    seq(|logs| + 1, m requires 0 <= m <= |logs| => x in Believed(st, logs, m))
  }

  lemma RunFollows(cfg: Settings, st: Loop, ins: seq<Input>, logs: seq<seq<Event>>, x: string)
    requires Logged(cfg, st, ins, logs)
    ensures Follows(Told(cfg, st, ins, x), Here(cfg, st, ins, x), Beliefs(st, logs, x))
  {
    forall m: nat | m < |ins| ensures FollowsAt(Told(cfg, st, ins, x), Here(cfg, st, ins, x), Beliefs(st, logs, x), m) {
      CycleFollows(cfg, st, ins, logs, m, x);
    }
  }

  lemma CycleFollows(cfg: Settings, st: Loop, ins: seq<Input>, logs: seq<seq<Event>>, m: nat, x: string)
    requires Logged(cfg, st, ins, logs) && m < |ins|
    ensures FollowsAt(Told(cfg, st, ins, x), Here(cfg, st, ins, x), Beliefs(st, logs, x), m)
  {
    BeliefNext(cfg, st, ins, logs, m, x);
    At(cfg, st, ins, logs, m, x);
    At(cfg, st, ins, logs, m + 1, x);
  }

  lemma At(cfg: Settings, st: Loop, ins: seq<Input>, logs: seq<seq<Event>>, m: nat, x: string)
    requires |logs| == |ins| && m <= |ins|
    ensures Here(cfg, st, ins, x)[m] == (x in Inventory(cfg, st, ins, m))
    ensures Beliefs(st, logs, x)[m] == (x in Believed(st, logs, m))
    ensures m < |ins| ==> Told(cfg, st, ins, x)[m] == TellsAt(cfg, st, ins, m, x)
  {
  }

  /** What a consumer believes in any run, failed scans and failed listings included: an address counts as present
      exactly when it was in the inventory after the latest cycle whose events name it, or at first if none does. */
  lemma BelievedExactly(cfg: Settings, st: Loop, ins: seq<Input>, logs: seq<seq<Event>>, m: nat, x: string)
    requires Logged(cfg, st, ins, logs) && m <= |ins|
    ensures
      var k := LastTold(Told(cfg, st, ins, x), m);
      x in Believed(st, logs, m) <==> if k.None? then x in Ips(st.db) else x in Inventory(cfg, st, ins, k.value + 1)
  {
    RunFollows(cfg, st, ins, logs, x);
    FromBeliefs(cfg, st, ins, logs, m, x);
  }

  lemma FromBeliefs(cfg: Settings, st: Loop, ins: seq<Input>, logs: seq<seq<Event>>, m: nat, x: string)
    requires |logs| == |ins| && m <= |ins|
    requires Follows(Told(cfg, st, ins, x), Here(cfg, st, ins, x), Beliefs(st, logs, x))
    ensures
      var k := LastTold(Told(cfg, st, ins, x), m);
      x in Believed(st, logs, m) <==> if k.None? then x in Ips(st.db) else x in Inventory(cfg, st, ins, k.value + 1)
  {
    BeliefsFollow(Told(cfg, st, ins, x), Here(cfg, st, ins, x), Beliefs(st, logs, x), m);
    NothingYet(st, logs);
    At(cfg, st, ins, logs, 0, x);
    At(cfg, st, ins, logs, m, x);
    var k := LastTold(Told(cfg, st, ins, x), m);
    if k.Some? {
      At(cfg, st, ins, logs, k.value + 1, x);
    }
  }

  lemma NothingYet(st: Loop, logs: seq<seq<Event>>)
    ensures Believed(st, logs, 0) == Ips(st.db)
  {
    assert logs[..0] == [];
  }

  /** Cycle k lists the inventory first, and x neither comes nor goes. */
  predicate RestsAt(cfg: Settings, st: Loop, ins: seq<Input>, k: nat, x: string)
    requires k < |ins|
  {
    ins[k].snapshotOk && (x in Inventory(cfg, st, ins, k) <==> x in Inventory(cfg, st, ins, k + 1))
  }

  lemma RestingTellsNothing(cfg: Settings, st: Loop, ins: seq<Input>, k: nat, x: string)
    requires k < |ins| && RestsAt(cfg, st, ins, k, x)
    ensures !TellsAt(cfg, st, ins, k, x)
  {
    NextCycle(cfg, st, ins, k);
  }

  /** A change made by a cycle that emits nothing is never announced later: as long as first listings work and the
      address does not change again, a consumer that was right about it stays wrong. */
  lemma SilentChangeIsLost(cfg: Settings, st: Loop, ins: seq<Input>, logs: seq<seq<Event>>, n: nat, m: nat, x: string)
    requires Logged(cfg, st, ins, logs) && n < m <= |ins|
    requires !Emitted(cfg, After(cfg, st, ins[..n]), ins[n])
    requires x in Believed(st, logs, n) <==> x in Inventory(cfg, st, ins, n)
    requires (x in Inventory(cfg, st, ins, n)) != (x in Inventory(cfg, st, ins, n + 1))
    requires forall k :: n < k < m ==> RestsAt(cfg, st, ins, k, x)
    ensures (x in Believed(st, logs, m)) != (x in Inventory(cfg, st, ins, m))
  {
    RunFollows(cfg, st, ins, logs, x);
    forall k | n < k < m ensures !Told(cfg, st, ins, x)[k] && Here(cfg, st, ins, x)[k + 1] == Here(cfg, st, ins, x)[k] {
      RestShows(cfg, st, ins, logs, k, x);
    }
    At(cfg, st, ins, logs, n, x);
    At(cfg, st, ins, logs, n + 1, x);
    At(cfg, st, ins, logs, m, x);
    ChangeIsLost(Told(cfg, st, ins, x), Here(cfg, st, ins, x), Beliefs(st, logs, x), n, m);
  }

  lemma RestShows(cfg: Settings, st: Loop, ins: seq<Input>, logs: seq<seq<Event>>, k: nat, x: string)
    requires |logs| == |ins| && k < |ins| && RestsAt(cfg, st, ins, k, x)
    ensures !Told(cfg, st, ins, x)[k] && Here(cfg, st, ins, x)[k + 1] == Here(cfg, st, ins, x)[k]
  {
    RestingTellsNothing(cfg, st, ins, k, x);
    At(cfg, st, ins, logs, k, x);
    At(cfg, st, ins, logs, k + 1, x);
  }

  // ---- Healthy runs ----------------------------------------------------------------

  /** One healthy cycle with both listings turns the believed inventory into the new one. */
  lemma CycleReplays(cfg: Settings, st: Loop, input: Input, events: seq<Event>)
    requires Emits(cfg, st, input, events)
    requires input.snapshotOk && input.diffOk && Swept(cfg, st, input).healthy
    ensures Replay(Ips(st.db), events) == Ips(Cycle(cfg, st, input).db)
    ensures Flips(Ips(st.db), events)
  {
    var prev, curr := EmittedDiff(cfg, st, input, events);
    DiffReplays(events, prev, curr, input.started, prev.Keys);
  }

  lemma EmittedDiff(cfg: Settings, st: Loop, input: Input, events: seq<Event>)
      returns (prev: map<string, Host>, curr: map<string, Host>)
    requires Emits(cfg, st, input, events)
    requires input.snapshotOk && input.diffOk && Swept(cfg, st, input).healthy
    ensures prev.Keys == Ips(st.db) && curr.Keys == Ips(Cycle(cfg, st, input).db)
    ensures IsDiff(events, prev, curr, input.started)
  {
    prev, curr :| IsSnapshot(prev, st.db) && IsSnapshot(curr, Cycle(cfg, st, input).db)
                  && IsDiff(events, prev, curr, input.started);
  }

  /** Every cycle of the run is healthy and both its listings succeed. */
  ghost predicate Healthy(cfg: Settings, st: Loop, ins: seq<Input>) {
    forall k :: 0 <= k < |ins| ==>
        ins[k].snapshotOk && ins[k].diffOk && Swept(cfg, After(cfg, st, ins[..k]), ins[k]).healthy
  }

  function Flat(logs: seq<seq<Event>>): seq<Event> {
    if logs == [] then [] else Flat(logs[..|logs| - 1]) + logs[|logs| - 1]
  }

  lemma HealthyFront(cfg: Settings, st: Loop, ins: seq<Input>)
    requires Healthy(cfg, st, ins) && ins != []
    ensures Healthy(cfg, st, ins[..|ins| - 1])
  {
    var n := |ins| - 1;
    assert forall k :: 0 <= k <= n ==> ins[..n][..k] == ins[..k];
  }

  /** Event replay: over a run of healthy cycles in which only the agent writes the store, replaying the emitted
      events onto the first address set gives the inventory after every cycle, and every event flips its
      address. */
  lemma {:induction false} EventReplay(cfg: Settings, st: Loop, ins: seq<Input>, logs: seq<seq<Event>>)
    requires Healthy(cfg, st, ins) && Logged(cfg, st, ins, logs)
    ensures Replay(Ips(st.db), Flat(logs)) == Ips(After(cfg, st, ins).db)
    ensures Flips(Ips(st.db), Flat(logs))
    decreases |ins|
  {
    if ins == [] {
    } else {
      var n := |ins| - 1;
      HealthyFront(cfg, st, ins);
      LoggedFront(cfg, st, ins, logs);
      assert LogsCycle(cfg, st, ins, logs, n);
      EventReplay(cfg, st, ins[..n], logs[..n]);
      CycleReplays(cfg, After(cfg, st, ins[..n]), ins[n], logs[n]);
      ReplayAppend(Ips(st.db), Flat(logs[..n]), logs[n]);
      FlipsAppend(Ips(st.db), Flat(logs[..n]), logs[n]);
    }
  }

  /** The first event of an address tells what was believed of it. */
  lemma FirstFlip(ips: set<string>, es: seq<Event>, k: nat)
    requires Flips(ips, es) && k < |es|
    requires forall i :: 0 <= i < k ==> es[i].ip != es[k].ip
    ensures es[k].kind == Discovered <==> es[k].ip !in ips
  {
    ReplayOne(ips, es[..k], es[k].ip);
  }

  /** The next event of an address is of the other kind. */
  lemma NextFlip(ips: set<string>, es: seq<Event>, j: nat, k: nat)
    requires Flips(ips, es) && j < k < |es| && es[j].ip == es[k].ip
    requires forall i :: j < i < k ==> es[i].ip != es[k].ip
    ensures es[j].kind != es[k].kind
  {
    var tail, x := es[j + 1..k], es[k].ip;
    assert es[..k] == es[..j + 1] + tail;
    assert es[..j + 1][..j] == es[..j];
    ReplayAppend(ips, es[..j + 1], tail);
    ReplayOne(Replay(ips, es[..j + 1]), tail, x);
    assert x in Replay(ips, es[..j + 1]) <==> es[j].kind.Discovered?;
  }

  /** In such a run the events of each address strictly alternate, starting with a discovery exactly when the
      address was absent at first. */
  lemma EventsAlternate(cfg: Settings, st: Loop, ins: seq<Input>, logs: seq<seq<Event>>, j: nat, k: nat)
    requires Healthy(cfg, st, ins) && Logged(cfg, st, ins, logs)
    requires k < |Flat(logs)| && j <= k
    ensures
      var es := Flat(logs);
      && (j < k && es[j].ip == es[k].ip && (forall i :: j < i < k ==> es[i].ip != es[k].ip) ==>
          es[j].kind != es[k].kind)
      && ((forall i :: 0 <= i < k ==> es[i].ip != es[k].ip) ==> (es[k].kind == Discovered <==> es[k].ip !in Ips(st.db)))
  {
    EventReplay(cfg, st, ins, logs);
    var es, ips := Flat(logs), Ips(st.db);
    if forall i :: 0 <= i < k ==> es[i].ip != es[k].ip {
      FirstFlip(ips, es, k);
    }
    if j < k && es[j].ip == es[k].ip && forall i :: j < i < k ==> es[i].ip != es[k].ip {
      NextFlip(ips, es, j, k);
    }
  }
}
