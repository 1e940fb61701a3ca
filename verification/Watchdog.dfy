/** The watchdog: a failure counter over liveness pings of a peer whose answer depends on the age of its last scan. */
module Watchdog {
  import opened Arith
  import opened Options
  import opened Health

  datatype Settings = Settings(maxFailures: int, scanInterval: int)

  /** One tick: the ping reaches the peer's server or not, and what the peer's tracker held then; the status
      fetched after a successful ping, if that request works; this agent's own status. */
  datatype Tick = Tick(now: int, reached: bool, peer: Status, fetched: Option<Status>, local: Status)

  /** The peer was wired with three of its scan intervals as its freshness limit. */
  function StaleAfter(peerInterval: int): int { 3 * peerInterval }

  /** Ping succeeds on 200 only. */
  predicate PingOk(t: Tick, peerInterval: int) {
    t.reached && AnswersOk(t.peer, StaleAfter(peerInterval), t.now)
  }

  /** checkFreshness. */
  predicate LooksStale(cfg: Settings, peer: Status, now: int) {
    peer.lastScanAt.None? || now - peer.lastScanAt.value > 2 * cfg.scanInterval
  }

  /** math.Round to one decimal of a value that is not negative. */
  function RoundTenth(x: real): real {
    (x * 10.0 + 0.5).Floor as real / 10.0
  }

  /** checkConsistency: the difference of the host counts as a percentage of the larger one. */
  function Drift(local: Status, peer: Status): real {
    if local.scanCount == 0 || peer.scanCount == 0 then 0.0
    else if local.hostCount == 0 && peer.hostCount == 0 then 0.0
    else
      var mine, theirs := local.hostCount as real, peer.hostCount as real;
      var larger := if mine > theirs then mine else theirs;
      var difference := if mine > theirs then mine - theirs else theirs - mine;
      RoundTenth(difference / larger * 100.0)
  }

  /** The counter of consecutive failures and the peer-down metric. */
  datatype Counter = Counter(failures: nat, downs: nat)

  function Counted(cfg: Settings, c: Counter, ok: bool): Counter {
    if ok then c.(failures := 0)
    else Counter(c.failures + 1, if c.failures + 1 == cfg.maxFailures then c.downs + 1 else c.downs)
  }

  /** What a tick publishes. */
  function Published(cfg: Settings, c: Counter, t: Tick, ok: bool): PeerStatus {
    if !ok then PeerStatus(false, c.failures, t.now, true, 0, 0, 0.0, false)
    else if t.fetched.None? then PeerStatus(true, c.failures, t.now, true, 0, 0, 0.0, false)
    else
      var peer := t.fetched.value;
      PeerStatus(true, c.failures, t.now, false, peer.hostCount, peer.scanCount, Drift(t.local, peer),
          LooksStale(cfg, peer, t.now))
  }

  class Dog {
    const cfg: Settings
    const tracker: Tracker
    var failures: nat
    var downs: nat

    constructor (cfg: Settings, tracker: Tracker)
      ensures this.cfg == cfg && this.tracker == tracker && failures == 0 && downs == 0
    {
      this.cfg, this.tracker := cfg, tracker;
      failures, downs := 0, 0;
    }

    /** check: the view is published at the end, on every path. */
    method Check(t: Tick, peerInterval: int)
      modifies this, tracker
      ensures Counter(failures, downs) == Counted(cfg, Counter(old(failures), old(downs)), PingOk(t, peerInterval))
      ensures tracker.status == old(tracker.status).(
                peer := Some(Published(cfg, Counter(failures, downs), t, PingOk(t, peerInterval))))
      ensures
        var view := tracker.status.peer.value;
        && view.lastCheckedAt == t.now
        && view.consecutiveFailures == failures
        && (view.reachable <==> PingOk(t, peerInterval))
        && (view.failed <==> !PingOk(t, peerInterval) || t.fetched.None?)
      ensures PingOk(t, peerInterval) && t.fetched.Some? ==>
                var view, peer := tracker.status.peer.value, t.fetched.value;
                && view.peerHostCount == peer.hostCount
                && view.peerScanCount == peer.scanCount
                && (view.stale <==>
                      peer.lastScanAt.None? || t.now - peer.lastScanAt.value > 2 * cfg.scanInterval)
                && DriftShown(view.drift, t.local, peer)
      ensures !PingOk(t, peerInterval) || t.fetched.None? ==>
                var view := tracker.status.peer.value;
                view.peerHostCount == 0 && view.peerScanCount == 0 && view.drift == 0.0 && !view.stale
    {
      ViewMeans(cfg, t);
      var ps := PeerStatus(false, 0, t.now, false, 0, 0, 0.0, false);
      if !PingOk(t, peerInterval) {
        failures := failures + 1;
        ps := ps.(failed := true);
        if failures == cfg.maxFailures {
          downs := downs + 1;
        }
      } else {
        failures := 0;
        ps := ps.(reachable := true);
        if t.fetched.None? {
          ps := ps.(failed := true);
        } else {
          var peer := t.fetched.value;
          ps := ps.(peerHostCount := peer.hostCount, peerScanCount := peer.scanCount,
                    stale := LooksStale(cfg, peer, t.now), drift := Drift(t.local, peer));
        }
      }
      ps := ps.(consecutiveFailures := failures);
      tracker.SetPeer(ps);
    }
  }

  /** A drift that may be shown: none when either side has no scan or both have no hosts, else the difference of the
      host counts in percent of the larger one, to within half a tenth. */
  predicate DriftShown(drift: real, local: Status, peer: Status) {
    if local.scanCount == 0 || peer.scanCount == 0 || (local.hostCount == 0 && peer.hostCount == 0) then drift == 0.0
    else
      var larger := if local.hostCount >= peer.hostCount then local.hostCount else peer.hostCount;
      var smaller := if local.hostCount >= peer.hostCount then peer.hostCount else local.hostCount;
      var exact := (larger - smaller) as real / larger as real * 100.0;
      exact - 0.05 <= drift <= exact + 0.05
  }

  lemma RoundedTenth(x: real)
    ensures x - 0.05 <= RoundTenth(x) <= x + 0.05
  {
  }

  lemma ViewMeans(cfg: Settings, t: Tick)
    ensures t.fetched.Some? ==> DriftShown(Drift(t.local, t.fetched.value), t.local, t.fetched.value)
  {
    if t.fetched.Some? {
      DriftIsClose(t.local, t.fetched.value);
    }
  }

  /** The drift is what may be shown. */
  lemma DriftIsClose(local: Status, peer: Status)
    ensures DriftShown(Drift(local, peer), local, peer)
  {
    if local.scanCount > 0 && peer.scanCount > 0 && (local.hostCount > 0 || peer.hostCount > 0) {
      var mine, theirs := local.hostCount as real, peer.hostCount as real;
      var larger := if mine > theirs then mine else theirs;
      var difference := if mine > theirs then mine - theirs else theirs - mine;
      RoundedTenth(difference / larger * 100.0);
    }
  }

  /** The flag warns before the peer is refused for age: whatever the peer's status, it is up at every refusal,
      and was up at every moment of the `lead` before it. */
  ghost predicate WarnsBefore(cfg: Settings, peerInterval: int, lead: int) {
    forall peer: Status, refused, now ::
      peer.healthy && !AnswersOk(peer, StaleAfter(peerInterval), refused) && refused - lead <= now <= refused
      ==> LooksStale(cfg, peer, now)
  }

  /** How long before, exactly: by three of the peer's intervals less two of the watchdog's own.  With equal
      intervals that is one interval; a watchdog with an interval over one and a half times the peer's gives no
      warning. */
  lemma StaleBeforeRefused(cfg: Settings, peerInterval: int, lead: int)
    requires cfg.scanInterval > 0 && peerInterval > 0 && lead >= 0
    ensures WarnsBefore(cfg, peerInterval, lead) <==> lead <= 3 * peerInterval - 2 * cfg.scanInterval
  {
    if lead > 3 * peerInterval - 2 * cfg.scanInterval {
      var peer := Status(true, 0, Some(0), 0, 0, None);
      var refused := 3 * peerInterval + 1;
      assert !AnswersOk(peer, StaleAfter(peerInterval), refused);
      var earliest := if refused - lead < 0 then 0 else refused - lead;
      var now := if refused - lead > 2 * cfg.scanInterval then refused else earliest;
      assert !LooksStale(cfg, peer, now) || !WarnsBefore(cfg, peerInterval, lead);
    }
  }

  // ---- Whole histories ------------------------------------------------------------

  /** The counter after a history of pings; true is a success. */
  function After(cfg: Settings, pings: seq<bool>): Counter {
    if pings == [] then Counter(0, 0) else Counted(cfg, After(cfg, pings[..|pings| - 1]), pings[|pings| - 1])
  }

  /** n is the length of the trailing run of failures. */
  predicate TrailingRun(pings: seq<bool>, n: nat) {
    && n <= |pings|
    && (forall k :: |pings| - n <= k < |pings| ==> !pings[k])
    && (n < |pings| ==> pings[|pings| - n - 1])
  }

  /** A failure run starts at a and has reached length m. */
  predicate OutageAt(pings: seq<bool>, a: nat, m: nat) {
    && a + m <= |pings|
    && (a == 0 || pings[a - 1])
    && forall k :: a <= k < a + m ==> !pings[k]
  }

  function Outages(pings: seq<bool>, m: nat): set<nat> {
    set a: nat | a <= |pings| && OutageAt(pings, a, m)
  }

  lemma {:induction false} FailuresAreTrailing(cfg: Settings, pings: seq<bool>)
    ensures TrailingRun(pings, After(cfg, pings).failures)
    decreases |pings|
  {
    if pings == [] {
    } else {
      FailuresAreTrailing(cfg, pings[..|pings| - 1]);
    }
  }

  /** The peer-down metric counts each outage once: it is the number of failure runs that have reached
      MaxFailures.  With MaxFailures below one it never moves. */
  lemma {:induction false} DownsCountOutages(cfg: Settings, pings: seq<bool>)
    ensures cfg.maxFailures >= 1 ==> After(cfg, pings).downs == |Outages(pings, cfg.maxFailures)|
    ensures cfg.maxFailures < 1 ==> After(cfg, pings).downs == 0
    decreases |pings|
  {
    if pings == [] {
      if cfg.maxFailures >= 1 {
        assert Outages(pings, cfg.maxFailures) == {};
      }
    } else {
      var n := |pings| - 1;
      DownsCountOutages(cfg, pings[..n]);
      if cfg.maxFailures >= 1 {
        FailuresAreTrailing(cfg, pings);
        NewOutage(pings, After(cfg, pings).failures, cfg.maxFailures);
        FailuresAreTrailing(cfg, pings[..n]);
        assert !pings[n] ==> After(cfg, pings).failures == After(cfg, pings[..n]).failures + 1;
      }
    }
  }

  /** The last ping completes an outage exactly when the trailing run is then m long. */
  lemma NewOutage(pings: seq<bool>, f: nat, m: nat)
    requires pings != [] && m >= 1 && TrailingRun(pings, f)
    ensures
      var front := pings[..|pings| - 1];
      |Outages(pings, m)| == |Outages(front, m)| + if f == m then 1 else 0
  {
    var s, t, x := Outages(pings, m), Outages(pings[..|pings| - 1], m), |pings| - m;
    forall a: nat ensures a in s <==> a in t || (f == m && a == x) {
      OutageMember(pings, f, m, a);
    }
    assert x !in t;
    OneMoreIf(s, t, x, f == m);
  }

  lemma OneMoreIf(s: set<nat>, t: set<nat>, x: int, b: bool)
    requires forall a: nat :: a in s <==> a in t || (b && a == x)
    requires x !in t && (b ==> x >= 0)
    ensures |s| == |t| + if b then 1 else 0
  {
    if b {
      assert s == t + {x};
    } else {
      assert s == t;
    }
  }

  lemma OutageMember(pings: seq<bool>, f: nat, m: nat, a: nat)
    requires pings != [] && m >= 1 && TrailingRun(pings, f)
    ensures
      var front := pings[..|pings| - 1];
      a <= |pings| && OutageAt(pings, a, m) <==> (a <= |front| && OutageAt(front, a, m)) || (f == m && a == |pings| - m)
  {
    if a + m < |pings| {
      EarlierOutage(pings, a, m);
    } else if a + m == |pings| {
      if f == m {
        assert OutageAt(pings, a, m);
      } else {
        LastNotComplete(pings, f, m);
      }
    }
  }

  lemma EarlierOutage(pings: seq<bool>, a: nat, m: nat)
    requires a + m < |pings|
    ensures OutageAt(pings, a, m) <==> OutageAt(pings[..|pings| - 1], a, m)
  {
    var front := pings[..|pings| - 1];
    assert forall k :: 0 <= k < |front| ==> front[k] == pings[k];
  }

  lemma LastNotComplete(pings: seq<bool>, f: nat, m: nat)
    requires pings != [] && m >= 1 && TrailingRun(pings, f) && f != m && |pings| >= m
    ensures !OutageAt(pings, |pings| - m, m)
  {
    assert f < m ==> pings[|pings| - f - 1];
    assert f > m ==> !pings[|pings| - m - 1];
  }

  /** After any history the published count is the length of the trailing run of failed pings, and the peer is
      published as reachable exactly when that length is zero. */
  lemma PublishedView(cfg: Settings, pings: seq<bool>, t: Tick, ok: bool)
    requires pings != [] && pings[|pings| - 1] == ok
    ensures
      var ps := Published(cfg, After(cfg, pings), t, ok);
      && TrailingRun(pings, ps.consecutiveFailures)
      && (ps.reachable <==> ps.consecutiveFailures == 0)
  {
    FailuresAreTrailing(cfg, pings);
  }

  // ---- Detection time ---------------------------------------------------------------

  function Pings(ticks: seq<Tick>, peerInterval: int): (r: seq<bool>)
    ensures |r| == |ticks|
    ensures forall k :: 0 <= k < |r| ==> r[k] == PingOk(ticks[k], peerInterval)
  {
    if ticks == [] then [] else Pings(ticks[..|ticks| - 1], peerInterval) + [PingOk(ticks[|ticks| - 1], peerInterval)]
  }

  /** Ticks are at most w apart and in order. */
  predicate Regular(ticks: seq<Tick>, w: int) {
    forall k :: 0 < k < |ticks| ==> ticks[k - 1].now <= ticks[k].now <= ticks[k - 1].now + w
  }

  /** The peer records no scan after the one at `last`; its server may still answer.  Earlier ticks may have seen
      earlier scans or none. */
  predicate Frozen(ticks: seq<Tick>, last: int) {
    forall k :: 0 <= k < |ticks| && ticks[k].now > last ==> ticks[k].peer.lastScanAt == Some(last)
  }

  /** Failures after the first j + 1 ticks. */
  function FailuresAt(cfg: Settings, ticks: seq<Tick>, peerInterval: int, j: nat): nat
    requires j < |ticks|
  {
    After(cfg, Pings(ticks, peerInterval)[..j + 1]).failures
  }

  lemma FailuresStep(cfg: Settings, ticks: seq<Tick>, peerInterval: int, j: nat)
    requires j < |ticks|
    ensures FailuresAt(cfg, ticks, peerInterval, j) ==
            if PingOk(ticks[j], peerInterval) then 0
            else if j == 0 then 1
            else FailuresAt(cfg, ticks, peerInterval, j - 1) + 1
  {
    var pings := Pings(ticks, peerInterval);
    assert pings[..j + 1][..j] == pings[..j];
    assert pings[..j + 1][j] == pings[j];
    assert j == 0 ==> pings[..j] == [] && After(cfg, pings[..j]) == Counter(0, 0);
  }

  /** The moment from which every tick fails: the last scan is three intervals old, or the watchdog was started
      later than that (its first tick comes w after its start). */
  function TooOld(ticks: seq<Tick>, peerInterval: int, last: int, w: int): (d: int)
    requires ticks != []
    ensures d >= last + 3 * peerInterval && ticks[0].now <= d + w
    ensures ticks[0].now <= last + 3 * peerInterval + w ==> d == last + 3 * peerInterval
  {
    if ticks[0].now - w > last + 3 * peerInterval then ticks[0].now - w else last + 3 * peerInterval
  }

  /** From that moment on every tick adds a failure: the count times the tick spacing covers the time that has
      passed since. */
  lemma {:induction false} FailuresCoverTime(cfg: Settings, ticks: seq<Tick>, peerInterval: int, last: int, w: int,
      j: nat)
    requires peerInterval > 0 && w > 0 && Regular(ticks, w) && Frozen(ticks, last) && j < |ticks|
    requires ticks[j].now > TooOld(ticks, peerInterval, last, w)
    ensures FailuresAt(cfg, ticks, peerInterval, j) * w >= ticks[j].now - TooOld(ticks, peerInterval, last, w)
    decreases j
  {
    FailuresStep(cfg, ticks, peerInterval, j);
    assert !PingOk(ticks[j], peerInterval);
    var d := TooOld(ticks, peerInterval, last, w);
    if j > 0 && ticks[j - 1].now > d {
      FailuresCoverTime(cfg, ticks, peerInterval, last, w, j - 1);
      var f := FailuresAt(cfg, ticks, peerInterval, j - 1);
      assert (f + 1) * w == f * w + w;
    } else {
      AtLeastOne(FailuresAt(cfg, ticks, peerInterval, j), w);
    }
  }

  lemma AtLeastNone(f: int, w: int)
    requires f >= 0 && w > 0
    ensures f * w >= 0
  {
  }

  lemma AtLeastOne(f: int, w: int)
    requires f >= 1 && w > 0
    ensures f * w >= w
  {
  }

  /** Bounded detection: a peer whose scan loop stops after a scan at `last` has reached MaxFailures at every tick
      from last + 3 * ScanInterval + MaxFailures * w on, even if its server answers every ping. */
  lemma WedgedPeerDetected(cfg: Settings, ticks: seq<Tick>, peerInterval: int, last: int, w: int, j: nat)
    requires peerInterval > 0 && w > 0 && cfg.maxFailures >= 1
    requires Regular(ticks, w) && Frozen(ticks, last) && j < |ticks|
    requires ticks[j].now >= TooOld(ticks, peerInterval, last, w) + cfg.maxFailures * w
    ensures FailuresAt(cfg, ticks, peerInterval, j) >= cfg.maxFailures
  {
    AtLeastOne(cfg.maxFailures, w);
    FailuresCoverTime(cfg, ticks, peerInterval, last, w, j);
    Cancel(FailuresAt(cfg, ticks, peerInterval, j), cfg.maxFailures, w);
  }

  lemma Cancel(f: int, m: int, w: int)
    requires w > 0 && f * w >= m * w
    ensures f >= m
  {
    if f < m {
      MulUp(w, f + 1, m);
    }
  }

  /** The bound is met by a tick: if ticks go on that long, one at or before it has m failures, for every m. */
  lemma {:induction false} DetectedInTime(cfg: Settings, ticks: seq<Tick>, peerInterval: int, last: int, w: int,
      m: nat) returns (j: nat)
    requires peerInterval > 0 && w > 0 && m >= 1
    requires Regular(ticks, w) && Frozen(ticks, last) && ticks != []
    requires ticks[|ticks| - 1].now >= TooOld(ticks, peerInterval, last, w) + m * w
    ensures j < |ticks|
    ensures TooOld(ticks, peerInterval, last, w) < ticks[j].now <= TooOld(ticks, peerInterval, last, w) + m * w
    ensures FailuresAt(cfg, ticks, peerInterval, j) >= m
    decreases m
  {
    var d := TooOld(ticks, peerInterval, last, w);
    if m == 1 {
      j := FirstAfter(ticks, d, w);
    } else {
      assert m * w == (m - 1) * w + w;
      var i := DetectedInTime(cfg, ticks, peerInterval, last, w, m - 1);
      assert i < |ticks| - 1;
      j := i + 1;
    }
    FailuresStep(cfg, ticks, peerInterval, j);
    assert !PingOk(ticks[j], peerInterval);
  }

  lemma {:induction false} FirstAfter(ticks: seq<Tick>, d: int, w: int) returns (j: nat)
    requires ticks != [] && w > 0 && Regular(ticks, w) && ticks[0].now <= d + w && ticks[|ticks| - 1].now > d
    ensures j < |ticks| && d < ticks[j].now <= d + w
    decreases |ticks|
  {
    var n := |ticks| - 1;
    if n == 0 || ticks[n - 1].now <= d {
      j := n;
    } else {
      j := FirstAfter(ticks[..n], d, w);
    }
  }

  /** No false alarm, exactly: the count stays zero through all ticks exactly when every ping reaches a healthy peer
      whose last scan, if any, is at most three intervals old. */
  lemma NoFalseAlarm(cfg: Settings, ticks: seq<Tick>, peerInterval: int)
    requires peerInterval > 0
    ensures (forall j :: 0 <= j < |ticks| ==> FailuresAt(cfg, ticks, peerInterval, j) == 0)
            <==> forall j :: 0 <= j < |ticks| ==> Fresh(ticks[j], peerInterval)
  {
    forall j | 0 <= j < |ticks|
      ensures FailuresAt(cfg, ticks, peerInterval, j) == 0 <==> Fresh(ticks[j], peerInterval)
    {
      FailuresStep(cfg, ticks, peerInterval, j);
    }
  }

  predicate Fresh(t: Tick, peerInterval: int) {
    && t.reached && t.peer.healthy
    && (t.peer.lastScanAt.Some? ==> t.now - t.peer.lastScanAt.value <= 3 * peerInterval)
  }

  /** Drift is symmetric and a percentage, and it is all or nothing when one side has no hosts. */
  lemma DriftIsPercentage(a: Status, b: Status)
    ensures Drift(a, b) == Drift(b, a)
    ensures 0.0 <= Drift(a, b) <= 100.0
    ensures a.scanCount > 0 && b.scanCount > 0 && a.hostCount == 0 && b.hostCount > 0 ==> Drift(a, b) == 100.0
  {
    if a.scanCount > 0 && b.scanCount > 0 && (a.hostCount > 0 || b.hostCount > 0) {
      var mine, theirs := a.hostCount as real, b.hostCount as real;
      var larger := if mine > theirs then mine else theirs;
      var difference := if mine > theirs then mine - theirs else theirs - mine;
      assert 0.0 <= difference <= larger && larger > 0.0;
      Share(difference, larger);
      TenthBounds(difference / larger * 100.0);
    }
  }

  lemma Share(d: real, l: real)
    requires 0.0 <= d <= l && l > 0.0
    ensures 0.0 <= d / l <= 1.0
    ensures d == l ==> d / l == 1.0
  {
    var q := d / l;
    assert q * l == d;
    RealMul(q, l);
  }

  lemma RealMul(q: real, l: real)
    requires l > 0.0
    ensures q > 1.0 ==> q * l > l
    ensures q < 1.0 ==> q * l < l
    ensures q < 0.0 ==> q * l < 0.0
  {
    assert q > 1.0 ==> (q - 1.0) * l > 0.0;
    assert q < 1.0 ==> (1.0 - q) * l > 0.0;
  }

  lemma TenthBounds(x: real)
    requires 0.0 <= x <= 100.0
    ensures 0.0 <= RoundTenth(x) <= 100.0
    ensures x == 100.0 ==> RoundTenth(x) == 100.0
  {
  }
}
