/**
Whether a watchdog ever takes a working agent for down: the agent records a scan at the end of
each cycle, and its /health answers 503 when the last one is older than the freshness limit.
*/
module PeerHealth {
  import opened Arith
  import opened Options
  import opened Config
  import opened Store
  import opened Health
  import opened Agent
  import opened AgentRuns
  import W = Watchdog

  /** No scan and not the count of cycle k failed. */
  predicate CleanAt(cfg: Settings, st: Loop, ins: seq<Input>, k: nat) {
    k < |ins| && Swept(cfg, After(cfg, st, ins[..k]), ins[k]).healthy && ins[k].countOk
  }

  /** Every cycle is clean, and cycles end in order. */
  ghost predicate Clean(cfg: Settings, st: Loop, ins: seq<Input>) {
    && (forall k: nat :: k < |ins| ==> CleanAt(cfg, st, ins, k))
    && (forall j, k :: 0 <= j < k < |ins| ==> ins[j].recordedAt <= ins[k].recordedAt)
  }

  /** A moment after the first k cycles have ended and before the next one has. */
  predicate During(ins: seq<Input>, k: nat, now: int)
    requires k < |ins|
  {
    (k > 0 ==> ins[k - 1].recordedAt <= now) && now <= ins[k].recordedAt
  }

  /** What a fresh tracker shows then. */
  function Seen(cfg: Settings, st: Loop, ins: seq<Input>, k: nat): Status
    requires k < |ins|
  {
    StatusAfter(cfg, st, ins[..k], Status(true, 0, None, 0, 0, None))
  }

  /** At a moment of a clean run the agent refuses exactly when its last cycle ended longer ago than the limit. */
  lemma RefusedExactly(cfg: Settings, st: Loop, ins: seq<Input>, k: nat, limit: int, now: int)
    requires Clean(cfg, st, ins) && limit > 0 && k < |ins|
    ensures !AnswersOk(Seen(cfg, st, ins, k), limit, now) <==> k > 0 && now - ins[k - 1].recordedAt > limit
  {
    if k > 0 {
      assert CleanAt(cfg, st, ins, k - 1);
      assert ins[..k][..k - 1] == ins[..k - 1] && ins[..k][k - 1] == ins[k - 1];
      HealthyExactly(cfg, After(cfg, st, ins[..k - 1]), ins[k - 1]);
      StatusAfterRun(cfg, st, ins[..k], Status(true, 0, None, 0, 0, None), limit, now);
    }
  }

  ghost predicate NeverRefused(cfg: Settings, st: Loop, ins: seq<Input>, limit: int) {
    forall k: nat, now :: k < |ins| && During(ins, k, now) ==> AnswersOk(Seen(cfg, st, ins, k), limit, now)
  }

  /** A clean run is never refused exactly when consecutive cycles end at most the limit apart. */
  lemma NeverRefusedExactly(cfg: Settings, st: Loop, ins: seq<Input>, limit: int)
    requires Clean(cfg, st, ins) && limit > 0
    ensures NeverRefused(cfg, st, ins, limit)
        <==> forall k :: 0 < k < |ins| ==> ins[k].recordedAt - ins[k - 1].recordedAt <= limit
  {
    if NeverRefused(cfg, st, ins, limit) {
      forall k | 0 < k < |ins| ensures ins[k].recordedAt - ins[k - 1].recordedAt <= limit {
        assert During(ins, k, ins[k].recordedAt);
        RefusedExactly(cfg, st, ins, k, limit, ins[k].recordedAt);
      }
    } else {
      var k: nat, now :| k < |ins| && During(ins, k, now) && !AnswersOk(Seen(cfg, st, ins, k), limit, now);
      RefusedExactly(cfg, st, ins, k, limit, now);
    }
  }

  // ---- Late ticks --------------------------------------------------------------------

  predicate Ascending(ends: seq<int>) {
    forall j, k :: 0 <= j < k < |ends| ==> ends[j] <= ends[k]
  }

  /** Moment `now` lies between end k - 1 and end k, and more than the limit after the former. */
  predicate Late(ends: seq<int>, k: nat, now: int, limit: int) {
    0 < k < |ends| && ends[k - 1] + limit < now <= ends[k]
  }

  /** Two late moments no further apart than the limit lie between the same two ends. */
  lemma SameGap(ends: seq<int>, a: nat, b: nat, now: int, w: int, limit: int)
    requires Ascending(ends) && 0 < w <= limit && Late(ends, a, now, limit) && Late(ends, b, now + w, limit)
    ensures a == b
  {
  }

  predicate Spaced(times: seq<int>, w: int) {
    forall i :: 0 < i < |times| ==> times[i] == times[i - 1] + w
  }

  /** A run of m late moments w apart lies in one gap, which is longer than the limit and m - 1 times w. */
  lemma {:induction false} LateRun(ends: seq<int>, times: seq<int>, ks: seq<nat>, w: int, limit: int, i: nat, m: nat)
    requires Ascending(ends) && 0 < w <= limit && Spaced(times, w) && |ks| == |times| && 1 <= m <= i + 1 <= |times|
    requires forall j :: i + 1 - m <= j <= i ==> Late(ends, ks[j], times[j], limit)
    ensures Late(ends, ks[i], times[i], limit + (m - 1) * w)
    decreases m
  {
    if m == 1 {
    } else {
      LateRun(ends, times, ks, w, limit, i - 1, m - 1);
      SameGap(ends, ks[i - 1], ks[i], times[i - 1], w, limit);
      TimesNext(m - 2, w);
    }
  }

  // ---- What the watchdog counts -------------------------------------------------------

  function Ends(ins: seq<Input>): (r: seq<int>)
    ensures |r| == |ins| && forall k :: 0 <= k < |r| ==> r[k] == ins[k].recordedAt
  {
    seq(|ins|, k requires 0 <= k < |ins| => ins[k].recordedAt)
  }

  function Times(ticks: seq<W.Tick>): (r: seq<int>)
    ensures |r| == |ticks| && forall i :: 0 <= i < |r| ==> r[i] == ticks[i].now
  {
    seq(|ticks|, i requires 0 <= i < |ticks| => ticks[i].now)
  }

  /** The tick reaches the agent's server after k cycles have ended. */
  predicate Finds(cfg: Settings, st: Loop, ins: seq<Input>, t: W.Tick, k: nat) {
    t.reached && k < |ins| && During(ins, k, t.now) && t.peer == Seen(cfg, st, ins, k)
  }

  /** Ticks exactly w apart, each of which finds the agent. */
  ghost predicate Watches(cfg: Settings, st: Loop, ins: seq<Input>, ticks: seq<W.Tick>, ks: seq<nat>, w: int) {
    && |ks| == |ticks| && Spaced(Times(ticks), w)
    && forall i :: 0 <= i < |ticks| ==> Finds(cfg, st, ins, ticks[i], ks[i])
  }

  /** Some such watchdog counts m failures in a row. */
  ghost predicate CanCount(cfg: Settings, st: Loop, ins: seq<Input>, peerInterval: int, wd: W.Settings, w: int,
      m: nat) {
    exists ticks: seq<W.Tick>, ks: seq<nat> ::
      Watches(cfg, st, ins, ticks, ks, w) && W.After(wd, W.Pings(ticks, peerInterval)).failures >= m
  }

  /** A tick fails exactly when it is late. */
  lemma FailsLate(cfg: Settings, st: Loop, ins: seq<Input>, t: W.Tick, k: nat, peerInterval: int)
    requires Clean(cfg, st, ins) && peerInterval > 0 && Finds(cfg, st, ins, t, k)
    ensures !W.PingOk(t, peerInterval) <==> Late(Ends(ins), k, t.now, W.StaleAfter(peerInterval))
  {
    RefusedExactly(cfg, st, ins, k, W.StaleAfter(peerInterval), t.now);
  }

  /** Consecutive ends further apart than the limit and m - 1 ticks. */
  predicate WideGap(ends: seq<int>, k: nat, limit: int, w: int, m: nat) {
    0 < k < |ends| && ends[k] - ends[k - 1] > limit + (m - 1) * w
  }

  lemma CountNeedsGap(
    cfg: Settings, st: Loop, ins: seq<Input>, ticks: seq<W.Tick>, ks: seq<nat>, peerInterval: int, wd: W.Settings,
        w: int, m: nat)
    requires Clean(cfg, st, ins) && peerInterval > 0 && 0 < w <= W.StaleAfter(peerInterval) && m >= 1
    requires Watches(cfg, st, ins, ticks, ks, w) && W.After(wd, W.Pings(ticks, peerInterval)).failures >= m
    ensures exists k: nat :: WideGap(Ends(ins), k, W.StaleAfter(peerInterval), w, m)
  {
    var ends, limit, i := Ends(ins), W.StaleAfter(peerInterval), |ticks| - 1;
    LastFailed(wd, W.Pings(ticks, peerInterval), m);
    forall j | i + 1 - m <= j <= i ensures Late(ends, ks[j], Times(ticks)[j], limit) {
      FailsLate(cfg, st, ins, ticks[j], ks[j], peerInterval);
    }
    LateRun(ends, Times(ticks), ks, w, limit, i, m);
    LateIsWide(ends, ks[i], Times(ticks)[i], limit, w, m);
  }

  lemma LastFailed(wd: W.Settings, pings: seq<bool>, m: nat)
    requires W.After(wd, pings).failures >= m
    ensures m <= |pings| && forall j :: |pings| - m <= j < |pings| ==> !pings[j]
  {
    W.FailuresAreTrailing(wd, pings);
  }

  lemma LateIsWide(ends: seq<int>, k: nat, now: int, limit: int, w: int, m: nat)
    requires Late(ends, k, now, limit + (m - 1) * w)
    ensures WideGap(ends, k, limit, w, m)
  {
  }

  /** m ticks w apart that all find the agent in one state. */
  function TicksFrom(peer: Status, first: int, w: int, m: nat): (r: seq<W.Tick>)
    ensures |r| == m && forall i :: 0 <= i < m ==> r[i] == W.Tick(first + i * w, true, peer, None, peer)
  {
    seq(m, i => W.Tick(first + i * w, true, peer, None, peer))
  }

  lemma TicksSpaced(peer: Status, first: int, w: int, m: nat)
    ensures Spaced(Times(TicksFrom(peer, first, w, m)), w)
  {
    forall i | 0 < i < m
        ensures Times(TicksFrom(peer, first, w, m))[i] == Times(TicksFrom(peer, first, w, m))[i - 1] + w {
      TimesNext(i - 1, w);
    }
  }

  /** Tick i of m that fill a wide gap is late. */
  lemma FillsGap(ends: seq<int>, k: nat, limit: int, w: int, m: nat, i: nat)
    requires WideGap(ends, k, limit, w, m) && w > 0 && limit > 0 && i < m
    ensures Late(ends, k, ends[k - 1] + limit + 1 + i * w, limit)
  {
    W.AtLeastNone(i, w);
    MulUp(w, i, m - 1);
  }

  lemma AllFailed(wd: W.Settings, pings: seq<bool>)
    requires forall i :: 0 <= i < |pings| ==> !pings[i]
    ensures W.After(wd, pings).failures == |pings|
  {
    W.FailuresAreTrailing(wd, pings);
  }

  lemma GapTick(cfg: Settings, st: Loop, ins: seq<Input>, k: nat, peerInterval: int, t: W.Tick)
    requires Clean(cfg, st, ins) && peerInterval > 0 && Late(Ends(ins), k, t.now, W.StaleAfter(peerInterval))
    requires t.reached && t.peer == Seen(cfg, st, ins, k)
    ensures Finds(cfg, st, ins, t, k) && !W.PingOk(t, peerInterval)
  {
    FailsLate(cfg, st, ins, t, k, peerInterval);
  }

  lemma GapIsCounted(cfg: Settings, st: Loop, ins: seq<Input>, k: nat, peerInterval: int, wd: W.Settings, w: int,
      m: nat)
    requires Clean(cfg, st, ins) && peerInterval > 0 && w > 0 && m >= 1
    requires WideGap(Ends(ins), k, W.StaleAfter(peerInterval), w, m)
    ensures CanCount(cfg, st, ins, peerInterval, wd, w, m)
  {
    var first := Ends(ins)[k - 1] + W.StaleAfter(peerInterval) + 1;
    var ticks, ks := TicksFrom(Seen(cfg, st, ins, k), first, w, m), seq(m, i => k);
    TicksSpaced(Seen(cfg, st, ins, k), first, w, m);
    forall i | 0 <= i < m ensures Finds(cfg, st, ins, ticks[i], ks[i]) && !W.PingOk(ticks[i], peerInterval) {
      FillsGap(Ends(ins), k, W.StaleAfter(peerInterval), w, m, i);
      GapTick(cfg, st, ins, k, peerInterval, ticks[i]);
    }
    AllFailed(wd, W.Pings(ticks, peerInterval));
    assert Watches(cfg, st, ins, ticks, ks, w);
  }

  /** When a working agent is reported down, exactly: a watchdog whose ticks are w apart, and no further than the
      freshness limit, can count m failures of a clean run exactly when two consecutive cycles end further apart
      than the limit and m - 1 ticks. */
  lemma CountedDownExactly(cfg: Settings, st: Loop, ins: seq<Input>, peerInterval: int, wd: W.Settings, w: int, m: nat)
    requires Clean(cfg, st, ins) && peerInterval > 0 && 0 < w <= W.StaleAfter(peerInterval) && m >= 1
    ensures CanCount(cfg, st, ins, peerInterval, wd, w, m)
        <==> exists k: nat :: WideGap(Ends(ins), k, W.StaleAfter(peerInterval), w, m)
  {
    if CanCount(cfg, st, ins, peerInterval, wd, w, m) {
      var ticks: seq<W.Tick>, ks: seq<nat> :|
        Watches(cfg, st, ins, ticks, ks, w) && W.After(wd, W.Pings(ticks, peerInterval)).failures >= m;
      CountNeedsGap(cfg, st, ins, ticks, ks, peerInterval, wd, w, m);
    }
    if k: nat :| WideGap(Ends(ins), k, W.StaleAfter(peerInterval), w, m) {
      GapIsCounted(cfg, st, ins, k, peerInterval, wd, w, m);
    }
  }

  // ---- Profiles slower than the limit ---------------------------------------------------

  /** A cycle that takes no time and in which nothing fails. */
  function Quiet(t: int, force: bool): Input {
    Input(t, force, true, s => Scanned(0, []), true, {}, true, true, t)
  }

  lemma QuietIsHealthy(cfg: Settings, st: Loop, t: int, force: bool)
    ensures Swept(cfg, st, Quiet(t, force)).healthy
  {
    HealthyExactly(cfg, st, Quiet(t, force));
  }

  lemma QuietRunIsClean(cfg: Settings, st: Loop, t: int)
    requires t >= 0
    ensures Clean(cfg, st, [Quiet(0, true), Quiet(t, false)])
  {
    var ins := [Quiet(0, true), Quiet(t, false)];
    QuietIsHealthy(cfg, After(cfg, st, ins[..0]), 0, true);
    QuietIsHealthy(cfg, After(cfg, st, ins[..1]), t, false);
  }

  /** Nothing compares the profiles' intervals with the global one the freshness limit is made of.  An agent whose only
      profile is slow enough is counted down between two clean cycles one tick apart. */
  lemma SlowProfileCountedDown(p: Resolved, peerInterval: int, wd: W.Settings, w: int, m: nat)
    requires peerInterval > 0 && 0 < w <= W.StaleAfter(peerInterval) && m >= 1
    requires p.scanInterval > W.StaleAfter(peerInterval) + (m - 1) * w
    ensures
      var cfg, st := Settings([p], 0), Loop(map[], EMPTY);
      var ins := [Quiet(0, true), Quiet(p.scanInterval, false)];
      Clean(cfg, st, ins) && CanCount(cfg, st, ins, peerInterval, wd, w, m)
  {
    var cfg, st := Settings([p], 0), Loop(map[], EMPTY);
    var ins := [Quiet(0, true), Quiet(p.scanInterval, false)];
    W.AtLeastNone(m - 1, w);
    QuietRunIsClean(cfg, st, p.scanInterval);
    assert WideGap(Ends(ins), 1, W.StaleAfter(peerInterval), w, m);
    CountedDownExactly(cfg, st, ins, peerInterval, wd, w, m);
  }

  /** With the default interval of five minutes, ticks every thirty seconds and three failures, hourly profiles are
      enough. */
  lemma HourlyProfileCountedDown(p: Resolved, wd: W.Settings)
    requires p.scanInterval == 3600 * SECOND
    ensures
      var cfg, st := Settings([p], 0), Loop(map[], EMPTY);
      var ins := [Quiet(0, true), Quiet(p.scanInterval, false)];
      Clean(cfg, st, ins) && CanCount(cfg, st, ins, 300 * SECOND, wd, 30 * SECOND, 3)
  {
    SlowProfileCountedDown(p, 300 * SECOND, wd, 30 * SECOND, 3);
  }
}
