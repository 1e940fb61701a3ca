/** The status an agent publishes about itself and the answer its /health endpoint gives. */
module Health {
  import opened Options

  /** The watchdog's view of the other agent. */
  datatype PeerStatus = PeerStatus(
    reachable: bool,
    consecutiveFailures: nat,
    lastCheckedAt: int,
    failed: bool,
    peerHostCount: nat,
    peerScanCount: nat,
    drift: real,
    stale: bool)

  datatype Status = Status(
    healthy: bool,
    startedAt: int,
    lastScanAt: Option<int>,
    hostCount: nat,
    scanCount: nat,
    peer: Option<PeerStatus>)

  /** A concurrency-safe holder: each method is one critical section. */
  class Tracker {
    var status: Status

    constructor (now: int)
      ensures status == Status(true, now, None, 0, 0, None)
    {
      status := Status(true, now, None, 0, 0, None);
    }

    method SetHostCount(n: nat)
      modifies this
      ensures status == old(status).(hostCount := n)
    {
      status := status.(hostCount := n);
    }

    method RecordScan(now: int)
      modifies this
      ensures status == old(status).(lastScanAt := Some(now), scanCount := old(status).scanCount + 1)
    {
      status := status.(lastScanAt := Some(now), scanCount := status.scanCount + 1);
    }

    method SetHealthy(ok: bool)
      modifies this
      ensures status == old(status).(healthy := ok)
    {
      status := status.(healthy := ok);
    }

    method SetPeer(p: PeerStatus)
      modifies this
      ensures status == old(status).(peer := Some(p))
    {
      status := status.(peer := Some(p));
    }
  }

  /** handleHealth: whether the answer is 200 OK; otherwise it is 503. */
  predicate AnswersOk(st: Status, staleAfter: int, now: int) {
    st.healthy && !(staleAfter > 0 && st.lastScanAt.Some? && now - st.lastScanAt.value > staleAfter)
  }

  /** From this moment on the frozen status is never answered with 200. */
  ghost predicate RefusedFrom(st: Status, staleAfter: int, from: int) {
    forall now :: now >= from ==> !AnswersOk(st, staleAfter, now)
  }

  /** A status that no longer changes is refused for good from some moment on exactly when it is unhealthy, or a
      scan has been recorded and the freshness check is on.  A scan loop that hangs in its first scan is never
      refused. */
  lemma FrozenStatusDetectedExactly(st: Status, staleAfter: int)
    ensures (exists from :: RefusedFrom(st, staleAfter, from))
        <==> !st.healthy || (staleAfter > 0 && st.lastScanAt.Some?)
  {
    if !st.healthy || (staleAfter > 0 && st.lastScanAt.Some?) {
      assert RefusedFrom(st, staleAfter, if st.healthy then st.lastScanAt.value + staleAfter + 1 else 0);
    } else {
      forall from ensures !RefusedFrom(st, staleAfter, from) {
        assert AnswersOk(st, staleAfter, from);
      }
    }
  }
}
