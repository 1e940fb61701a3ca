/**
On-demand scans: requesters send on a channel of capacity one without blocking, and the
scan loop receives from it between cycles.  Any interleaving of requests, ticks, receives
and cycle ends is a run.
*/
module Trigger {

  datatype Action =
    | Ask        // a requester calls Trigger
    | Tick       // the loop starts an unforced cycle
    | Take       // the loop receives the token and starts a forced cycle
    | EndCycle   // the running cycle ends
    | Stop       // the context is cancelled and the loop returns

  /** `pending` is the token in the channel; the counters are what requesters and the loop have observed. */
  datatype State = State(pending: bool, busy: bool, stopped: bool, accepted: nat, refused: nat, taken: nat)

  /** The loop starts with a forced cycle of its own. */
  const INIT := State(false, true, false, 0, 0, 0)

  predicate Enabled(s: State, a: Action) {
    match a
    case Ask => true
    case Tick => !s.busy && !s.stopped
    case Take => !s.busy && !s.stopped && s.pending
    case EndCycle => s.busy
    case Stop => !s.busy && !s.stopped
  }

  function Apply(s: State, a: Action): State {
    match a
    case Ask => if s.pending then s.(refused := s.refused + 1) else s.(pending := true, accepted := s.accepted + 1)
    case Tick => s.(busy := true)
    case Take => s.(pending := false, busy := true, taken := s.taken + 1)
    case EndCycle => s.(busy := false)
    case Stop => s.(stopped := true)
  }

  function After(run: seq<Action>): State {
    if run == [] then INIT else Apply(After(run[..|run| - 1]), run[|run| - 1])
  }

  predicate IsRun(run: seq<Action>) {
    forall k :: 0 <= k < |run| ==> Enabled(After(run[..k]), run[k])
  }

  /** Requests made since the loop last took a token. */
  function Waiting(run: seq<Action>): nat {
    if run == [] then 0
    else
      match run[|run| - 1]
      case Take => 0
      case Ask => Waiting(run[..|run| - 1]) + 1
      case _ => Waiting(run[..|run| - 1])
  }

  function Count(run: seq<Action>, a: Action): nat {
    if run == [] then 0 else Count(run[..|run| - 1], a) + if run[|run| - 1] == a then 1 else 0
  }

  /** In every interleaving a token is pending exactly when some request came after the last one taken; accepted
      requests exceed taken tokens by at most that one; every request is accepted or refused. */
  lemma {:induction false} PendingExactly(run: seq<Action>)
    requires IsRun(run)
    ensures
      var s := After(run);
      && (s.pending <==> Waiting(run) > 0)
      && s.accepted == s.taken + (if Waiting(run) > 0 then 1 else 0)
      && s.accepted + s.refused == Count(run, Ask)
      && s.taken == Count(run, Take)
    decreases |run|
  {
    if run == [] {
    } else {
      var n := |run| - 1;
      assert forall k :: 0 <= k < n ==> run[..n][..k] == run[..k];
      PendingExactly(run[..n]);
      assert Enabled(After(run[..n]), run[n]);
    }
  }

  /** A request that is refused is refused because an earlier one is still waiting; either way a token is pending
      right after it. */
  lemma EveryRequestLeavesAToken(run: seq<Action>, k: nat)
    requires IsRun(run) && k < |run| && run[k] == Ask
    ensures After(run[..k + 1]).pending
    ensures After(run[..k + 1]).refused > After(run[..k]).refused <==> Waiting(run[..k]) > 0
  {
    assert run[..k + 1][..k] == run[..k];
    PrefixIsRun(run, k);
    PendingExactly(run[..k]);
  }

  lemma PrefixIsRun(run: seq<Action>, k: nat)
    requires IsRun(run) && k <= |run|
    ensures IsRun(run[..k])
  {
    assert forall j :: 0 <= j < k ==> run[..k][..j] == run[..j];
  }

  /** No request is lost: after it the loop takes a token, which starts a forced cycle later than the request, or
      the token is still pending at the end of the run. */
  lemma {:induction false} NoRequestLost(run: seq<Action>, k: nat)
    requires IsRun(run) && k < |run| && run[k] == Ask
    ensures After(run).pending || exists j :: k < j < |run| && run[j] == Take
  {
    if forall j :: k < j < |run| ==> run[j] != Take {
      StillWaiting(run, k, |run|);
      assert run[..|run|] == run;
      PendingExactly(run);
    }
  }

  lemma {:induction false} StillWaiting(run: seq<Action>, k: nat, m: nat)
    requires k < m <= |run| && run[k] == Ask
    requires forall j :: k < j < m ==> run[j] != Take
    ensures Waiting(run[..m]) > 0
    decreases m
  {
    var n := m - 1;
    assert run[..m][..n] == run[..n];
    if n > k {
      StillWaiting(run, k, n);
    }
  }

  /** Coalescing: between two tokens taken in a row exactly one request was accepted. */
  lemma OneAcceptedBetweenTakes(run: seq<Action>, j: nat, k: nat)
    requires IsRun(run) && j < k < |run| && run[j] == Take && run[k] == Take
    requires forall i :: j < i < k ==> run[i] != Take
    ensures After(run[..k]).accepted == After(run[..j + 1]).accepted + 1
    ensures exists i :: j < i < k && run[i] == Ask
  {
    PrefixIsRun(run, k);
    PrefixIsRun(run, j + 1);
    PendingExactly(run[..k]);
    PendingExactly(run[..j + 1]);
    assert run[..j + 1][..j] == run[..j];
    assert Enabled(After(run[..k]), run[k]);
    TakenSame(run, j + 1, k);
    if forall i :: j < i < k ==> run[i] != Ask {
      NobodyWaiting(run, j, k);
    }
  }

  lemma {:induction false} TakenSame(run: seq<Action>, j: nat, k: nat)
    requires j <= k <= |run| && forall i :: j <= i < k ==> run[i] != Take
    ensures Count(run[..k], Take) == Count(run[..j], Take)
    decreases k
  {
    if j < k {
      assert run[..k][..k - 1] == run[..k - 1];
      TakenSame(run, j, k - 1);
    }
  }

  lemma {:induction false} NobodyWaiting(run: seq<Action>, j: nat, k: nat)
    requires j < k <= |run| && run[j] == Take
    requires forall i :: j < i < k ==> run[i] != Ask
    ensures Waiting(run[..k]) == 0
    decreases k
  {
    assert run[..k][..k - 1] == run[..k - 1];
    if j < k - 1 {
      NobodyWaiting(run, j, k - 1);
    }
  }
}
