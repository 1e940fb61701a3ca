/** The liveness probe: all ports are dialled at once and the first answer wins. */
module Liveness {

  /** What one dial sends back, in the order the results arrive. */
  datatype DialResult = DialResult(port: int, ok: bool)

  predicate Answered(r: DialResult) { r.ok && r.port != 0 }

  /** probe: the port of the first dial that succeeded, and whether there is one.  Port 0 doubles as "none yet",
      so a success on port 0 is not seen. */
  method Probe(results: seq<DialResult>) returns (port: int, alive: bool)
    ensures alive <==> exists k :: 0 <= k < |results| && Answered(results[k])
    ensures alive ==> exists k :: 0 <= k < |results| && Answered(results[k]) && port == results[k].port
                                  && forall j :: 0 <= j < k ==> !Answered(results[j])
    ensures !alive ==> port == 0
  {
    var firstOpen := 0;
    for i := 0 to |results|
      invariant firstOpen == 0 ==> forall j :: 0 <= j < i ==> !Answered(results[j])
      invariant firstOpen != 0 ==> exists k :: 0 <= k < i && Answered(results[k]) && firstOpen == results[k].port
                                               && forall j :: 0 <= j < k ==> !Answered(results[j])
    {
      if results[i].ok && firstOpen == 0 {
        firstOpen := results[i].port;
        assert firstOpen != 0 ==> Answered(results[i]);
      }
    }
    if firstOpen == 0 {
      return 0, false;
    }
    return firstOpen, true;
  }
}
