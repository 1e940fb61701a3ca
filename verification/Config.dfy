/** Scanner profiles: the flat subnet list or the profile list, flattened with every field defaulted. */
module Config {
  import opened Options

  /** Zero intervals, absent lists and absent switches inherit. */
  datatype Profile = Profile(
    subnet: string,
    scanInterval: int,
    timeout: int,
    probePorts: Option<seq<int>>,
    deepProbe: Option<bool>,
    deepPorts: Option<seq<int>>,
    udpPorts: Option<seq<int>>,
    enrichArp: Option<bool>)

  datatype Resolved = Resolved(
    subnet: string,
    scanInterval: int,
    timeout: int,
    probePorts: Option<seq<int>>,
    deepProbe: bool,
    deepPorts: Option<seq<int>>,
    udpPorts: Option<seq<int>>,
    enrichArp: bool)

  datatype Scanner = Scanner(
    subnets: seq<string>,
    profiles: seq<Profile>,
    scanInterval: int,
    timeout: int,
    probePorts: Option<seq<int>>,
    deepProbe: bool,
    deepPorts: Option<seq<int>>,
    udpPorts: Option<seq<int>>,
    enrichArp: bool)

  datatype Error = BothSet | MissingSubnet | ListedTwice(subnet: string)
  datatype Outcome = Ok(profiles: seq<Resolved>) | Err(error: Error)

  function OrElse<T>(own: Option<T>, global: Option<T>): Option<T> {
    if own.Some? then own else global
  }

  function ResolveProfile(p: Profile, c: Scanner): Resolved {
    Resolved(
      p.subnet,
      if p.scanInterval == 0 then c.scanInterval else p.scanInterval,
      if p.timeout == 0 then c.timeout else p.timeout,
      OrElse(p.probePorts, c.probePorts),
      if p.deepProbe.Some? then p.deepProbe.value else c.deepProbe,
      OrElse(p.deepPorts, c.deepPorts),
      OrElse(p.udpPorts, c.udpPorts),
      if p.enrichArp.Some? then p.enrichArp.value else c.enrichArp)
  }

  /** A resolved profile written back as a profile. */
  function AsProfile(r: Resolved): Profile {
    Profile(r.subnet, r.scanInterval, r.timeout, r.probePorts, Some(r.deepProbe), r.deepPorts, r.udpPorts,
        Some(r.enrichArp))
  }

  /** Resolving is idempotent: under the same defaults a resolved profile resolves to itself; one without unset
      fields does so under any defaults, and a bare one takes every default. */
  lemma ResolvedIsFixed(p: Profile, c: Scanner, d: Scanner)
    ensures ResolveProfile(AsProfile(ResolveProfile(p, c)), c) == ResolveProfile(p, c)
    ensures
      var r := ResolveProfile(p, c);
      r.scanInterval != 0 && r.timeout != 0 && r.probePorts.Some? && r.deepPorts.Some? && r.udpPorts.Some?
      ==> ResolveProfile(AsProfile(r), d) == r
    ensures AsProfile(ResolveProfile(Bare(p.subnet), c))
            == Profile(p.subnet, c.scanInterval, c.timeout, c.probePorts, Some(c.deepProbe), c.deepPorts, c.udpPorts,
                Some(c.enrichArp))
  {
  }

  /** Each field alone: a profile keeps its subnet, and every field that is set; every unset one is the global one,
      whatever the other fields are. */
  lemma EachFieldAlone(p: Profile, c: Scanner)
    ensures
      var r := ResolveProfile(p, c);
      && r.subnet == p.subnet
      && (p.scanInterval != 0 ==> r.scanInterval == p.scanInterval)
      && (p.scanInterval == 0 ==> r.scanInterval == c.scanInterval)
      && (p.timeout != 0 ==> r.timeout == p.timeout) && (p.timeout == 0 ==> r.timeout == c.timeout)
      && (p.probePorts.Some? ==> r.probePorts == p.probePorts) && (p.probePorts.None? ==> r.probePorts == c.probePorts)
      && (p.deepPorts.Some? ==> r.deepPorts == p.deepPorts) && (p.deepPorts.None? ==> r.deepPorts == c.deepPorts)
      && (p.udpPorts.Some? ==> r.udpPorts == p.udpPorts) && (p.udpPorts.None? ==> r.udpPorts == c.udpPorts)
      && (p.deepProbe.Some? ==> r.deepProbe == p.deepProbe.value) && (p.deepProbe.None? ==> r.deepProbe == c.deepProbe)
      && (p.enrichArp.Some? ==> r.enrichArp == p.enrichArp.value) && (p.enrichArp.None? ==> r.enrichArp == c.enrichArp)
  {
  }

  function Bare(subnet: string): Profile {
    Profile(subnet, 0, 0, None, None, None, None, None)
  }

  function BareAll(subnets: seq<string>): (r: seq<Profile>)
    ensures |r| == |subnets|
    ensures forall k :: 0 <= k < |r| ==> r[k] == Bare(subnets[k])
  {
    if subnets == [] then [] else BareAll(subnets[..|subnets| - 1]) + [Bare(subnets[|subnets| - 1])]
  }

  /** The profile list in force. */
  function Entries(c: Scanner): seq<Profile> {
    if c.profiles != [] then c.profiles else BareAll(c.subnets)
  }

  predicate UniqueSubnets(ps: seq<Resolved>) {
    forall j, k :: 0 <= j < k < |ps| ==> ps[j].subnet != ps[k].subnet
  }

  /** Some earlier entry has the subnet of entry k. */
  predicate Repeated(ps: seq<Profile>, k: nat)
    requires k < |ps|
  {
    exists j :: 0 <= j < k && ps[j].subnet == ps[k].subnet
  }

  predicate Bad(ps: seq<Profile>, k: nat)
    requires k < |ps|
  {
    ps[k].subnet == "" || Repeated(ps, k)
  }

  /** Resolve succeeds exactly when at most one list is set and every entry names a subnet of its own; it then
      returns the entries in order, each defaulted, and their subnets are unique.  The error is that of the
      first bad entry. */
  method Resolve(c: Scanner) returns (r: Outcome)
    ensures r.Ok?
        <==> (c.subnets == [] || c.profiles == []) && forall k :: 0 <= k < |Entries(c)| ==> !Bad(Entries(c), k)
    ensures r.Ok? ==> |r.profiles| == |Entries(c)| && UniqueSubnets(r.profiles)
    ensures r.Ok? ==> forall k :: 0 <= k < |r.profiles| ==>
        r.profiles[k] == ResolveProfile(Entries(c)[k], c) && r.profiles[k].subnet != ""
    ensures r.Ok? && c.profiles != [] ==>
              && |r.profiles| == |c.profiles|
              && forall k :: 0 <= k < |c.profiles| ==> r.profiles[k] == ResolveProfile(c.profiles[k], c)
    ensures r.Ok? && c.profiles == [] ==>
              && |r.profiles| == |c.subnets|
              && forall k :: 0 <= k < |c.subnets| ==> r.profiles[k] == ResolveProfile(Bare(c.subnets[k]), c)
    ensures r == Err(BothSet) <==> c.subnets != [] && c.profiles != []
    ensures r.Err? && !r.error.BothSet? ==>
              exists k :: 0 <= k < |Entries(c)| && Bad(Entries(c), k)
                  && (forall j :: 0 <= j < k ==> !Bad(Entries(c), j))
                          && r.error == if Entries(c)[k].subnet == "" then MissingSubnet
                              else ListedTwice(Entries(c)[k].subnet)
  {
    if c.subnets != [] && c.profiles != [] {
      return Err(BothSet);
    }
    var profiles := Entries(c);
    var seen: set<string> := {};
    var out: seq<Resolved> := [];
    for i := 0 to |profiles|
      invariant |out| == i
      invariant forall k :: 0 <= k < i ==> out[k] == ResolveProfile(profiles[k], c) && !Bad(profiles, k)
      invariant forall s :: s in seen <==> exists j :: 0 <= j < i && profiles[j].subnet == s
      invariant UniqueSubnets(out)
    {
      var p := profiles[i];
      if p.subnet == "" {
        assert Bad(profiles, i);
        return Err(MissingSubnet);
      }
      if p.subnet in seen {
        assert Repeated(profiles, i) && Bad(profiles, i);
        return Err(ListedTwice(p.subnet));
      }
      assert !Bad(profiles, i);
      seen := seen + {p.subnet};
      out := out + [ResolveProfile(p, c)];
    }
    return Ok(out);
  }
}
