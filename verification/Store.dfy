/**
The inventory store: a host table keyed by IP address and a port table keyed by host,
number and protocol that references it.  Statements are atomic; CURRENT_TIMESTAMP has
whole seconds.  Times are nanoseconds.
*/
module Store {

  const SECOND := 1_000_000_000

  /** CURRENT_TIMESTAMP at a moment. */
  function Stamp(now: int): (t: int)
    ensures now - SECOND < t <= now
    ensures t % SECOND == 0
  {
    now - now % SECOND
  }

  /** What the scanner knows about a host. */
  datatype Facts = Facts(mac: string, hostname: string, banner: string, vendor: string, deviceType: string)

  datatype Host = Host(id: int, ip: string, facts: Facts, firstSeen: int, lastSeen: int)

  datatype Protocol = Tcp | Udp
  datatype PortState = Open | Closed | Filtered

  datatype Port = Port(id: int, host: int, number: int, protocol: Protocol, service: string, state: PortState,
      firstSeen: int, lastSeen: int)

  /** Both tables and the highest id each has given out (AUTOINCREMENT). */
  datatype Db = Db(hosts: seq<Host>, ports: seq<Port>, highHost: int, highPort: int)

  const EMPTY := Db([], [], 0, 0)

  // ---- Statements -------------------------------------------------------------

  function HostAt(hosts: seq<Host>, ip: string): (k: nat)
    ensures k <= |hosts|
    ensures k < |hosts| ==> hosts[k].ip == ip
    ensures forall j :: 0 <= j < k ==> hosts[j].ip != ip
  {
    if hosts == [] then 0
    else if hosts[0].ip == ip then 0
    else HostAt(hosts[1..], ip) + 1
  }

  /** INSERT ... ON CONFLICT(ip_address) DO UPDATE ... RETURNING id.  `gap` is how many ids the insert attempt burns. */
  function UpsertHost(db: Db, ip: string, facts: Facts, now: int, gap: nat): (r: (Db, int)) {
    var k := HostAt(db.hosts, ip);
    if k < |db.hosts| then
      var h := db.hosts[k];
      (db.(hosts := db.hosts[k := h.(facts := facts, lastSeen := Stamp(now))], highHost := db.highHost + gap), h.id)
    else
      var id := db.highHost + gap + 1;
      (db.(hosts := db.hosts + [Host(id, ip, facts, Stamp(now), Stamp(now))], highHost := id), id)
  }

  predicate HasHost(db: Db, id: int) {
    exists k :: 0 <= k < |db.hosts| && db.hosts[k].id == id
  }

  function PortAt(ports: seq<Port>, host: int, number: int, protocol: Protocol): (k: nat)
    ensures k <= |ports|
    ensures k < |ports| ==> ports[k].host == host && ports[k].number == number && ports[k].protocol == protocol
    ensures forall j :: 0 <= j < k ==>
        !(ports[j].host == host && ports[j].number == number && ports[j].protocol == protocol)
  {
    if ports == [] then 0
    else if ports[0].host == host && ports[0].number == number && ports[0].protocol == protocol then 0
    else PortAt(ports[1..], host, number, protocol) + 1
  }

  /** The port upsert; the foreign key refuses a host that does not exist. */
  function UpsertPort(db: Db, host: int, number: int, protocol: Protocol, service: string, state: PortState, now: int,
      gap: nat): (r: Db) {
    if !HasHost(db, host) then db
    else
      var k := PortAt(db.ports, host, number, protocol);
      if k < |db.ports| then
        db.(ports := db.ports[k := db.ports[k].(service := service, state := state, lastSeen := Stamp(now))],
            highPort := db.highPort + gap)
      else
        var id := db.highPort + gap + 1;
        db.(ports := db.ports + [Port(id, host, number, protocol, service, state, Stamp(now), Stamp(now))],
            highPort := id)
  }

  function HostsWithout(hosts: seq<Host>, id: int): (r: seq<Host>)
    ensures forall h :: h in r <==> h in hosts && h.id != id
  {
    if hosts == [] then []
    else (if hosts[0].id == id then [] else [hosts[0]]) + HostsWithout(hosts[1..], id)
  }

  function PortsWithout(ports: seq<Port>, host: int): (r: seq<Port>)
    ensures forall p :: p in r <==> p in ports && p.host != host
  {
    if ports == [] then []
    else (if ports[0].host == host then [] else [ports[0]]) + PortsWithout(ports[1..], host)
  }

  /** DELETE FROM hosts WHERE id = ?, with ON DELETE CASCADE to ports. */
  function DeleteHost(db: Db, id: int): Db {
    db.(hosts := HostsWithout(db.hosts, id), ports := PortsWithout(db.ports, id))
  }

  function DeletePorts(db: Db, host: int): Db {
    db.(ports := PortsWithout(db.ports, host))
  }

  /** An upsert leaves exactly one answer for its address: the new facts, seen now; a known address keeps id and
      first sighting, a new one gets an id above every id given out.  No other row changes. */
  lemma UpsertHostMeaning(db: Db, ip: string, facts: Facts, now: int, gap: nat)
    requires HostKeys(db.hosts)
    ensures
      var (e, id) := UpsertHost(db, ip, facts, now, gap);
      && (forall h :: h in e.hosts && h.ip == ip ==> h.id == id && h.facts == facts && h.lastSeen == Stamp(now))
      && (exists h :: h in e.hosts && h.ip == ip)
      && (forall g, h :: g in db.hosts && h in e.hosts && g.ip == ip == h.ip ==>
          h.id == g.id && h.firstSeen == g.firstSeen)
      && ((forall g :: g in db.hosts ==> g.ip != ip) ==>
            id > db.highHost && forall h :: h in e.hosts && h.ip == ip ==> h.firstSeen == Stamp(now))
      && (forall h: Host :: h.ip != ip ==> (h in e.hosts <==> h in db.hosts))
      && e.ports == db.ports
  {
    var (e, id) := UpsertHost(db, ip, facts, now, gap);
    var k := HostAt(db.hosts, ip);
    assert e.hosts[k] in e.hosts && e.hosts[k].ip == ip;
    forall h: Host | h.ip != ip && h in db.hosts ensures h in e.hosts {
      var j :| 0 <= j < |db.hosts| && db.hosts[j] == h;
      assert e.hosts[j] == h;
    }
    if k < |db.hosts| {
      assert db.hosts[k] in db.hosts;
    }
  }

  /** A port upsert leaves exactly one answer for its key with the new service and state, seen now; a known key
      keeps id and first sighting, a new one gets an id above every id given out.  No other row changes, and an
      unknown host changes nothing. */
  lemma UpsertPortMeaning(db: Db, host: int, number: int, protocol: Protocol, service: string, state: PortState,
      now: int, gap: nat)
    requires PortKeys(db.ports)
    ensures
      var e := UpsertPort(db, host, number, protocol, service, state, now, gap);
      && e.hosts == db.hosts
      && (!HasHost(db, host) ==> e == db)
      && (HasHost(db, host) ==>
            && (exists p :: p in e.ports && HasKey(p, host, number, protocol))
            && (forall p :: p in e.ports && HasKey(p, host, number, protocol) ==>
                  p.service == service && p.state == state && p.lastSeen == Stamp(now))
            && (forall q, p ::
                  q in db.ports && p in e.ports
                  && HasKey(q, host, number, protocol) && HasKey(p, host, number, protocol) ==>
                  p.id == q.id && p.firstSeen == q.firstSeen)
            && ((forall q :: q in db.ports ==> !HasKey(q, host, number, protocol)) ==>
                  forall p :: p in e.ports && HasKey(p, host, number, protocol) ==>
                      p.id > db.highPort && p.firstSeen == Stamp(now)))
      && (forall p: Port :: !HasKey(p, host, number, protocol) ==> (p in e.ports <==> p in db.ports))
  {
    var e := UpsertPort(db, host, number, protocol, service, state, now, gap);
    if HasHost(db, host) {
      var k := PortAt(db.ports, host, number, protocol);
      assert e.ports[k] in e.ports && HasKey(e.ports[k], host, number, protocol);
      forall p: Port | !HasKey(p, host, number, protocol) && p in db.ports ensures p in e.ports {
        var j :| 0 <= j < |db.ports| && db.ports[j] == p;
        assert e.ports[j] == p;
      }
      if k < |db.ports| {
        assert db.ports[k] in db.ports;
      }
    }
  }

  predicate HasKey(p: Port, host: int, number: int, protocol: Protocol) {
    p.host == host && p.number == number && p.protocol == protocol
  }

  // ---- The invariant ----------------------------------------------------------

  predicate HostKeys(hosts: seq<Host>) {
    forall j, k :: 0 <= j < k < |hosts| ==> hosts[j].id != hosts[k].id && hosts[j].ip != hosts[k].ip
  }

  predicate SamePortKey(a: Port, b: Port) {
    a.host == b.host && a.number == b.number && a.protocol == b.protocol
  }

  predicate PortKeys(ports: seq<Port>) {
    forall j, k :: 0 <= j < k < |ports| ==> ports[j].id != ports[k].id && !SamePortKey(ports[j], ports[k])
  }

  /** One row per IP and one per (host, port, protocol), ids below the high marks, every port's host there, and
      no row seen last before it was seen first or after `now`. */
  predicate Inv(db: Db, now: int) {
    && HostKeys(db.hosts) && PortKeys(db.ports)
    && (forall h :: h in db.hosts ==> h.id <= db.highHost && h.firstSeen <= h.lastSeen <= now)
    && (forall p :: p in db.ports ==> p.id <= db.highPort && HasHost(db, p.host) && p.firstSeen <= p.lastSeen <= now)
  }

  lemma {:induction false} WithoutKeepsKeys(hosts: seq<Host>, id: int)
    requires HostKeys(hosts)
    ensures HostKeys(HostsWithout(hosts, id))
    decreases |hosts|
  {
    if hosts == [] {
    } else {
      WithoutKeepsKeys(hosts[1..], id);
      var r := HostsWithout(hosts[1..], id);
      forall k | 0 <= k < |r| ensures r[k].id != hosts[0].id && r[k].ip != hosts[0].ip {
        assert r[k] in hosts[1..];
      }
    }
  }

  lemma {:induction false} WithoutKeepsPortKeys(ports: seq<Port>, host: int)
    requires PortKeys(ports)
    ensures PortKeys(PortsWithout(ports, host))
    decreases |ports|
  {
    if ports == [] {
    } else {
      WithoutKeepsPortKeys(ports[1..], host);
      var r := PortsWithout(ports[1..], host);
      forall k | 0 <= k < |r| ensures r[k].id != ports[0].id && !SamePortKey(ports[0], r[k]) {
        assert r[k] in ports[1..];
      }
    }
  }

  // ---- Histories --------------------------------------------------------------

  datatype Op =
    | PutHost(ip: string, facts: Facts, now: int, gap: nat)
    | PutPort(host: int, number: int, protocol: Protocol, service: string, state: PortState, now: int, gap: nat)
    | DropHost(id: int, now: int)
    | DropPorts(host: int, now: int)

  function Do(db: Db, op: Op): Db {
    match op
    case PutHost(ip, facts, now, gap) => UpsertHost(db, ip, facts, now, gap).0
    case PutPort(host, number, protocol, service, state, now, gap) => UpsertPort(db, host, number, protocol, service,
        state, now, gap)
    case DropHost(id, _) => DeleteHost(db, id)
    case DropPorts(host, _) => DeletePorts(db, host)
  }

  function DoAll(db: Db, ops: seq<Op>): Db
    decreases |ops|
  {
    if ops == [] then db else DoAll(Do(db, ops[0]), ops[1..])
  }

  /** The clock does not run backwards. */
  predicate Ordered(ops: seq<Op>, from: int)
    decreases |ops|
  {
    ops == [] || (from <= Stamp(ops[0].now) && Ordered(ops[1..], Stamp(ops[0].now)))
  }

  function EndTime(ops: seq<Op>, from: int): int {
    if ops == [] then from else Stamp(ops[|ops| - 1].now)
  }

  lemma PutHostKeeps(db: Db, op: Op, from: int)
    requires Inv(db, from) && op.PutHost? && from <= Stamp(op.now)
    ensures Inv(Do(db, op), Stamp(op.now))
  {
    var e := Do(db, op);
    var k := HostAt(db.hosts, op.ip);
    forall h | h in e.hosts ensures h.id <= e.highHost && h.firstSeen <= h.lastSeen <= Stamp(op.now) {
      if k < |db.hosts| && h == e.hosts[k] {
        assert db.hosts[k] in db.hosts;
      }
    }
    forall p | p in e.ports
        ensures p.id <= e.highPort && HasHost(e, p.host) && p.firstSeen <= p.lastSeen <= Stamp(op.now) {
      var j :| 0 <= j < |db.hosts| && db.hosts[j].id == p.host;
      assert e.hosts[j].id == p.host;
    }
    forall i, j | 0 <= i < j < |e.hosts| ensures e.hosts[i].id != e.hosts[j].id && e.hosts[i].ip != e.hosts[j].ip {
      if j == |db.hosts| {
        assert db.hosts[i] in db.hosts;
      }
    }
  }

  lemma PutPortKeeps(db: Db, op: Op, from: int)
    requires Inv(db, from) && op.PutPort? && from <= Stamp(op.now)
    ensures Inv(Do(db, op), Stamp(op.now))
  {
    var e := Do(db, op);
    var k := PortAt(db.ports, op.host, op.number, op.protocol);
    assert e.hosts == db.hosts;
    forall p | p in e.ports
        ensures p.id <= e.highPort && HasHost(e, p.host) && p.firstSeen <= p.lastSeen <= Stamp(op.now) {
      if k < |db.ports| && p == e.ports[k] {
        assert db.ports[k] in db.ports;
      }
      assert p in db.ports || p.host == op.host;
    }
    forall i, j | 0 <= i < j < |e.ports|
        ensures e.ports[i].id != e.ports[j].id && !SamePortKey(e.ports[i], e.ports[j]) {
      if j == |db.ports| {
        assert db.ports[i] in db.ports;
      }
    }
  }

  lemma DropHostKeeps(db: Db, id: int, from: int)
    requires Inv(db, from)
    ensures Inv(DeleteHost(db, id), from)
  {
    var e := DeleteHost(db, id);
    WithoutKeepsKeys(db.hosts, id);
    WithoutKeepsPortKeys(db.ports, id);
    forall p | p in e.ports ensures HasHost(e, p.host) {
      var j :| 0 <= j < |db.hosts| && db.hosts[j].id == p.host;
      assert db.hosts[j] in e.hosts;
      var i :| 0 <= i < |e.hosts| && e.hosts[i] == db.hosts[j];
    }
  }

  /** Every statement keeps the invariant. */
  lemma InvDo(db: Db, op: Op, from: int)
    requires Inv(db, from) && from <= Stamp(op.now)
    ensures Inv(Do(db, op), Stamp(op.now))
  {
    match op
    case PutHost(_, _, _, _) => PutHostKeeps(db, op, from);
    case PutPort(_, _, _, _, _, _, _) => PutPortKeeps(db, op, from);
    case DropHost(id, _) => DropHostKeeps(db, id, from);
    case DropPorts(host, _) => WithoutKeepsPortKeys(db.ports, host);
  }

  /** After any sequence of statements the store invariant holds. */
  lemma {:induction false} InvHistory(db: Db, ops: seq<Op>, from: int)
    requires Inv(db, from) && Ordered(ops, from)
    ensures Inv(DoAll(db, ops), EndTime(ops, from))
    decreases |ops|
  {
    if ops == [] {
    } else {
      InvDo(db, ops[0], from);
      InvHistory(Do(db, ops[0]), ops[1..], Stamp(ops[0].now));
    }
  }

  /** A host row after one statement comes from a row with the same id, address and first sighting, or has a
      new id. */
  lemma RowOrigin(db: Db, op: Op, h: Host)
    requires h in Do(db, op).hosts
    ensures (exists g :: g in db.hosts && g.id == h.id && g.ip == h.ip && g.firstSeen == h.firstSeen)
        || h.id > db.highHost
    ensures db.highHost <= Do(db, op).highHost
  {
    if op.PutHost? {
      var k := HostAt(db.hosts, op.ip);
      if k < |db.hosts| && h == Do(db, op).hosts[k] {
        assert db.hosts[k] in db.hosts;
      }
    }
    assert h in db.hosts || op.PutHost?;
  }

  /** Ids are never reused: a row whose id was already given out before a history is a row that was there,
      with the same address and first sighting. */
  lemma {:induction false} IdsNeverReused(db: Db, ops: seq<Op>, h: Host)
    requires h in DoAll(db, ops).hosts && h.id <= db.highHost
    ensures exists g :: g in db.hosts && g.id == h.id && g.ip == h.ip && g.firstSeen == h.firstSeen
    decreases |ops|
  {
    if ops == [] {
    } else {
      var e := Do(db, ops[0]);
      HighGrows(db, ops[0]);
      IdsNeverReused(e, ops[1..], h);
      var g :| g in e.hosts && g.id == h.id && g.ip == h.ip && g.firstSeen == h.firstSeen;
      RowOrigin(db, ops[0], g);
    }
  }

  lemma HighGrows(db: Db, op: Op)
    ensures db.highHost <= Do(db, op).highHost && db.highPort <= Do(db, op).highPort
  {
  }

  /** A host that is not deleted keeps its id, its address and its first sighting through any history. */
  lemma {:induction false} LivingKeepsId(db: Db, ops: seq<Op>, g: Host)
    requires g in db.hosts
    requires forall k :: 0 <= k < |ops| && ops[k].DropHost? ==> ops[k].id != g.id
    ensures exists h :: h in DoAll(db, ops).hosts && h.id == g.id && h.ip == g.ip && h.firstSeen == g.firstSeen
    decreases |ops|
  {
    if ops == [] {
    } else {
      var e := Do(db, ops[0]);
      var j :| 0 <= j < |db.hosts| && db.hosts[j] == g;
      var h: Host;
      if ops[0].PutHost? {
        h := e.hosts[j];
        assert h in e.hosts;
      } else {
        h := g;
        assert h in e.hosts;
      }
      LivingKeepsId(e, ops[1..], h);
    }
  }

  /** The same port row, up to its service, state and last sighting. */
  predicate SamePort(a: Port, b: Port) {
    SamePortKey(a, b) && a.id == b.id && a.firstSeen == b.firstSeen
  }

  lemma PortRowOrigin(db: Db, op: Op, p: Port)
    requires p in Do(db, op).ports
    ensures (exists q :: q in db.ports && SamePort(q, p)) || p.id > db.highPort
  {
    if op.PutPort? && HasHost(db, op.host) {
      var k := PortAt(db.ports, op.host, op.number, op.protocol);
      if k < |db.ports| && p == Do(db, op).ports[k] {
        assert db.ports[k] in db.ports && SamePort(db.ports[k], p);
      }
    }
    assert p in db.ports ==> SamePort(p, p);
  }

  /** Port ids are never reused: a port row whose id was given out before a history is a row that was there, with
      the same host, number, protocol and first sighting. */
  lemma {:induction false} PortIdsNeverReused(db: Db, ops: seq<Op>, p: Port)
    requires p in DoAll(db, ops).ports && p.id <= db.highPort
    ensures exists q :: q in db.ports && SamePort(q, p)
    decreases |ops|
  {
    if ops == [] {
      assert SamePort(p, p);
    } else {
      var e := Do(db, ops[0]);
      HighGrows(db, ops[0]);
      PortIdsNeverReused(e, ops[1..], p);
      var q :| q in e.ports && SamePort(q, p);
      PortRowOrigin(db, ops[0], q);
      var o :| o in db.ports && SamePort(o, q);
      assert SamePort(o, p);
    }
  }

  /** The statement removes this port's host or that host's ports. */
  predicate Removes(op: Op, q: Port) {
    (op.DropHost? && op.id == q.host) || (op.DropPorts? && op.host == q.host)
  }

  lemma PortStays(db: Db, op: Op, q: Port) returns (p: Port)
    requires q in db.ports && !Removes(op, q)
    ensures p in Do(db, op).ports && SamePort(q, p)
  {
    var j :| 0 <= j < |db.ports| && db.ports[j] == q;
    p := q;
    if op.PutPort? {
      p := Do(db, op).ports[j];
      assert p in Do(db, op).ports;
    }
  }

  /** A port whose host is not deleted and whose host's ports are not dropped keeps its key, its id and its first
      sighting through any history. */
  lemma {:induction false} LivingPortKeepsId(db: Db, ops: seq<Op>, q: Port)
    requires q in db.ports
    requires forall k :: 0 <= k < |ops| ==> !Removes(ops[k], q)
    ensures exists p :: p in DoAll(db, ops).ports && SamePort(q, p)
    decreases |ops|
  {
    if ops == [] {
      assert SamePort(q, q);
    } else {
      var p := PortStays(db, ops[0], q);
      LivingPortKeepsId(Do(db, ops[0]), ops[1..], p);
      var r :| r in DoAll(db, ops).ports && SamePort(p, r);
      assert SamePort(q, p) && SamePort(p, r);
      assert SamePort(q, r);
    }
  }

  // ---- The repositories ---------------------------------------------------------

  /** HostRepo and PortRepo over one database file. */
  class Repo {
    var hosts: seq<Host>
    var ports: seq<Port>
    var highHost: int
    var highPort: int

    function View(): Db
      reads this
    {
      Db(hosts, ports, highHost, highPort)
    }

    constructor ()
      ensures View() == EMPTY
    {
      hosts, ports, highHost, highPort := [], [], 0, 0;
    }

    /** HostRepo.Upsert. */
    method PutHost(ip: string, facts: Facts, now: int, gap: nat) returns (id: int)
      modifies this
      ensures (View(), id) == UpsertHost(old(View()), ip, facts, now, gap)
    {
      var k := 0;
      while k < |hosts| && hosts[k].ip != ip
        invariant 0 <= k <= |hosts|
        invariant forall j :: 0 <= j < k ==> hosts[j].ip != ip
      {
        k := k + 1;
      }
      if k < |hosts| {
        id := hosts[k].id;
        hosts := hosts[k := hosts[k].(facts := facts, lastSeen := Stamp(now))];
        highHost := highHost + gap;
      } else {
        id := highHost + gap + 1;
        hosts := hosts + [Host(id, ip, facts, Stamp(now), Stamp(now))];
        highHost := id;
      }
    }

    /** PortRepo.Upsert; an unknown host is an error and changes nothing. */
    method PutPort(host: int, number: int, protocol: Protocol, service: string, state: PortState, now: int, gap: nat)
        returns (ok: bool)
      modifies this
      ensures ok == HasHost(old(View()), host)
      ensures View() == UpsertPort(old(View()), host, number, protocol, service, state, now, gap)
    {
      ok := false;
      for j := 0 to |hosts|
        invariant ok <==> exists i :: 0 <= i < j && hosts[i].id == host
      {
        if hosts[j].id == host {
          ok := true;
        }
      }
      if !ok {
        return;
      }
      var k := 0;
      while k < |ports| && !(ports[k].host == host && ports[k].number == number && ports[k].protocol == protocol)
        invariant 0 <= k <= |ports|
        invariant forall j :: 0 <= j < k ==>
            !(ports[j].host == host && ports[j].number == number && ports[j].protocol == protocol)
      {
        k := k + 1;
      }
      if k < |ports| {
        ports := ports[k := ports[k].(service := service, state := state, lastSeen := Stamp(now))];
        highPort := highPort + gap;
      } else {
        highPort := highPort + gap + 1;
        ports := ports + [Port(highPort, host, number, protocol, service, state, Stamp(now), Stamp(now))];
      }
    }

    /** HostRepo.Delete. */
    method Delete(id: int)
      modifies this
      ensures View() == DeleteHost(old(View()), id)
      ensures forall h :: h in hosts <==> h in old(hosts) && h.id != id
      ensures forall p :: p in ports <==> p in old(ports) && p.host != id
      ensures highHost == old(highHost) && highPort == old(highPort)
    {
      hosts, ports := HostsWithout(hosts, id), PortsWithout(ports, id);
    }

    /** PortRepo.DeleteByHost. */
    method DeleteByHost(host: int)
      modifies this
      ensures View() == DeletePorts(old(View()), host)
      ensures hosts == old(hosts) && highHost == old(highHost) && highPort == old(highPort)
      ensures forall p :: p in ports <==> p in old(ports) && p.host != host
    {
      ports := PortsWithout(ports, host);
    }

    /** HostRepo.Count. */
    method Count() returns (n: nat)
      ensures n == |hosts|
    {
      n := |hosts|;
    }
  }
}
