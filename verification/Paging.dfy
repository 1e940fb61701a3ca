/** Filtered and paged host lists: the JSON API window, the pager of the HTML lists and the walk along its links. */
module Paging {
  import opened Options
  import opened Store
  import A = Addresses
  import C = Classify
  import L = Labels
  import K = Counting
  import Arith

  const DEFAULT_LIMIT := 100
  const MAX_LIMIT := 1000

  // ---- The order of a listing ------------------------------------------------------

  /** ORDER BY ip_address: character by character. */
  predicate Before(a: string, b: string) {
    if b == "" then false
    else if a == "" then true
    else if a[0] != b[0] then a[0] < b[0]
    else Before(a[1..], b[1..])
  }

  /** Character by character: a comes before b when it is a proper prefix of b, or has the smaller character where they
      first differ. */
  lemma {:induction false} BeforeExactly(a: string, b: string)
    ensures Before(a, b) <==> || (a <= b && |a| < |b|)
                              || exists k :: 0 <= k < |a| && k < |b| && a[..k] == b[..k] && a[k] < b[k]
    decreases |a|
  {
    if a == "" || b == "" {
    } else {
      BeforeExactly(a[1..], b[1..]);
      HeadStep(a, b);
    }
  }

  lemma HeadStep(a: string, b: string)
    requires a != "" && b != ""
    ensures (a <= b && |a| < |b|) <==> a[0] == b[0] && a[1..] <= b[1..] && |a[1..]| < |b[1..]|
    ensures (exists k :: 0 <= k < |a| && k < |b| && a[..k] == b[..k] && a[k] < b[k])
            <==> || a[0] < b[0]
                 || (a[0] == b[0] && exists k ::
                       0 <= k < |a[1..]| && k < |b[1..]| && a[1..][..k] == b[1..][..k] && a[1..][k] < b[1..][k])
  {
    assert a == [a[0]] + a[1..] && b == [b[0]] + b[1..];
    if k :| 0 <= k < |a| && k < |b| && a[..k] == b[..k] && a[k] < b[k] {
      if k > 0 {
        assert a[..k][0] == a[0] && b[..k][0] == b[0];
        assert a[1..][..k - 1] == a[..k][1..] && b[1..][..k - 1] == b[..k][1..];
      }
    }
    if a[0] < b[0] {
      assert a[..0] == b[..0];
    }
    if a[0] == b[0] {
      if k :| 0 <= k < |a[1..]| && k < |b[1..]| && a[1..][..k] == b[1..][..k] && a[1..][k] < b[1..][k] {
        assert a[..k + 1] == [a[0]] + a[1..][..k] && b[..k + 1] == [b[0]] + b[1..][..k];
        assert a[k + 1] < b[k + 1];
      }
    }
  }

  /** A listing holds the rows of the table in strictly ascending address order. */
  ghost predicate IsListing(db: Db, r: seq<Host>) {
    && (forall h: Host :: h in r <==> h in db.hosts)
    && Ascending(r)
  }

  predicate Ascending(r: seq<Host>) {
    forall j, k :: 0 <= j < k < |r| ==> Before(r[j].ip, r[k].ip)
  }

  lemma {:induction false} BeforeOnce(a: string, b: string)
    ensures !(Before(a, b) && Before(b, a)) && !Before(a, a)
    decreases |a|
  {
    if a == "" {
    } else {
      BeforeOnce(a[1..], a[1..]);
      if b != "" {
        BeforeOnce(a[1..], b[1..]);
      }
    }
  }

  /** The listing of a table is determined by its rows, so every page of one state of the store is cut from the
      same list. */
  lemma {:induction false} ListingUnique(db: Db, r: seq<Host>, s: seq<Host>)
    requires IsListing(db, r) && IsListing(db, s)
    ensures r == s
  {
    SameSorted(r, s);
  }

  lemma {:induction false} SameSorted(r: seq<Host>, s: seq<Host>)
    requires forall h: Host :: h in r <==> h in s
    requires Ascending(r)
    requires Ascending(s)
    ensures r == s
    decreases |r|
  {
    assert |s| > 0 ==> s[0] in s;
    if r != [] {
      assert r[0] in r;
      SameHead(r, s);
      forall h: Host ensures h in r[1..] <==> h in s[1..] {
        NotAgain(r);
        NotAgain(s);
        assert h in r <==> h == r[0] || h in r[1..];
        assert h in s <==> h == s[0] || h in s[1..];
      }
      SameSorted(r[1..], s[1..]);
      assert r == [r[0]] + r[1..] && s == [s[0]] + s[1..];
    }
  }

  lemma SameHead(r: seq<Host>, s: seq<Host>)
    requires r != [] && s != [] && r[0] in s && s[0] in r
    requires Ascending(r)
    requires Ascending(s)
    ensures r[0] == s[0]
  {
    BeforeOnce(r[0].ip, s[0].ip);
  }

  lemma NotAgain(r: seq<Host>)
    requires r != []
    requires Ascending(r)
    ensures r[0] !in r[1..]
  {
    BeforeOnce(r[0].ip, r[0].ip);
  }

  // ---- Parameters --------------------------------------------------------------------

  datatype Param = Absent | Malformed | Number(n: int)
  datatype Window = Window(limit: int, offset: int)
  datatype Parsed = Ok(w: Window) | BadLimit | BadOffset

  /** parsePagination: whatever it accepts is a page of 1 to 1000 rows at an offset that is not negative. */
  function ParsePagination(limit: Param, offset: Param): (r: Parsed)
    ensures r.Ok? ==> 1 <= r.w.limit <= MAX_LIMIT && r.w.offset >= 0
    ensures r.Ok?
        <==> && !limit.Malformed? && !offset.Malformed?
             && (limit.Number? ==> limit.n >= 1)
             && (offset.Number? ==> offset.n >= 0)
    ensures r.Ok? && limit.Number? && limit.n <= MAX_LIMIT ==> r.w.limit == limit.n
    ensures r.Ok? && limit.Number? && limit.n > MAX_LIMIT ==> r.w.limit == MAX_LIMIT
    ensures r.Ok? && limit.Absent? ==> r.w.limit == DEFAULT_LIMIT
    ensures r.Ok? ==> r.w.offset == if offset.Number? then offset.n else 0
    ensures r.BadLimit? <==> limit.Malformed? || (limit.Number? && limit.n < 1)
  {
    if limit.Malformed? || (limit.Number? && limit.n < 1) then BadLimit
    else
      var l := if limit.Absent? then DEFAULT_LIMIT else if limit.n > MAX_LIMIT then MAX_LIMIT else limit.n;
      if offset.Malformed? || (offset.Number? && offset.n < 0) then BadOffset
      else Ok(Window(l, if offset.Absent? then 0 else offset.n))
  }

  // ---- Filtering ---------------------------------------------------------------------

  /** Empty strings, no network and port 0 do not filter; `hostname` is lower-case. */
  datatype Filter = Filter(vendor: string, deviceType: string, hostname: string, subnet: Option<A.Net>, port: int)

  /** hostFilter.matches; `parse` reads an address text, `withPort` holds the ids of hosts with the port open. */
  predicate Matches(f: Filter, h: Host, withPort: set<int>, parse: string -> Option<seq<A.byte>>) {
    && (f.vendor != "" ==> h.facts.vendor == f.vendor)
    && (f.deviceType != "" ==> h.facts.deviceType == f.deviceType)
    && (f.hostname != "" ==> C.Contains(C.Lower(h.facts.hostname), f.hostname))
    && (f.subnet.Some? ==> parse(h.ip).Some? && A.Contains(f.subnet.value, parse(h.ip).value))
    && (f.port != 0 ==> h.id in withPort)
  }

  /** The host has the port open, under any protocol. */
  predicate HasOpen(ports: seq<Port>, number: int) {
    exists p :: p in ports && p.number == number && p.state.Open?
  }

  /** The hosts of a list that match; `lookup` is the port listing of a host, absent when that query failed. */
  function Matching(all: seq<Host>, f: Filter, lookup: int -> Option<seq<Port>>,
      parse: string -> Option<seq<A.byte>>): seq<Host> {
    if all == [] then []
    else
      var h := all[|all| - 1];
      Matching(all[..|all| - 1], f, lookup, parse)
      + if Selected(h, f, lookup, parse) then [h] else []
  }

  predicate Selected(h: Host, f: Filter, lookup: int -> Option<seq<Port>>, parse: string -> Option<seq<A.byte>>) {
    Matches(f, h, if lookup(h.id).Some? && HasOpen(lookup(h.id).value, f.port) then {h.id} else {}, parse)
  }

  lemma {:induction false} MatchingMembers(all: seq<Host>, f: Filter, lookup: int -> Option<seq<Port>>,
      parse: string -> Option<seq<A.byte>>)
    ensures forall h: Host :: h in Matching(all, f, lookup, parse) <==> h in all && Selected(h, f, lookup, parse)
    decreases |all|
  {
    if all == [] {
    } else {
      MatchingMembers(all[..|all| - 1], f, lookup, parse);
      assert all == all[..|all| - 1] + [all[|all| - 1]];
    }
  }

  /** What passing the filter means: vendor and type are the filter's, some slice of the lower-cased hostname is the
      filter's text, the address lies in the network, and some port row of the host has the number and is open. */
  predicate Passes(f: Filter, h: Host, lookup: int -> Option<seq<Port>>, parse: string -> Option<seq<A.byte>>) {
    && (f.vendor == "" || h.facts.vendor == f.vendor)
    && (f.deviceType == "" || h.facts.deviceType == f.deviceType)
    && (f.hostname == "" || exists a, b ::
          0 <= a <= b <= |h.facts.hostname| && C.Lower(h.facts.hostname)[a..b] == f.hostname)
    && (f.subnet.None? || (parse(h.ip).Some? && InNetwork(f.subnet.value, parse(h.ip).value)))
    && (f.port == 0 || (lookup(h.id).Some? && exists p ::
          p in lookup(h.id).value && p.number == f.port && p.state == Open))
  }

  /** An address of the network's length whose number is one of the 2^h from its base on. */
  predicate InNetwork(net: A.Net, ip: seq<A.byte>) {
    && |ip| == |net.base| && net.ones <= 8 * |net.base|
    && A.Value(net.base) <= A.Value(ip) < A.Value(net.base) + Arith.Pow2(8 * |net.base| - net.ones)
  }

  /** The filter has no network, or one as ParseCIDR returns it. */
  predicate ValidFilter(f: Filter) {
    f.subnet.Some? ==> f.subnet.value.Valid()
  }

  lemma SelectedExactly(h: Host, f: Filter, lookup: int -> Option<seq<Port>>, parse: string -> Option<seq<A.byte>>)
    requires ValidFilter(f)
    ensures Selected(h, f, lookup, parse) <==> Passes(f, h, lookup, parse)
  {
    L.ContainsSlice(C.Lower(h.facts.hostname), f.hostname);
    if f.subnet.Some? && parse(h.ip).Some? {
      NetworkExactly(f.subnet.value, parse(h.ip).value);
    }
  }

  lemma NetworkExactly(net: A.Net, ip: seq<A.byte>)
    requires net.Valid()
    ensures A.Contains(net, ip) <==> InNetwork(net, ip)
  {
    if |ip| == |net.base| {
      A.MembersByValue(net, ip);
    }
  }

  /** The test of a host against the filter. */
  function Passer(f: Filter, lookup: int -> Option<seq<Port>>, parse: string -> Option<seq<A.byte>>): Host -> bool {
    h => Passes(f, h, lookup, parse)
  }

  /** The matching list holds exactly the hosts that pass. */
  lemma MatchingExactly(all: seq<Host>, f: Filter, lookup: int -> Option<seq<Port>>,
      parse: string -> Option<seq<A.byte>>)
    requires ValidFilter(f)
    ensures forall h: Host :: h in Matching(all, f, lookup, parse) <==> h in all && Passes(f, h, lookup, parse)
  {
    MatchingMembers(all, f, lookup, parse);
    forall h: Host ensures Selected(h, f, lookup, parse) <==> Passes(f, h, lookup, parse) {
      SelectedExactly(h, f, lookup, parse);
    }
  }

  /** Its length is the number of positions of the listing whose host passes. */
  lemma {:induction false} MatchingCount(all: seq<Host>, f: Filter, lookup: int -> Option<seq<Port>>,
      parse: string -> Option<seq<A.byte>>)
    requires ValidFilter(f)
    ensures |Matching(all, f, lookup, parse)| == K.Count(all, Passer(f, lookup, parse))
    decreases |all|
  {
    if all == [] {
      assert K.Where(all, Passer(f, lookup, parse)) == {};
    } else {
      var n := |all| - 1;
      MatchingCount(all[..n], f, lookup, parse);
      K.CountAppend(all[..n], all[n], Passer(f, lookup, parse));
      assert all == all[..n] + [all[n]];
      SelectedExactly(all[n], f, lookup, parse);
      assert Passer(f, lookup, parse)(all[n]) == Passes(f, all[n], lookup, parse);
    }
  }

  /** The positions of the hosts that pass. */
  function Passing(all: seq<Host>, f: Filter, lookup: int -> Option<seq<Port>>,
      parse: string -> Option<seq<A.byte>>): (r: set<nat>)
    ensures forall k: nat :: k in r <==> k < |all| && Passes(f, all[k], lookup, parse)
  {
    K.Where(all, Passer(f, lookup, parse))
  }

  /** The hostname filter, which the request gives in any case, is a search for a slice up to case. */
  lemma HostnameFilter(hostname: string, query: string)
    ensures C.Contains(C.Lower(hostname), C.Lower(query))
            <==> exists a, b :: 0 <= a <= b <= |hostname| && L.SameText(hostname[a..b], query)
  {
    L.ContainsSlice(C.Lower(hostname), C.Lower(query));
    forall a, b | 0 <= a <= b <= |hostname|
      ensures C.Lower(hostname)[a..b] == C.Lower(query) <==> L.SameText(hostname[a..b], query)
    {
      LowerSlice(hostname, a, b);
      L.SameLower(hostname[a..b], query);
    }
  }

  lemma LowerSlice(s: string, a: nat, b: nat)
    requires a <= b <= |s|
    ensures C.Lower(s)[a..b] == C.Lower(s[a..b])
  {
    assert forall k :: 0 <= k < b - a ==> s[a..b][k] == s[a + k];
    SliceOf(s, C.Lower(s), C.Lower(s[a..b]), a, b);
  }

  lemma SliceOf(s: string, low: string, part: string, a: nat, b: nat)
    requires a <= b <= |s| == |low| && |part| == b - a
    requires forall k :: 0 <= k < |s| ==> low[k] == C.LowerChar(s[k])
    requires forall k :: 0 <= k < b - a ==> part[k] == C.LowerChar(s[a + k])
    ensures low[a..b] == part
  {
  }

  /** Where the port listings are those of the port table, the port filter asks for an open port row of the host. */
  lemma PortFilter(db: Db, f: Filter, h: Host, lookup: int -> Option<seq<Port>>, parse: string -> Option<seq<A.byte>>)
    requires f.port != 0 && Passes(f, h, lookup, parse)
    requires forall id :: lookup(id).Some? ==>
               forall p: Port :: p in lookup(id).value <==> p in db.ports && p.host == id
    ensures exists p :: p in db.ports && p.host == h.id && p.number == f.port && p.state == Open
  {
  }

  /** The window [offset, offset + limit) clamped to the list. */
  function Page<T>(list: seq<T>, limit: int, offset: int): (r: seq<T>)
    requires limit >= 1 && offset >= 0
  {
    var start := if offset > |list| then |list| else offset;
    var end := if start + limit > |list| then |list| else start + limit;
    list[start..end]
  }

  /** handleAPIHosts after its parameters are parsed: the total of matching hosts and one window of them. */
  method ApiHosts(all: seq<Host>, f: Filter, lookup: int -> Option<seq<Port>>, parse: string -> Option<seq<A.byte>>,
      w: Window)
    returns (total: nat, hosts: seq<Host>)
    requires w.limit >= 1 && w.offset >= 0
    ensures total == |Matching(all, f, lookup, parse)|
    ensures hosts == Page(Matching(all, f, lookup, parse), w.limit, w.offset)
    ensures ValidFilter(f) ==> total == |Passing(all, f, lookup, parse)|
    ensures ValidFilter(f) ==> forall h :: h in hosts ==> h in all && Passes(f, h, lookup, parse)
  {
    var withPort: set<int> := {};
    if f.port != 0 {
      for i := 0 to |all|
        invariant forall id :: id in withPort ==> lookup(id).Some? && HasOpen(lookup(id).value, f.port)
        invariant forall k :: 0 <= k < i && lookup(all[k].id).Some? && HasOpen(lookup(all[k].id).value, f.port) ==>
            all[k].id in withPort
      {
        var ports := lookup(all[i].id);
        if ports.None? {
          continue;
        }
        var open := AnyOpen(ports.value, f.port);
        if open {
          withPort := withPort + {all[i].id};
        }
      }
    }
    var matched: seq<Host> := [];
    for i := 0 to |all|
      invariant matched == Matching(all[..i], f, lookup, parse)
    {
      assert all[..i + 1][..i] == all[..i];
      assert Matches(f, all[i], withPort, parse) <==> Selected(all[i], f, lookup, parse);
      if Matches(f, all[i], withPort, parse) {
        matched := matched + [all[i]];
      }
    }
    assert all[..|all|] == all;
    total := |matched|;
    var start := w.offset;
    if start > total {
      start := total;
    }
    var end := start + w.limit;
    if end > total {
      end := total;
    }
    hosts := matched[start..end];
    if ValidFilter(f) {
      MatchingExactly(all, f, lookup, parse);
      MatchingCount(all, f, lookup, parse);
    }
  }

  method AnyOpen(ports: seq<Port>, number: int) returns (open: bool)
    ensures open == HasOpen(ports, number)
  {
    open := false;
    for j := 0 to |ports|
      invariant !open
      invariant forall k :: 0 <= k < j ==> !(ports[k].number == number && ports[k].state.Open?)
    {
      if ports[j].number == number && ports[j].state.Open? {
        assert ports[j] in ports;
        return true;
      }
    }
  }

  /** HostRepo.ListPage: no limit when it is not positive, no offset when negative. */
  function ListPage(list: seq<Host>, limit: int, offset: int): seq<Host> {
    var from := if offset < 0 then 0 else if offset > |list| then |list| else offset;
    if limit <= 0 || from + limit > |list| then list[from..] else list[from..from + limit]
  }

  // ---- The pager -----------------------------------------------------------------------

  datatype Pager = Pager(
    total: nat, limit: int, offset: int, from: int, to: int,
    hasPrev: bool, hasNext: bool, prevOffset: int, nextOffset: int)

  /** newPager. */
  method NewPager(total: nat, limit: int, offset: int) returns (p: Pager)
    ensures p == PagerOf(total, limit, offset)
    ensures limit >= 1 && 0 <= offset < total
        ==> p.from == offset + 1 && p.from <= p.to <= total && p.to - p.from < limit
    ensures limit >= 1 && 0 <= offset < total ==> (p.hasNext <==> p.to < total) && (p.hasNext ==> p.nextOffset == p.to)
    ensures limit >= 1 && offset >= total ==> p.from == p.to == 0 && !p.hasNext
    ensures limit >= 1 && offset >= 0 ==> (p.hasPrev <==> p.offset > 0) && (p.hasPrev ==> 0 <= p.prevOffset < p.offset)
    ensures limit >= 1 && offset >= limit ==> p.prevOffset + limit == offset
  {
    p := Pager(total, limit, offset, 0, 0, false, false, 0, 0);
    if offset < total {
      p := p.(from := offset + 1);
      var end := offset + limit;
      if end > total {
        end := total;
      }
      p := p.(to := end);
    }
    if offset > 0 {
      p := p.(hasPrev := true, prevOffset := offset - limit);
      if p.prevOffset < 0 {
        p := p.(prevOffset := 0);
      }
    }
    if offset + limit < total {
      p := p.(hasNext := true, nextOffset := offset + limit);
    }
  }

  function PagerOf(total: nat, limit: int, offset: int): Pager {
    Pager(
      total, limit, offset,
      if offset < total then offset + 1 else 0,
      if offset >= total then 0 else if offset + limit > total then total else offset + limit,
      offset > 0,
      offset + limit < total,
      if offset > 0 && offset - limit > 0 then offset - limit else 0,
      if offset + limit < total then offset + limit else 0)
  }

  /** From and To name the rows of the page, and are both 0 exactly when it is empty; Prev leads to the page that
      ends where this one starts, or to the first rows when fewer than a page precede. */
  lemma PagerShows<T>(list: seq<T>, limit: int, offset: int)
    requires limit >= 1 && offset >= 0
    ensures
      var p, page := PagerOf(|list|, limit, offset), Page(list, limit, offset);
      && (page == [] <==> p.from == 0) && (page == [] <==> p.to == 0)
      && (page != [] ==> 1 <= p.from <= p.to <= |list| && page == list[p.from - 1..p.to] && p.from == offset + 1)
      && (p.hasPrev <==> offset > 0)
      && (p.hasPrev && offset < |list| ==>
            list[..p.prevOffset] + Page(list, limit, p.prevOffset)
            == if offset >= limit then list[..offset] else Page(list, limit, 0))
      && (p.hasNext <==> list != [] && p.to < |list| && page != [])
  {
    var p, page := PagerOf(|list|, limit, offset), Page(list, limit, offset);
    if p.hasPrev && offset < |list| && offset >= limit {
      assert list[..offset] == list[..offset - limit] + list[offset - limit..offset];
    }
  }

  // ---- The walk ------------------------------------------------------------------------

  /** The pagers met by following Next from an offset. */
  function Walk(total: nat, limit: int, offset: int): (walk: seq<Pager>)
    requires limit >= 1 && offset >= 0
    decreases total - offset
  {
    var p := PagerOf(total, limit, offset);
    [p] + if p.hasNext then Walk(total, limit, p.nextOffset) else []
  }

  predicate Proper(walk: seq<Pager>) {
    forall k :: 0 <= k < |walk| ==> walk[k].limit >= 1 && walk[k].offset >= 0
  }

  /** The rows shown along a walk. */
  function Shown<T>(list: seq<T>, walk: seq<Pager>): seq<T>
    requires Proper(walk)
  {
    if walk == [] then [] else Page(list, walk[0].limit, walk[0].offset) + Shown(list, walk[1..])
  }

  lemma {:induction false} WalkAt(total: nat, limit: int, offset: int, k: nat)
    requires limit >= 1 && offset >= 0 && k < |Walk(total, limit, offset)|
    ensures Walk(total, limit, offset)[k] == PagerOf(total, limit, offset + k * limit)
    ensures Walk(total, limit, offset)[k].hasNext <==> k + 1 < |Walk(total, limit, offset)|
    decreases k
  {
    if k == 0 {
    } else {
      WalkAt(total, limit, offset + limit, k - 1);
      assert (k - 1) * limit + limit == k * limit;
    }
  }

  lemma {:induction false} WalkWindows(total: nat, limit: int, offset: int)
    requires limit >= 1 && offset >= 0
    ensures Proper(Walk(total, limit, offset))
    decreases total - offset
  {
    if PagerOf(total, limit, offset).hasNext {
      WalkWindows(total, limit, offset + limit);
    }
  }

  /** Following the Next links shows the rest of the list from the offset on, in order, each row once, and
      stops. */
  lemma {:induction false} WalkCovers<T>(list: seq<T>, limit: int, offset: int)
    requires limit >= 1 && 0 <= offset <= |list|
    ensures Proper(Walk(|list|, limit, offset))
    ensures Shown(list, Walk(|list|, limit, offset)) == list[offset..]
    decreases |list| - offset
  {
    WalkWindows(|list|, limit, offset);
    CutPage(list, limit, offset);
    var p := PagerOf(|list|, limit, offset);
    if p.hasNext {
      WalkCovers(list, limit, offset + limit);
      ShownNext(list, p, Walk(|list|, limit, offset + limit));
    } else {
      ShownNext(list, p, []);
    }
  }

  lemma ShownNext<T>(list: seq<T>, p: Pager, rest: seq<Pager>)
    requires p.limit >= 1 && p.offset >= 0 && Proper(rest)
    ensures Proper([p] + rest)
    ensures Shown(list, [p] + rest) == Page(list, p.limit, p.offset) + Shown(list, rest)
  {
    assert ([p] + rest)[1..] == rest;
  }

  lemma CutPage<T>(list: seq<T>, limit: int, offset: int)
    requires limit >= 1 && 0 <= offset <= |list|
    ensures list[offset..] == Page(list, limit, offset) + if offset + limit < |list| then list[offset + limit..] else []
  {
  }

  /** On the walk from offset 0 the shown ranges are contiguous from row 1 to the last row, and Prev undoes Next:
      every link pair between neighbouring pages leads back to where it came from. */
  lemma WalkLinks(total: nat, limit: int)
    requires limit >= 1 && total > 0
    ensures
      var walk := Walk(total, limit, 0);
      && walk[0].from == 1 && !walk[0].hasPrev
      && walk[|walk| - 1].to == total && !walk[|walk| - 1].hasNext
      && forall j, k :: 0 <= j < k < |walk| && k == j + 1 ==> Linked(walk[j], walk[k])
  {
    var walk := Walk(total, limit, 0);
    forall j, k | 0 <= j < k < |walk| && k == j + 1
      ensures Linked(walk[j], walk[k])
    {
      LinkedAt(total, limit, j);
    }
    LastPage(total, limit, 0);
  }

  lemma LinkedAt(total: nat, limit: int, j: nat)
    requires limit >= 1 && j + 1 < |Walk(total, limit, 0)|
    ensures Linked(Walk(total, limit, 0)[j], Walk(total, limit, 0)[j + 1])
  {
    WalkAt(total, limit, 0, j);
    WalkAt(total, limit, 0, j + 1);
    NotNegative(j, limit);
    NextLinked(total, limit, j * limit);
    assert (j + 1) * limit == j * limit + limit;
  }

  lemma NextLinked(total: nat, limit: int, offset: int)
    requires limit >= 1 && offset >= 0 && PagerOf(total, limit, offset).hasNext
    ensures Linked(PagerOf(total, limit, offset), PagerOf(total, limit, offset + limit))
  {
  }

  /** Two neighbouring pages: q continues the range of p, Next leads from p to q and Prev from q to p. */
  predicate Linked(p: Pager, q: Pager) {
    && q.from == p.to + 1
    && p.hasNext && p.nextOffset == q.offset
    && q.hasPrev && q.prevOffset == p.offset
  }

  lemma NotNegative(a: nat, b: nat)
    ensures a * b >= 0
  {
  }

  /** The walk ends on a page without a Next link that shows the last row. */
  lemma {:induction false} LastPage(total: nat, limit: int, offset: int)
    requires limit >= 1 && 0 <= offset < total
    ensures var walk := Walk(total, limit, offset);
      walk[|walk| - 1].to == total && !walk[|walk| - 1].hasNext
    decreases total - offset
  {
    if PagerOf(total, limit, offset).hasNext {
      LastPage(total, limit, offset + limit);
    }
  }

  /** The walk of the host list: from offset 0 the windows of the API show exactly the matching hosts, in store
      order, and each window has the same total. */
  lemma HostWalk(all: seq<Host>, f: Filter, lookup: int -> Option<seq<Port>>, parse: string -> Option<seq<A.byte>>,
      limit: int)
    requires limit >= 1
    ensures
      var matched := Matching(all, f, lookup, parse);
      && Proper(Walk(|matched|, limit, 0))
      && Shown(matched, Walk(|matched|, limit, 0)) == matched
      && (ValidFilter(f) ==> forall h: Host :: h in matched <==> h in all && Passes(f, h, lookup, parse))
  {
    if ValidFilter(f) {
      MatchingExactly(all, f, lookup, parse);
    }
    WalkCovers(Matching(all, f, lookup, parse), limit, 0);
    MatchingMembers(all, f, lookup, parse);
  }

  /** Matching keeps the order of the listing, so the windows show each host once and by ascending address. */
  lemma {:induction false} MatchingSorted(all: seq<Host>, f: Filter, lookup: int -> Option<seq<Port>>,
      parse: string -> Option<seq<A.byte>>)
    requires Ascending(all)
    ensures Ascending(Matching(all, f, lookup, parse))
    decreases |all|
  {
    if all == [] {
    } else {
      var rest := all[..|all| - 1];
      MatchingSorted(rest, f, lookup, parse);
      MatchingMembers(rest, f, lookup, parse);
      var m := Matching(rest, f, lookup, parse);
      forall j | 0 <= j < |m| ensures Before(m[j].ip, all[|all| - 1].ip) {
        assert m[j] in m;
        var t :| 0 <= t < |rest| && rest[t] == m[j];
        assert all[t] == m[j];
      }
      var whole := Matching(all, f, lookup, parse);
      forall j, k | 0 <= j < k < |whole| ensures Before(whole[j].ip, whole[k].ip) {
        assert whole[j] == m[j];
        if k < |m| {
          assert whole[k] == m[k];
          assert Before(m[j].ip, m[k].ip);
        } else {
          assert whole[k] == all[|all| - 1];
        }
      }
    }
  }

  /** A page without a positive limit is the rest of the listing, and a negative offset is none. */
  lemma StorePageDefaults(list: seq<Host>, limit: int, offset: int)
    ensures limit <= 0 && 0 <= offset <= |list| ==> ListPage(list, limit, offset) == list[offset..]
    ensures offset < 0 ==> ListPage(list, limit, offset) == ListPage(list, limit, 0)
    ensures offset > |list| ==> ListPage(list, limit, offset) == []
  {
  }

  /** The store's page is the API's window of the unfiltered list, for every window a parsed request can ask for. */
  lemma StorePageIsWindow(list: seq<Host>, limit: int, offset: int)
    requires limit >= 1 && offset >= 0
    ensures ListPage(list, limit, offset) == Page(list, limit, offset)
  {
  }
}
