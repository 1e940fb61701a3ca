/**
Address arithmetic of the scanner: the in-place increment, prefix containment, the size
guard and the enumeration of a network.  Addresses are big-endian byte arrays of 4 or
16 bytes; masks are canonical prefix masks.
*/
module Addresses {
  import opened Arith

  newtype byte = x: int | 0 <= x < 256

  /** The number a big-endian byte string denotes. */
  function Value(s: seq<byte>): nat {
    if s == [] then 0 else 256 * Value(s[..|s| - 1]) + s[|s| - 1] as nat
  }

  lemma {:induction false} ValueBound(s: seq<byte>)
    ensures Value(s) < Pow2(8 * |s|)
  {
    if s == [] {
    } else {
      ValueBound(s[..|s| - 1]);
      Pow2Eight(8 * (|s| - 1));
    }
  }

  /** Equal numbers of equal length are equal byte strings. */
  lemma {:induction false} ValueInjective(a: seq<byte>, b: seq<byte>)
    requires |a| == |b| && Value(a) == Value(b)
    ensures a == b
    decreases |a|
  {
    if a == [] {
    } else {
      var n := |a| - 1;
      ValueInjective(a[..n], b[..n]);
      assert a == a[..n] + [a[n]] && b == b[..n] + [b[n]];
    }
  }

  // ---- incrementIP ----------------------------------------------------------

  /** What the carry loop does to a byte string: add one to the last byte and go left while it wraps. */
  function Carry(s: seq<byte>): (r: seq<byte>)
    ensures |r| == |s|
  {
    if s == [] then []
    else if s[|s| - 1] == 255 then Carry(s[..|s| - 1]) + [0]
    else s[..|s| - 1] + [s[|s| - 1] + 1]
  }

  lemma {:induction false} CarryStep(s: seq<byte>)
    ensures Value(Carry(s)) == if Value(s) + 1 == Pow2(8 * |s|) then 0 else Value(s) + 1
    decreases |s|
  {
    Pow2Small();
    if s != [] {
      var n := |s| - 1;
      Pow2Eight(8 * n);
      ValueBound(s[..n]);
      if s[n] == 255 {
        CarryStep(s[..n]);
        assert Carry(s)[..n] == Carry(s[..n]);
      } else {
        assert Carry(s)[..n] == s[..n];
      }
    }
  }

  /** The carry loop computes value + 1 modulo m = 256^length, for every length. */
  lemma CarryIsPlusOne(s: seq<byte>, m: nat)
    requires m == Pow2(8 * |s|)
    ensures IsPlusOne(Value(s), Value(Carry(s)), m)
  {
    CarryWraps(s, m);
    StepMod(Value(s), m, Value(Carry(s)));
  }

  lemma CarryWraps(s: seq<byte>, m: nat)
    requires m == Pow2(8 * |s|)
    ensures Value(s) < m && Value(Carry(s)) == if Value(s) + 1 == m then 0 else Value(s) + 1
  {
    ValueBound(s);
    CarryStep(s);
  }

  /** Bytes above the last carry are unchanged: the changed suffix is one byte that did not wrap, if any,
      followed by wrapped bytes. */
  lemma {:induction false} CarryFrame(s: seq<byte>) returns (k: nat)
    ensures k <= |s|
    ensures forall j :: k <= j < |s| ==> s[j] == 255 && Carry(s)[j] == 0
    ensures k > 0 ==> s[k - 1] != 255 && Carry(s)[k - 1] == s[k - 1] + 1
    ensures forall j :: 0 <= j < k - 1 ==> Carry(s)[j] == s[j]
    decreases |s|
  {
    if s == [] || s[|s| - 1] != 255 {
      k := |s|;
    } else {
      k := CarryFrame(s[..|s| - 1]);
    }
  }

  /** binary.BigEndian.Uint32 of four bytes. */
  function Uint32(s: seq<byte>): nat
    requires |s| == 4
  {
    s[3] as nat + 256 * s[2] as nat + 65536 * s[1] as nat + 16777216 * s[0] as nat
  }

  /** binary.BigEndian.PutUint32. */
  function PutUint32(v: nat): seq<byte>
    requires v < 0x1_0000_0000
  {
    [(v / 16777216) as byte, (v / 65536 % 256) as byte, (v / 256 % 256) as byte, (v % 256) as byte]
  }

  lemma FourBytes(s: seq<byte>)
    requires |s| == 4
    ensures Value(s) == Uint32(s) < 0x1_0000_0000
  {
    var a, b, c := s[..3], s[..2], s[..1];
    assert a[..2] == b && b[..1] == c && c[..0] == [];
    assert Value(c) == s[0] as nat;
    assert Value(b) == 256 * Value(c) + s[1] as nat;
    assert Value(a) == 256 * Value(b) + s[2] as nat;
  }

  lemma PutUint32Value(v: nat)
    requires v < 0x1_0000_0000
    ensures Value(PutUint32(v)) == v
  {
    FourBytes(PutUint32(v));
    FourDigits(v);
  }

  lemma FourStep(s: seq<byte>, m: nat)
    requires |s| == 4 && m == 0x1_0000_0000
    ensures Value(Carry(s)) == if Value(s) + 1 == m then 0 else Value(s) + 1
  {
    Pow2Of32();
    CarryStep(s);
  }

  lemma FourCarry(s: seq<byte>, m: nat)
    requires |s| == 4 && m == 0x1_0000_0000
    ensures IsPlusOne(Uint32(s), Value(Carry(s)), m)
  {
    FourBytes(s);
    FourStep(s, m);
    StepMod(Value(s), m, Value(Carry(s)));
  }

  /** On four bytes the word branch and the carry loop agree, the wrap at the all-ones address included. */
  lemma BranchesAgree(s: seq<byte>)
    requires |s| == 4
    ensures (Uint32(s) + 1) % 0x1_0000_0000 < 0x1_0000_0000
    ensures PutUint32((Uint32(s) + 1) % 0x1_0000_0000) == Carry(s)
  {
    FourBytes(s);
    FourCarry(s, 0x1_0000_0000);
    PutUint32Value((Uint32(s) + 1) % 0x1_0000_0000);
    ValueInjective(PutUint32((Uint32(s) + 1) % 0x1_0000_0000), Carry(s));
  }

  /** incrementIP, in place: the word branch on four bytes, the carry loop on any other length. */
  method IncrementIP(ip: array<byte>)
    modifies ip
    ensures ip[..] == Carry(old(ip[..]))
  {
    if ip.Length == 4 {
      var v := Uint32(ip[..]);
      var w := PutUint32((v + 1) % 0x1_0000_0000);
      BranchesAgree(ip[..]);
      ip[0], ip[1], ip[2], ip[3] := w[0], w[1], w[2], w[3];
      assert ip[..] == w;
      return;
    }
    ghost var was, tail := ip[..], [];
    var i := ip.Length - 1;
    assert was[..i + 1] == was;
    while i >= 0
      invariant -1 <= i < ip.Length
      invariant ip[..] == was[..i + 1] + tail
      invariant Carry(was) == Carry(was[..i + 1]) + tail
    {
      ghost var now := ip[..];
      assert was[..i + 1][..i] == was[..i];
      assert now[i] == was[i];
      if ip[i] == 255 {
        ip[i] := 0;
        assert ip[..] == now[i := 0];
        tail := [0] + tail;
      } else {
        ip[i] := ip[i] + 1;
        assert ip[..] == now[i := was[i] + 1];
        return;
      }
      i := i - 1;
    }
  }

  // ---- Containment ----------------------------------------------------------

  /** A network: its base address and the number of leading one bits of its mask. */
  datatype Net = Net(base: seq<byte>, ones: nat) {
    predicate Valid() { ones <= 8 * |base| && Value(base) % Pow2(HostBits()) == 0 }
    function HostBits(): nat
      requires ones <= 8 * |base|
    {
      8 * |base| - ones
    }
  }

  /** Leading one bits that fall into byte i of the mask. */
  function MaskBits(ones: nat, i: nat): (k: nat)
    ensures k <= 8
  {
    if ones >= 8 * i + 8 then 8 else if ones <= 8 * i then 0 else ones - 8 * i
  }

  /** The byte ANDed with a mask byte of k leading ones: its low 8 - k bits are cleared. */
  function Masked(x: byte, k: nat): nat
    requires k <= 8
  {
    RestBelow(x as nat, Pow2(8 - k));
    x as nat - x as nat % Pow2(8 - k)
  }

  /** IPNet.Contains: same length and the same masked bytes. */
  predicate Contains(net: Net, ip: seq<byte>) {
    && |ip| == |net.base|
    && forall i :: 0 <= i < |ip| ==> Masked(net.base[i], MaskBits(net.ones, i)) == Masked(ip[i], MaskBits(net.ones, i))
  }

  /** Dividing by 256 * 2^h drops the last byte first. */
  lemma DropByte(s: seq<byte>, h: nat)
    requires s != []
    ensures Value(s) / Pow2(h + 8) == Value(s[..|s| - 1]) / Pow2(h)
  {
    Pow2Eight(h);
    DropLast(Value(s[..|s| - 1]), s[|s| - 1] as nat, Pow2(h));
  }

  /** The byte-wise mask test is equality of the numbers' network parts. */
  lemma {:induction false} ContainsByValue(base: seq<byte>, ip: seq<byte>, ones: nat)
    requires |ip| == |base| && ones <= 8 * |base|
    ensures Contains(Net(base, ones), ip)
        <==> Value(base) / Pow2(8 * |base| - ones) == Value(ip) / Pow2(8 * |base| - ones)
    decreases |base|
  {
    if base == [] {
      Pow2Small();
    } else if ones <= 8 * (|base| - 1) {
      var n := |base| - 1;
      ContainsByValue(base[..n], ip[..n], ones);
      LastFree(base, ip, ones);
      DropByte(base, 8 * n - ones);
      DropByte(ip, 8 * n - ones);
      assert 8 * |base| - ones == 8 * n - ones + 8;
    } else {
      ContainsByValue(base[..|base| - 1], ip[..|base| - 1], 8 * (|base| - 1));
      WholeBytes(base[..|base| - 1], ip[..|base| - 1]);
      LastMasked(base, ip, ones);
      MaskedTail(base, ip, ones);
    }
  }

  /** With the mask ending in the last byte, the numbers agree above it exactly when the front bytes are equal
      and the last bytes agree under the mask. */
  lemma MaskedTail(base: seq<byte>, ip: seq<byte>, ones: nat)
    requires |ip| == |base| > 0 && 8 * (|base| - 1) < ones <= 8 * |base|
    ensures
      var n, k, h := |base| - 1, ones - 8 * (|base| - 1), 8 * |base| - ones;
      Value(base) / Pow2(h) == Value(ip) / Pow2(h)
      <==> Value(base[..n]) == Value(ip[..n]) && Masked(base[n], k) == Masked(ip[n], k)
  {
    var n, k := |base| - 1, ones - 8 * (|base| - 1);
    assert 8 * |base| - ones == 8 - k;
    ByteTail(base, ip, k, Pow2(8 - k));
  }

  lemma ByteTail(base: seq<byte>, ip: seq<byte>, k: nat, m: nat)
    requires |ip| == |base| > 0 && k <= 8 && m == Pow2(8 - k)
    ensures
      var n := |base| - 1;
      Value(base) / m == Value(ip) / m
      <==> Value(base[..n]) == Value(ip[..n]) && Masked(base[n], k) == Masked(ip[n], k)
  {
    var n := |base| - 1;
    ByteParts(k);
    TailEqual(Value(base[..n]), Value(ip[..n]), base[n] as nat, ip[n] as nat, m, Pow2(k));
  }

  lemma ByteParts(k: nat)
    requires k <= 8
    ensures Pow2(8 - k) * Pow2(k) == 256
  {
    Pow2Small();
    Pow2Add(8 - k, k);
  }

  lemma WholeBytes(a: seq<byte>, b: seq<byte>)
    requires |a| == |b|
    ensures Value(a) / Pow2(8 * |a| - 8 * |a|) == Value(b) / Pow2(8 * |a| - 8 * |a|) <==> Value(a) == Value(b)
  {
    Pow2Small();
  }

  lemma LastFree(base: seq<byte>, ip: seq<byte>, ones: nat)
    requires |ip| == |base| > 0 && ones <= 8 * (|base| - 1)
    ensures Contains(Net(base, ones), ip) <==> Contains(Net(base[..|base| - 1], ones), ip[..|base| - 1])
  {
    var n := |base| - 1;
    assert MaskBits(ones, n) == 0;
    Pow2Small();
    assert Masked(base[n], 0) == 0 && Masked(ip[n], 0) == 0;
  }

  lemma LastMasked(base: seq<byte>, ip: seq<byte>, ones: nat)
    requires |ip| == |base| > 0 && 8 * (|base| - 1) < ones <= 8 * |base|
    ensures
      var n := |base| - 1;
      Contains(Net(base, ones), ip) <==>
      Contains(Net(base[..n], 8 * n), ip[..n]) && Masked(base[n], ones - 8 * n) == Masked(ip[n], ones - 8 * n)
  {
    var n := |base| - 1;
    assert MaskBits(ones, n) == ones - 8 * n;
    forall i | 0 <= i < n ensures MaskBits(ones, i) == 8 && MaskBits(8 * n, i) == 8 { }
  }

  // ---- usableIPs and the size guard -----------------------------------------

  /** The addresses of the network are exactly those 2^h consecutive numbers. */
  lemma MembersByValue(net: Net, ip: seq<byte>)
    requires net.Valid() && |ip| == |net.base|
    ensures Contains(net, ip) <==> Value(net.base) <= Value(ip) < Value(net.base) + Pow2(net.HostBits())
  {
    ContainsByValue(net.base, ip, net.ones);
    SameBlock(Value(net.base), Value(ip), Pow2(net.HostBits()));
  }

  /** The block of the network fits below 256^length. */
  lemma NetFits(net: Net)
    requires net.Valid()
    ensures Value(net.base) + Pow2(net.HostBits()) <= Pow2(8 * |net.base|)
    ensures net.ones >= 1 ==> 2 * Pow2(net.HostBits()) <= Pow2(8 * |net.base|)
  {
    ValueBound(net.base);
    var m, p := Pow2(net.HostBits()), Pow2(net.ones);
    assert Pow2(8 * |net.base|) == p * m by {
      Pow2Add(net.ones, net.HostBits());
    }
    BlockFits(Value(net.base), m, p);
    if net.ones >= 1 {
      MulUp(m, 2, p);
    }
  }

  /** Whether the ends are dropped: IPv4 and a prefix of /30 or shorter. */
  predicate SkipsEnds(net: Net) {
    |net.base| == 4 && net.ones <= 30
  }

  /** Every address of the network once, in ascending order, without its two ends when they are skipped. */
  predicate Enumerates(net: Net, ips: seq<seq<byte>>)
    requires net.Valid()
  {
    var skip := if SkipsEnds(net) then 1 else 0;
    && |ips| == Pow2(net.HostBits()) - 2 * skip
    && forall k :: 0 <= k < |ips| ==> |ips[k]| == |net.base| && Value(ips[k]) == Value(net.base) + k + skip
  }

  /** One more address than the network holds never follows inside the network, unless it is everything:
      past the last address the number leaves the network, or wraps to zero at the all-ones address. */
  lemma NextLeaves(net: Net, ip: seq<byte>)
    requires net.Valid() && net.ones >= 1 && |ip| == |net.base|
    requires Value(ip) == Value(net.base) + Pow2(net.HostBits()) - 1
    ensures !Contains(net, Carry(ip))
  {
    NetFits(net);
    CarryStep(ip);
    MembersByValue(net, Carry(ip));
  }

  /** With an empty mask every address is contained, so the enumeration loop has no last iteration: it
      depends on the size guard. */
  lemma EmptyMaskContainsAll(base: seq<byte>, ip: seq<byte>)
    requires |ip| == |base|
    ensures Contains(Net(base, 0), ip)
  {
    Pow2Small();
  }

  /** The first |ips| addresses of the network, ends included. */
  predicate Starts(net: Net, ips: seq<seq<byte>>) {
    forall k :: 0 <= k < |ips| ==> |ips[k]| == |net.base| && Value(ips[k]) == Value(net.base) + k
  }

  lemma OneMore(net: Net, ips: seq<seq<byte>>, ip: seq<byte>)
    requires Starts(net, ips) && |ip| == |net.base| && Value(ip) == Value(net.base) + |ips|
    ensures Starts(net, ips + [ip])
  {
  }

  /** usableIPs. */
  method UsableIPs(net: Net) returns (ips: seq<seq<byte>>)
    requires net.Valid() && net.ones >= 1
    ensures Enumerates(net, ips)
  {
    var skipEnds := |net.base| == 4 && net.ones <= 30;
    var ip := new byte[|net.base|](i requires 0 <= i < |net.base| => net.base[i]);
    ghost var at := ip[..];
    assert at == net.base;
    ips := [];
    ghost var m := Pow2(net.HostBits());
    MembersByValue(net, at);
    while Contains(net, ip[..])
      invariant ip[..] == at && |at| == |net.base|
      invariant |ips| <= m && Starts(net, ips)
      invariant |ips| < m ==> Value(at) == Value(net.base) + |ips|
      invariant Contains(net, at) <==> |ips| < m
      decreases m - |ips|
    {
      OneMore(net, ips, at);
      ips := ips + [ip[..]];
      NextAddress(net, at);
      IncrementIP(ip);
      at := Carry(at);
    }
    TrimEnds(net, ips);
    if skipEnds && |ips| >= 2 {
      ips := ips[1..|ips| - 1];
    }
  }

  /** Whether the address after one of the network is still inside. */
  lemma NextAddress(net: Net, ip: seq<byte>)
    requires net.Valid() && net.ones >= 1 && |ip| == |net.base|
    requires Value(net.base) <= Value(ip) < Value(net.base) + Pow2(net.HostBits())
    ensures Contains(net, Carry(ip)) <==> Value(ip) + 1 < Value(net.base) + Pow2(net.HostBits())
    ensures Contains(net, Carry(ip)) ==> Value(Carry(ip)) == Value(ip) + 1
  {
    if Value(ip) + 1 < Value(net.base) + Pow2(net.HostBits()) {
      StaysInside(net, ip);
    } else {
      NextLeaves(net, ip);
    }
  }

  lemma TrimEnds(net: Net, ips: seq<seq<byte>>)
    requires net.Valid() && Starts(net, ips) && |ips| == Pow2(net.HostBits())
    ensures SkipsEnds(net) ==> |ips| >= 2
    ensures Enumerates(net, if SkipsEnds(net) then ips[1..|ips| - 1] else ips)
  {
    if SkipsEnds(net) {
      AtLeastFour(net.HostBits());
    }
  }

  lemma AtLeastFour(h: nat)
    requires h >= 2
    ensures Pow2(h) >= 4
  {
    assert Pow2(h) == 4 * Pow2(h - 2);
  }

  lemma StaysInside(net: Net, ip: seq<byte>)
    requires net.Valid() && |ip| == |net.base|
    requires Value(net.base) <= Value(ip) < Value(net.base) + Pow2(net.HostBits()) - 1
    ensures Contains(net, Carry(ip)) && Value(Carry(ip)) == Value(ip) + 1
  {
    NetFits(net);
    CarryStep(ip);
    MembersByValue(net, Carry(ip));
  }

  datatype Refusal = TooManyBits | TooManyAddresses | TooManyUsable
  datatype Result = Ok(ips: seq<seq<byte>>) | Refused(why: Refusal)

  /** The part of Scan before its record is created: both size checks around the enumeration.  The second
      check can never fire. */
  method ScanAddresses(net: Net, maxHosts: int) returns (r: Result)
    requires net.Valid() && |net.base| in {4, 16}
    ensures r.Ok? <==> net.HostBits() < 31 && Pow2(net.HostBits()) <= maxHosts
    ensures r.Ok? ==> Enumerates(net, r.ips) && |r.ips| <= maxHosts
    ensures r == Refused(TooManyBits) <==> net.HostBits() >= 31
    ensures r != Refused(TooManyUsable)
  {
    var hostBits := 8 * |net.base| - net.ones;
    if hostBits >= 31 {
      return Refused(TooManyBits);
    }
    if Pow2(hostBits) > maxHosts {
      return Refused(TooManyAddresses);
    }
    var ips := UsableIPs(net);
    if |ips| > maxHosts {
      return Refused(TooManyUsable);
    }
    return Ok(ips);
  }

  /** The enumeration misses no address of the network but the two skipped ends and lists nothing else. */
  lemma EnumerationIsExact(net: Net, ips: seq<seq<byte>>, ip: seq<byte>)
    requires net.Valid() && Enumerates(net, ips) && |ip| == |net.base|
    ensures |ips| == Pow2(net.HostBits()) - if |net.base| == 4 && net.ones <= 30 then 2 else 0
    ensures ip in ips <==>
            && Contains(net, ip)
            && (|net.base| == 4 && net.ones <= 30 ==>
                  Value(ip) != Value(net.base) && Value(ip) != Value(net.base) + Pow2(net.HostBits()) - 1)
    ensures forall j, k :: 0 <= j < k < |ips| ==> Value(ips[j]) < Value(ips[k]) && ips[j] != ips[k]
  {
    MembersByValue(net, ip);
    var skip := if SkipsEnds(net) then 1 else 0;
    var k := Value(ip) - Value(net.base) - skip;
    if 0 <= k < |ips| {
      ValueInjective(ip, ips[k]);
    }
  }
}
