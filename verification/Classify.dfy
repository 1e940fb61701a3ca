/** The device classifier: a decision list over vendor, banner and open ports. */
module Classify {

  function LowerChar(ch: char): char {
    if 'A' <= ch <= 'Z' then ((ch as int) + 32) as char else ch
  }

  function Lower(s: string): (r: string)
    ensures |r| == |s|
    ensures forall k :: 0 <= k < |s| ==> r[k] == LowerChar(s[k])
  {
    if s == "" then "" else [LowerChar(s[0])] + Lower(s[1..])
  }

  predicate Contains(s: string, sub: string) {
    exists k :: 0 <= k <= |s| && sub <= s[k..]
  }

  function Members(ports: seq<int>): set<int> {
    set p | p in ports
  }

  /** indexSet: the lookup maps exactly the listed ports to true. */
  method IndexSet(ports: seq<int>) returns (m: map<int, bool>)
    ensures m.Keys == Members(ports)
    ensures forall p :: p in m ==> m[p]
  {
    m := map[];
    for i := 0 to |ports|
      invariant m.Keys == Members(ports[..i])
      invariant forall p :: p in m ==> m[p]
    {
      m := m[ports[i] := true];
      assert ports[..i + 1] == ports[..i] + [ports[i]];
    }
    assert ports[..|ports|] == ports;
  }

  datatype Device =
    | Printer | Router | Hypervisor | KubernetesNode | ContainerHost
    | MySql | Postgres | MsSql | MongoDb | Redis | Memcached | Nas
    | WindowsDc | WindowsServer | WindowsHost | MailServer | DnsServer | IotBroker | Embedded | Camera
    | LinuxHost | Appliance | Unclassified

  /** The label classify returns for each kind of device. */
  function Name(d: Device): string {
    match d
    case Printer => "printer"
    case Router => "router"
    case Hypervisor => "hypervisor"
    case KubernetesNode => "kubernetes-node"
    case ContainerHost => "container-host"
    case MySql => "database (mysql)"
    case Postgres => "database (postgres)"
    case MsSql => "database (mssql)"
    case MongoDb => "database (mongodb)"
    case Redis => "database (redis)"
    case Memcached => "database (memcached)"
    case Nas => "nas"
    case WindowsDc => "windows-dc"
    case WindowsServer => "windows-server"
    case WindowsHost => "windows-host"
    case MailServer => "mail-server"
    case DnsServer => "dns-server"
    case IotBroker => "iot-broker"
    case Embedded => "embedded"
    case Camera => "camera"
    case LinuxHost => "linux-host"
    case Appliance => "appliance"
    case Unclassified => ""
  }

  /** Length and two letters of a label; they tell all labels apart. */
  function Mark(d: Device): (nat, char, char) {
    match d
    case Printer => (7, 'p', ' ')
    case Router => (6, 'r', ' ')
    case Hypervisor => (10, 'h', ' ')
    case KubernetesNode => (15, 'k', 'n')
    case ContainerHost => (14, 'c', 'o')
    case MySql => (16, 'd', 'y')
    case Postgres => (19, 'd', 'o')
    case MsSql => (16, 'd', 's')
    case MongoDb => (18, 'd', 'o')
    case Redis => (16, 'd', 'e')
    case Memcached => (20, 'd', 'e')
    case Nas => (3, 'n', ' ')
    case WindowsDc => (10, 'w', ' ')
    case WindowsServer => (14, 'w', 'v')
    case WindowsHost => (12, 'w', 't')
    case MailServer => (11, 'm', ' ')
    case DnsServer => (10, 'd', ' ')
    case IotBroker => (10, 'i', ' ')
    case Embedded => (8, 'e', ' ')
    case Camera => (6, 'c', ' ')
    case LinuxHost => (10, 'l', ' ')
    case Appliance => (9, 'a', ' ')
    case Unclassified => (0, ' ', ' ')
  }

  lemma NameMark(d: Device)
    ensures |Name(d)| == Mark(d).0
    ensures |Name(d)| > 0 ==> Name(d)[0] == Mark(d).1
    ensures |Name(d)| > 11 ==> Name(d)[11] == Mark(d).2
  {
  }

  /** Different kinds have different labels. */
  lemma NamesDiffer(d: Device, e: Device)
    ensures Name(d) == Name(e) ==> d == e
  {
    NameMark(d);
    NameMark(e);
  }

  /** The rules before the one on the SSH greeting, in their order; Unclassified when none applies. */
  function EarlierRule(vendor: string, tcp: set<int>, udp: set<int>): Device {
    var first := ServerRule(vendor, tcp);
    if first.Unclassified? then ServiceRule(vendor, tcp, udp) else first
  }

  /** Printers, network gear, hypervisors, containers, databases and storage. */
  function ServerRule(vendor: string, tcp: set<int>): Device {
    if 9100 in tcp || 631 in tcp || 515 in tcp then Printer
    else if Contains(vendor, "mikrotik") || 8728 in tcp || 8729 in tcp then Router
    else if Contains(vendor, "cisco") && (22 in tcp || 23 in tcp || 80 in tcp || 443 in tcp) then Router
    else if Contains(vendor, "vmware") && (902 in tcp || 5988 in tcp || 5989 in tcp) then Hypervisor
    else if Contains(vendor, "qemu") || Contains(vendor, "kvm") then Hypervisor
    else if Contains(vendor, "virtualbox") || Contains(vendor, "hyper-v") then Hypervisor
    else if 8006 in tcp then Hypervisor
    else if 6443 in tcp || 2379 in tcp || 10250 in tcp then KubernetesNode
    else if 2375 in tcp || 2376 in tcp then ContainerHost
    else if 3306 in tcp then MySql
    else if 5432 in tcp then Postgres
    else if 1433 in tcp then MsSql
    else if 27017 in tcp then MongoDb
    else if 6379 in tcp then Redis
    else if 11211 in tcp then Memcached
    else if Contains(vendor, "synology") || Contains(vendor, "western digital") || Contains(vendor, "qnap") then Nas
    else if 2049 in tcp && 445 in tcp then Nas
    else Unclassified
  }

  /** Windows, mail, DNS, embedded devices and cameras. */
  function ServiceRule(vendor: string, tcp: set<int>, udp: set<int>): Device {
    if 88 in tcp && 389 in tcp then WindowsDc
    else if 445 in tcp || 5985 in tcp || 5986 in tcp then
      (if 80 in tcp || 443 in tcp || 25 in tcp then WindowsServer else WindowsHost)
    else if 3389 in tcp then WindowsHost
    else if (25 in tcp || 465 in tcp || 587 in tcp) && (143 in tcp || 993 in tcp || 110 in tcp || 995 in tcp)
    then MailServer
    else if (53 in tcp || 53 in udp) && 88 !in tcp && 389 !in tcp then DnsServer
    else if 1883 in tcp || 8883 in tcp then IotBroker
    else if Contains(vendor, "raspberry pi") || Contains(vendor, "espressif") then Embedded
    else if Contains(vendor, "hikvision") || Contains(vendor, "dahua") || Contains(vendor, "axis") then Camera
    else if 554 in tcp then Camera
    else Unclassified
  }

  /** What the banner says: an OpenSSH greeting that does not name Windows, the one of OpenSSH for Windows, or
      neither. */
  datatype Hint = UnixSsh | WindowsSsh | NoHint

  function HintOf(banner: string): Hint {
    if "ssh-" <= banner && Contains(banner, "openssh") && !Contains(banner, "windows") then UnixSsh
    else if "ssh-" <= banner && Contains(banner, "openssh_for_windows") then WindowsSsh
    else NoHint
  }

  /** The rules from the SSH greeting on; `n` is the length of the TCP list, repeated ports included. */
  function LaterRule(hint: Hint, tcp: set<int>, n: nat): Device {
    match hint
    case UnixSsh => LinuxHost
    case WindowsSsh => WindowsHost
    case NoHint =>
      if (80 in tcp || 443 in tcp || 8080 in tcp || 8443 in tcp)
         && 22 !in tcp && 23 !in tcp && 3389 !in tcp && 445 !in tcp
      then Appliance
      else if 22 in tcp && n <= 3 then LinuxHost
      else Unclassified
  }

  /** The rule that applies first; vendor and banner are compared in lower case. */
  function Kind(vendor: string, banner: string, tcp: seq<int>, udp: seq<int>): Device {
    var earlier := EarlierRule(Lower(vendor), Members(tcp), Members(udp));
    if earlier.Unclassified? then LaterRule(HintOf(Lower(banner)), Members(tcp), |tcp|) else earlier
  }

  function Type(vendor: string, banner: string, tcp: seq<int>, udp: seq<int>): string {
    Name(Kind(vendor, banner, tcp, udp))
  }

  /** The order in which port tasks append their results does not matter. */
  lemma OrderIrrelevant(vendor: string, banner: string, tcp: seq<int>, tcp': seq<int>, udp: seq<int>, udp': seq<int>)
    requires multiset(tcp) == multiset(tcp') && multiset(udp) == multiset(udp')
    ensures Type(vendor, banner, tcp, udp) == Type(vendor, banner, tcp', udp')
  {
    assert |multiset(tcp)| == |tcp| && |multiset(tcp')| == |tcp'|;
    SameMembers(tcp, tcp');
    SameMembers(udp, udp');
  }

  lemma SameMembers(a: seq<int>, b: seq<int>)
    requires multiset(a) == multiset(b)
    ensures Members(a) == Members(b)
  {
    forall p ensures p in a <==> p in b {
      assert p in a <==> p in multiset(a);
      assert p in b <==> p in multiset(b);
    }
  }

  /** Two hints with lists of n and m entries lead to the same later rule: the same greeting, or no greeting and the
      same side of the length limit where SSH makes it count, or a greeting of OpenSSH on Unix against a short list
      with SSH. */
  predicate Agree(x: Hint, n: nat, y: Hint, m: nat, ssh: bool) {
    match (x, y)
    case (NoHint, NoHint) => !ssh || (n <= 3 <==> m <= 3)
    case (UnixSsh, NoHint) => ssh && m <= 3
    case (NoHint, UnixSsh) => ssh && n <= 3
    case _ => x == y
  }

  /** Two banners and two lists of the same ports, exactly: they give the same device type when an earlier rule applies
      to the ports, or when the banners and lengths agree. */
  lemma SameTypeExactly(vendor: string, o: string, o': string, a: seq<int>, b: seq<int>, udp: seq<int>)
    requires Members(a) == Members(b)
    ensures Type(vendor, o, a, udp) == Type(vendor, o', b, udp)
            <==> || EarlierRule(Lower(vendor), Members(a), Members(udp)) != Unclassified
                 || Agree(HintOf(Lower(o)), |a|, HintOf(Lower(o')), |b|, 22 in a)
  {
    assert 22 in Members(a) <==> 22 in a;
    LaterExactly(HintOf(Lower(o)), |a|, HintOf(Lower(o')), |b|, Members(a));
    NamesDiffer(Kind(vendor, o, a, udp), Kind(vendor, o', b, udp));
  }

  lemma LaterExactly(x: Hint, n: nat, y: Hint, m: nat, tcp: set<int>)
    ensures LaterRule(x, tcp, n) == LaterRule(y, tcp, m) <==> Agree(x, n, y, m, 22 in tcp)
  {
  }

  /** When repeats matter, exactly.  Two lists of the same ports give the same device type unless one list has at
      most three entries and the other more, SSH is among the ports, no earlier rule applies and the banner gives no
      hint. */
  lemma RepeatsExactly(vendor: string, banner: string, a: seq<int>, b: seq<int>, udp: seq<int>)
    requires Members(a) == Members(b)
    ensures Type(vendor, banner, a, udp) == Type(vendor, banner, b, udp)
            <==> || (|a| <= 3 <==> |b| <= 3)
                 || 22 !in a
                 || EarlierRule(Lower(vendor), Members(a), Members(udp)) != Unclassified
                 || HintOf(Lower(banner)) != NoHint
  {
    SameTypeExactly(vendor, banner, banner, a, b, udp);
  }

  // ---- Hosts without vendor -----------------------------------------------------

  lemma NoText()
    ensures forall sub: string :: sub != "" ==> !Contains("", sub)
    ensures HintOf("") == NoHint && Lower("") == ""
  {
  }

  /** No earlier rule applies to a host without vendor that answers on web and SSH ports only. */
  lemma NoEarlierRule(tcp: set<int>)
    requires tcp <= {22, 80, 443, 8080}
    ensures EarlierRule("", tcp, {}) == Unclassified
  {
    NoServerRule(tcp);
    NoServiceRule(tcp);
  }

  lemma NoServerRule(tcp: set<int>)
    requires tcp <= {22, 80, 443, 8080}
    ensures ServerRule("", tcp) == Unclassified
  {
    NoText();
  }

  lemma NoServiceRule(tcp: set<int>)
    requires tcp <= {22, 80, 443, 8080}
    ensures ServiceRule("", tcp, {}) == Unclassified
  {
    NoText();
  }

  /** A host without vendor and banner that answers on 22 and 80 only. */
  lemma SshAndWeb(tcp: seq<int>)
    requires Members(tcp) == {22, 80}
    ensures Type("", "", tcp, []) == if |tcp| <= 3 then "linux-host" else ""
  {
    NoText();
    NoEarlierRule({22, 80});
    assert Members([]) == {};
  }

  /** A host without vendor and banner that answers on 80 only. */
  lemma OnlyWeb()
    ensures Type("", "", [80], []) == "appliance"
  {
    NoText();
    NoEarlierRule({80});
    assert Members([80]) == {80} && Members([]) == {};
    assert Kind("", "", [80], []) == Appliance;
  }

  const GREETING_HEAD := "SSH-2.0-"
  const GREETING_TAIL := "OpenSSH"

  /** A greeting of OpenSSH that does not name Windows. */
  const GREETING := GREETING_HEAD + GREETING_TAIL

  lemma OpenSshGreeting()
    ensures HintOf(Lower(GREETING)) == UnixSsh
  {
    LowerAppend(GREETING_HEAD, GREETING_TAIL);
    LowerHead();
    LowerTail();
    IsUnixSsh("ssh-2.0-", "openssh");
  }

  lemma LowerHead()
    ensures Lower(GREETING_HEAD) == "ssh-2.0-"
    ensures forall j :: 0 <= j < |"ssh-2.0-"| ==> "ssh-2.0-"[j] != 'w'
  {
  }

  lemma LowerTail()
    ensures Lower(GREETING_TAIL) == "openssh"
    ensures forall j :: 0 <= j < |"openssh"| ==> "openssh"[j] != 'w'
  {
  }

  lemma LowerAppend(a: string, b: string)
    ensures Lower(a + b) == Lower(a) + Lower(b)
  {
  }

  lemma IsUnixSsh(head: string, tail: string)
    requires "ssh-" <= head && tail == "openssh"
    requires (forall j :: 0 <= j < |head| ==> head[j] != 'w') && forall j :: 0 <= j < |tail| ==> tail[j] != 'w'
    ensures HintOf(head + tail) == UnixSsh
  {
    var low := head + tail;
    assert "ssh-" <= low;
    assert low[|head|..] == tail;
    assert tail <= low[|head|..];
    Lacks(low, "windows");
  }

  /** A string without the first letter of another does not contain it. */
  lemma Lacks(s: string, sub: string)
    requires sub != "" && forall j :: 0 <= j < |s| ==> s[j] != sub[0]
    ensures !Contains(s, sub)
  {
    forall k | 0 <= k <= |s| ensures !(sub <= s[k..]) {
      if k < |s| {
        assert s[k..][0] == s[k];
      }
    }
  }

  /** With SSH, three web ports and no vendor the greeting decides. */
  lemma GreetingDecides(tcp: seq<int>, banner: string)
    requires Members(tcp) == {22, 80, 443, 8080}
    ensures Kind("", banner, tcp, []) == LaterRule(HintOf(Lower(banner)), {22, 80, 443, 8080}, |tcp|)
    ensures |tcp| >= 4
  {
    NoText();
    NoEarlierRule({22, 80, 443, 8080});
    assert Members([]) == {};
    MembersBound(tcp);
  }

  lemma GreetingType(tcp: seq<int>, banner: string)
    requires Members(tcp) == {22, 80, 443, 8080}
    ensures Type("", banner, tcp, []) == Name(LaterRule(HintOf(Lower(banner)), {22, 80, 443, 8080}, |tcp|))
  {
    GreetingDecides(tcp, banner);
  }

  lemma {:induction false} MembersBound(list: seq<int>)
    ensures |Members(list)| <= |list|
    decreases |list|
  {
    if list == [] {
    } else {
      var n := |list| - 1;
      assert list == list[..n] + [list[n]];
      MembersBound(list[..n]);
      assert Members(list) == Members(list[..n]) + {list[n]};
    }
  }
}
