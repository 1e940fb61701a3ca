/**
What each device label means: the signals of the classifier as conditions on vendor text, banner
text and open ports, the exact condition of every label, and their priority.
*/
module Labels {
  import opened Classify

  /** What is known of a host: vendor and banner in lower case, the open ports, and the length of the TCP list. */
  datatype Evidence = Evidence(vendor: string, banner: string, tcp: set<int>, count: nat, udp: set<int>) {
    predicate Open(p: int) { p in tcp }
    predicate Makes(name: string) { Contains(vendor, name) }

    predicate Printers() { Open(515) || Open(631) || Open(9100) }
    predicate Managed() { Open(22) || Open(23) || Open(80) || Open(443) }
    predicate Routers() { Makes("mikrotik") || Open(8728) || Open(8729) || (Makes("cisco") && Managed()) }
    predicate Virtual() { Makes("qemu") || Makes("kvm") || Makes("virtualbox") || Makes("hyper-v") }
    predicate Esxi() { Makes("vmware") && (Open(902) || Open(5988) || Open(5989)) }
    predicate Hypervisors() { Esxi() || Virtual() || Open(8006) }
    predicate Kubernetes() { Open(2379) || Open(6443) || Open(10250) }
    predicate Containers() { Open(2375) || Open(2376) }

    /** A signal of network gear, a hypervisor or a container platform. */
    predicate Platform() { Printers() || Routers() || Hypervisors() || Kubernetes() || Containers() }
    predicate Database() { Open(3306) || Open(5432) || Open(1433) || Open(27017) || Open(6379) || Open(11211) }
    predicate Storage() {
      Makes("synology") || Makes("western digital") || Makes("qnap") || (Open(2049) && Open(445))
    }
    predicate Server() { Platform() || Database() || Storage() }

    predicate DomainController() { Open(88) && Open(389) }
    predicate Smb() { Open(445) || Open(5985) || Open(5986) }
    predicate Serves() { Open(80) || Open(443) || Open(25) }
    predicate Windows() { DomainController() || Smb() || Open(3389) }
    predicate Mail() {
      (Open(25) || Open(465) || Open(587)) && (Open(110) || Open(143) || Open(993) || Open(995))
    }
    predicate Dns() { (Open(53) || 53 in udp) && !Open(88) && !Open(389) }
    predicate Broker() { Open(1883) || Open(8883) }
    predicate Boards() { Makes("raspberry pi") || Makes("espressif") }
    predicate Cameras() { Makes("hikvision") || Makes("dahua") || Makes("axis") || Open(554) }
    predicate Service() { Windows() || Mail() || Dns() || Broker() || Boards() || Cameras() }

    predicate Greets() { "ssh-" <= banner }
    predicate UnixGreeting() { Greets() && Contains(banner, "openssh") && !Contains(banner, "windows") }
    predicate WindowsGreeting() { Greets() && !UnixGreeting() && Contains(banner, "openssh_for_windows") }
    predicate Greeting() { UnixGreeting() || WindowsGreeting() }
    predicate Web() { Open(80) || Open(443) || Open(8080) || Open(8443) }
    predicate Shell() { Open(22) || Open(23) || Open(445) || Open(3389) }
    predicate ShortSsh() { Open(22) && count <= 3 }
  }

  function Known(vendor: string, banner: string, tcp: seq<int>, udp: seq<int>): Evidence {
    Evidence(Lower(vendor), Lower(banner), Members(tcp), |tcp|, Members(udp))
  }

  // ---- Text ------------------------------------------------------------------------

  /** Containing a text is having it as a slice. */
  lemma ContainsSlice(s: string, text: string)
    ensures Contains(s, text) <==> exists a, b :: 0 <= a <= b <= |s| && s[a..b] == text
  {
    if Contains(s, text) {
      var k :| 0 <= k <= |s| && text <= s[k..];
      assert s[k..k + |text|] == text;
    }
    if a, b :| 0 <= a <= b <= |s| && s[a..b] == text {
      assert text <= s[a..];
    }
  }

  /** The same letter, whatever its case. */
  predicate SameLetter(a: char, b: char) {
    || a == b
    || ('A' <= a <= 'Z' && b as int == a as int + 32)
    || ('A' <= b <= 'Z' && a as int == b as int + 32)
  }

  predicate SameText(s: string, t: string) {
    |s| == |t| && forall k :: 0 <= k < |s| ==> SameLetter(s[k], t[k])
  }

  lemma SameLower(s: string, t: string)
    ensures Lower(s) == Lower(t) <==> SameText(s, t)
  {
    assert |Lower(s)| == |s| && |Lower(t)| == |t|;
    forall k | 0 <= k < |s| && |s| == |t| ensures Lower(s)[k] == Lower(t)[k] <==> SameLetter(s[k], t[k]) {
      assert LowerChar(s[k]) == LowerChar(t[k]) <==> SameLetter(s[k], t[k]);
    }
  }

  /** The case of vendor and banner does not matter. */
  lemma CaseIgnored(vendor: string, vendor': string, banner: string, banner': string, tcp: seq<int>, udp: seq<int>)
    requires SameText(vendor, vendor') && SameText(banner, banner')
    ensures Type(vendor, banner, tcp, udp) == Type(vendor', banner', tcp, udp)
  {
    SameLower(vendor, vendor');
    SameLower(banner, banner');
  }

  // ---- Exact conditions, by group -------------------------------------------------

  lemma ServerKinds(e: Evidence)
    ensures
      var d := ServerRule(e.vendor, e.tcp);
      && (d == Printer <==> e.Printers())
      && (d == Router <==> e.Routers() && !e.Printers())
      && (d == Hypervisor <==> e.Hypervisors() && !e.Printers() && !e.Routers())
      && (d == KubernetesNode <==> e.Kubernetes() && !e.Printers() && !e.Routers() && !e.Hypervisors())
      && (d == ContainerHost
          <==> e.Containers() && !e.Printers() && !e.Routers() && !e.Hypervisors() && !e.Kubernetes())
      && (d == Nas <==> e.Storage() && !e.Database() && !e.Platform())
      && (d == Unclassified <==> !e.Server())
  {
  }

  lemma DatabaseKinds(e: Evidence)
    ensures
      var d := ServerRule(e.vendor, e.tcp);
      && (d == MySql <==> e.Open(3306) && !e.Platform())
      && (d == Postgres <==> e.Open(5432) && !e.Open(3306) && !e.Platform())
      && (d == MsSql <==> e.Open(1433) && !e.Open(3306) && !e.Open(5432) && !e.Platform())
      && (d == MongoDb <==> e.Open(27017) && !e.Open(3306) && !e.Open(5432) && !e.Open(1433) && !e.Platform())
      && (d == Redis
          <==> && e.Open(6379)
               && !e.Open(3306) && !e.Open(5432) && !e.Open(1433) && !e.Open(27017) && !e.Platform())
      && (d == Memcached
          <==> && e.Open(11211) && !e.Open(3306) && !e.Open(5432) && !e.Open(1433)
               && !e.Open(27017) && !e.Open(6379) && !e.Platform())
  {
  }

  lemma ServiceKinds(e: Evidence)
    ensures
      var d := ServiceRule(e.vendor, e.tcp, e.udp);
      && (d == WindowsDc <==> e.DomainController())
      && (d == WindowsServer <==> e.Smb() && e.Serves() && !e.DomainController())
      && (d == WindowsHost <==> !e.DomainController() && if e.Smb() then !e.Serves() else e.Open(3389))
      && (d == MailServer <==> e.Mail() && !e.Windows())
      && (d == DnsServer <==> e.Dns() && !e.Mail() && !e.Windows())
      && (d == IotBroker <==> e.Broker() && !e.Dns() && !e.Mail() && !e.Windows())
      && (d == Embedded <==> e.Boards() && !e.Broker() && !e.Dns() && !e.Mail() && !e.Windows())
      && (d == Camera <==> e.Cameras() && !e.Boards() && !e.Broker() && !e.Dns() && !e.Mail() && !e.Windows())
      && (d == Unclassified <==> !e.Service())
  {
  }

  lemma LaterKinds(e: Evidence)
    ensures
      var d := LaterRule(HintOf(e.banner), e.tcp, e.count);
      && (d == WindowsHost <==> e.WindowsGreeting())
      && (d == Appliance <==> e.Web() && !e.Shell() && !e.Greeting())
      && (d == LinuxHost <==> e.UnixGreeting() || (!e.Greeting() && e.ShortSsh()))
      && (d == Unclassified <==> !e.Greeting() && !e.ShortSsh() && (!e.Web() || e.Shell()))
      && (d == WindowsHost || d == Appliance || d == LinuxHost || d == Unclassified)
  {
  }

  /** The kinds a group can answer. */
  lemma GroupsApart(e: Evidence)
    ensures
      var a, b := ServerRule(e.vendor, e.tcp), ServiceRule(e.vendor, e.tcp, e.udp);
      && (a.Printer? || a.Router? || a.Hypervisor? || a.KubernetesNode? || a.ContainerHost? || a.MySql? || a.Postgres?
          || a.MsSql? || a.MongoDb? || a.Redis? || a.Memcached? || a.Nas? || a.Unclassified?)
      && (b.WindowsDc? || b.WindowsServer? || b.WindowsHost? || b.MailServer? || b.DnsServer? || b.IotBroker?
          || b.Embedded? || b.Camera? || b.Unclassified?)
  {
  }

  // ---- Labels ----------------------------------------------------------------------

  /** The label is that of kind d exactly when d is the kind. */
  lemma LabelIsKind(vendor: string, banner: string, tcp: seq<int>, udp: seq<int>, d: Device)
    ensures Type(vendor, banner, tcp, udp) == Name(d) <==> Kind(vendor, banner, tcp, udp) == d
  {
    NamesDiffer(Kind(vendor, banner, tcp, udp), d);
  }

  /** The exact conditions of the labels for printers, network gear, hypervisors, container platforms and storage. */
  lemma PlatformLabels(vendor: string, banner: string, tcp: seq<int>, udp: seq<int>)
    ensures
      var e, named := Known(vendor, banner, tcp, udp), Type(vendor, banner, tcp, udp);
      && (named == "printer" <==> e.Printers())
      && (named == "router" <==> e.Routers() && !e.Printers())
      && (named == "hypervisor" <==> e.Hypervisors() && !e.Printers() && !e.Routers())
      && (named == "kubernetes-node" <==> e.Kubernetes() && !e.Printers() && !e.Routers() && !e.Hypervisors())
      && (named == "container-host"
          <==> e.Containers() && !e.Printers() && !e.Routers() && !e.Hypervisors() && !e.Kubernetes())
      && (named == "nas" <==> e.Storage() && !e.Database() && !e.Platform())
  {
    ServerKind(vendor, banner, tcp, udp);
    LabelIsKind(vendor, banner, tcp, udp, Printer);
    LabelIsKind(vendor, banner, tcp, udp, Router);
    LabelIsKind(vendor, banner, tcp, udp, Hypervisor);
    LabelIsKind(vendor, banner, tcp, udp, KubernetesNode);
    LabelIsKind(vendor, banner, tcp, udp, ContainerHost);
    LabelIsKind(vendor, banner, tcp, udp, Nas);
    ServerKinds(Known(vendor, banner, tcp, udp));
  }

  /** The exact conditions of the database labels: the first of the six ports that is open, on a host without a
      platform signal. */
  lemma DatabaseLabels(vendor: string, banner: string, tcp: seq<int>, udp: seq<int>)
    ensures
      var e, named := Known(vendor, banner, tcp, udp), Type(vendor, banner, tcp, udp);
      && (named == "database (mysql)" <==> 3306 in tcp && !e.Platform())
      && (named == "database (postgres)" <==> 5432 in tcp && 3306 !in tcp && !e.Platform())
      && (named == "database (mssql)" <==> 1433 in tcp && 3306 !in tcp && 5432 !in tcp && !e.Platform())
      && (named == "database (mongodb)"
          <==> 27017 in tcp && 3306 !in tcp && 5432 !in tcp && 1433 !in tcp && !e.Platform())
      && (named == "database (redis)"
          <==> 6379 in tcp && 3306 !in tcp && 5432 !in tcp && 1433 !in tcp && 27017 !in tcp && !e.Platform())
      && (named == "database (memcached)"
          <==> && 11211 in tcp && 3306 !in tcp && 5432 !in tcp && 1433 !in tcp && 27017 !in tcp && 6379 !in tcp
               && !e.Platform())
  {
    ServerKind(vendor, banner, tcp, udp);
    LabelIsKind(vendor, banner, tcp, udp, MySql);
    LabelIsKind(vendor, banner, tcp, udp, Postgres);
    LabelIsKind(vendor, banner, tcp, udp, MsSql);
    LabelIsKind(vendor, banner, tcp, udp, MongoDb);
    LabelIsKind(vendor, banner, tcp, udp, Redis);
    LabelIsKind(vendor, banner, tcp, udp, Memcached);
    DatabaseKinds(Known(vendor, banner, tcp, udp));
  }

  lemma ServerKind(vendor: string, banner: string, tcp: seq<int>, udp: seq<int>)
    ensures
      var e, d := Known(vendor, banner, tcp, udp), Kind(vendor, banner, tcp, udp);
      && (e.Server() ==> d == ServerRule(e.vendor, e.tcp))
      && (!e.Server() && e.Service() ==> d == ServiceRule(e.vendor, e.tcp, e.udp))
      && (!e.Server() && !e.Service() ==> d == LaterRule(HintOf(e.banner), e.tcp, e.count))
      && (|| d.Printer? || d.Router? || d.Hypervisor? || d.KubernetesNode? || d.ContainerHost? || d.MySql?
          || d.Postgres? || d.MsSql? || d.MongoDb? || d.Redis? || d.Memcached? || d.Nas?
          ==> e.Server())
      && (|| d.WindowsDc? || d.WindowsServer? || d.MailServer? || d.DnsServer? || d.IotBroker?
          || d.Embedded? || d.Camera?
          ==> !e.Server() && e.Service())
      && (d.LinuxHost? || d.Appliance? || d.Unclassified? ==> !e.Server() && !e.Service())
  {
    var e := Known(vendor, banner, tcp, udp);
    ServerKinds(e);
    ServiceKinds(e);
    LaterKinds(e);
    GroupsApart(e);
  }

  /** The exact conditions of the Windows labels; a windows-host can also be told by its greeting. */
  lemma WindowsLabels(vendor: string, banner: string, tcp: seq<int>, udp: seq<int>)
    ensures
      var e, named := Known(vendor, banner, tcp, udp), Type(vendor, banner, tcp, udp);
      && (named == "windows-dc" <==> e.DomainController() && !e.Server())
      && (named == "windows-server" <==> e.Smb() && e.Serves() && !e.DomainController() && !e.Server())
      && (named == "windows-host"
          <==> && !e.Server() && !e.DomainController()
               && if e.Smb() then !e.Serves()
                  else if e.Open(3389) then true
                  else e.WindowsGreeting() && !e.Service())
  {
    var e := Known(vendor, banner, tcp, udp);
    ServerKind(vendor, banner, tcp, udp);
    LabelIsKind(vendor, banner, tcp, udp, WindowsDc);
    LabelIsKind(vendor, banner, tcp, udp, WindowsServer);
    LabelIsKind(vendor, banner, tcp, udp, WindowsHost);
    GroupsApart(e);
    ServiceKinds(e);
    LaterKinds(e);
  }

  /** The exact conditions of the service labels. */
  lemma ServiceLabels(vendor: string, banner: string, tcp: seq<int>, udp: seq<int>)
    ensures
      var e, named := Known(vendor, banner, tcp, udp), Type(vendor, banner, tcp, udp);
      && (named == "mail-server" <==> e.Mail() && !e.Windows() && !e.Server())
      && (named == "dns-server" <==> e.Dns() && !e.Mail() && !e.Windows() && !e.Server())
      && (named == "iot-broker" <==> e.Broker() && !e.Dns() && !e.Mail() && !e.Windows() && !e.Server())
      && (named == "embedded"
          <==> e.Boards() && !e.Broker() && !e.Dns() && !e.Mail() && !e.Windows() && !e.Server())
      && (named == "camera"
          <==> && e.Cameras() && !e.Boards() && !e.Broker() && !e.Dns() && !e.Mail() && !e.Windows()
               && !e.Server())
  {
    var e := Known(vendor, banner, tcp, udp);
    ServerKind(vendor, banner, tcp, udp);
    LabelIsKind(vendor, banner, tcp, udp, MailServer);
    LabelIsKind(vendor, banner, tcp, udp, DnsServer);
    LabelIsKind(vendor, banner, tcp, udp, IotBroker);
    LabelIsKind(vendor, banner, tcp, udp, Embedded);
    LabelIsKind(vendor, banner, tcp, udp, Camera);
    ServiceKinds(e);
  }

  /** The exact conditions of the remaining labels, which need that no server and no service signal is there. */
  lemma LastLabels(vendor: string, banner: string, tcp: seq<int>, udp: seq<int>)
    ensures
      var e, named := Known(vendor, banner, tcp, udp), Type(vendor, banner, tcp, udp);
      && (named == "linux-host"
          <==> !e.Server() && !e.Service() && (e.UnixGreeting() || (!e.Greeting() && 22 in tcp && |tcp| <= 3)))
      && (named == "appliance" <==> !e.Server() && !e.Service() && e.Web() && !e.Shell() && !e.Greeting())
      && (named == ""
          <==> && !e.Server() && !e.Service() && !e.Greeting()
               && !(22 in tcp && |tcp| <= 3) && (!e.Web() || e.Shell()))
  {
    var e := Known(vendor, banner, tcp, udp);
    ServerKind(vendor, banner, tcp, udp);
    LabelIsKind(vendor, banner, tcp, udp, LinuxHost);
    LabelIsKind(vendor, banner, tcp, udp, Appliance);
    LabelIsKind(vendor, banner, tcp, udp, Unclassified);
    LaterKinds(e);
    assert 22 in Members(tcp) <==> 22 in tcp;
  }

  // ---- Priority ----------------------------------------------------------------------

  /** The signals, most specific first. */
  predicate Signal(k: nat, e: Evidence) {
    if k == 0 then e.Printers()
    else if k == 1 then e.Routers()
    else if k == 2 then e.Hypervisors()
    else if k == 3 then e.Kubernetes()
    else if k == 4 then e.Containers()
    else if k == 5 then e.Open(3306)
    else if k == 6 then e.Open(5432)
    else if k == 7 then e.Open(1433)
    else if k == 8 then e.Open(27017)
    else if k == 9 then e.Open(6379)
    else if k == 10 then e.Open(11211)
    else if k == 11 then e.Storage()
    else if k == 12 then e.DomainController()
    else if k == 13 then e.Smb()
    else if k == 14 then e.Open(3389)
    else if k == 15 then e.Mail()
    else if k == 16 then e.Dns()
    else if k == 17 then e.Broker()
    else if k == 18 then e.Boards()
    else if k == 19 then e.Cameras()
    else if k == 20 then e.UnixGreeting()
    else if k == 21 then e.WindowsGreeting()
    else if k == 22 then e.Web() && !e.Shell()
    else k == 23 && e.ShortSsh()
  }

  /** The label a signal stands for. */
  function Tag(k: nat, e: Evidence): string {
    if k == 0 then "printer"
    else if k == 1 then "router"
    else if k == 2 then "hypervisor"
    else if k == 3 then "kubernetes-node"
    else if k == 4 then "container-host"
    else if k == 5 then "database (mysql)"
    else if k == 6 then "database (postgres)"
    else if k == 7 then "database (mssql)"
    else if k == 8 then "database (mongodb)"
    else if k == 9 then "database (redis)"
    else if k == 10 then "database (memcached)"
    else if k == 11 then "nas"
    else if k == 12 then "windows-dc"
    else if k == 13 then (if e.Serves() then "windows-server" else "windows-host")
    else if k == 14 then "windows-host"
    else if k == 15 then "mail-server"
    else if k == 16 then "dns-server"
    else if k == 17 then "iot-broker"
    else if k == 18 then "embedded"
    else if k == 19 then "camera"
    else if k == 20 then "linux-host"
    else if k == 21 then "windows-host"
    else if k == 22 then "appliance"
    else if k == 23 then "linux-host"
    else ""
  }

  /** Signal k is there and no more specific one; 24 stands for no signal at all. */
  predicate First(k: nat, e: Evidence) {
    k <= 24 && (k < 24 ==> Signal(k, e)) && forall j: nat :: j < k ==> !Signal(j, e)
  }

  lemma FirstPlatform(k: nat, e: Evidence)
    requires First(k, e)
    ensures k > 0 ==> !e.Printers()
    ensures k > 1 ==> !e.Routers()
    ensures k > 2 ==> !e.Hypervisors()
    ensures k > 3 ==> !e.Kubernetes()
    ensures k > 4 ==> !e.Containers()
    ensures k > 5 ==> !e.Open(3306)
    ensures k > 6 ==> !e.Open(5432)
    ensures k > 7 ==> !e.Open(1433)
    ensures k > 8 ==> !e.Open(27017)
    ensures k > 9 ==> !e.Open(6379)
    ensures k > 10 ==> !e.Open(11211)
    ensures k > 11 ==> !e.Storage()
  {
    assert !(0 < k && Signal(0, e)) && !(1 < k && Signal(1, e)) && !(2 < k && Signal(2, e)) && !(3 < k && Signal(3, e));
    assert !(4 < k && Signal(4, e)) && !(5 < k && Signal(5, e)) && !(6 < k && Signal(6, e)) && !(7 < k && Signal(7, e));
    assert !(8 < k && Signal(8, e)) && !(9 < k && Signal(9, e)) && !(10 < k && Signal(10, e));
    assert !(11 < k && Signal(11, e));
  }

  lemma FirstService(k: nat, e: Evidence)
    requires First(k, e)
    ensures k > 12 ==> !e.DomainController()
    ensures k > 13 ==> !e.Smb()
    ensures k > 14 ==> !e.Open(3389)
    ensures k > 15 ==> !e.Mail()
    ensures k > 16 ==> !e.Dns()
    ensures k > 17 ==> !e.Broker()
    ensures k > 18 ==> !e.Boards()
    ensures k > 19 ==> !e.Cameras()
  {
    assert !(12 < k && Signal(12, e)) && !(13 < k && Signal(13, e)) && !(14 < k && Signal(14, e));
    assert !(15 < k && Signal(15, e)) && !(16 < k && Signal(16, e)) && !(17 < k && Signal(17, e));
    assert !(18 < k && Signal(18, e)) && !(19 < k && Signal(19, e));
  }

  lemma FirstLater(k: nat, e: Evidence)
    requires First(k, e)
    ensures k > 20 ==> !e.UnixGreeting()
    ensures k > 21 ==> !e.WindowsGreeting()
    ensures k > 22 ==> !e.Web() || e.Shell()
    ensures k > 23 ==> !e.ShortSsh()
  {
    assert !(20 < k && Signal(20, e)) && !(21 < k && Signal(21, e));
    assert !(22 < k && Signal(22, e)) && !(23 < k && Signal(23, e));
  }

  /** The priority theorem: the most specific signal decides the label, whatever else is open; without any the host
      gets none. */
  lemma FirstSignalDecides(vendor: string, banner: string, tcp: seq<int>, udp: seq<int>, k: nat)
    requires First(k, Known(vendor, banner, tcp, udp))
    ensures Type(vendor, banner, tcp, udp) == Tag(k, Known(vendor, banner, tcp, udp))
  {
    if k <= 11 {
      ServerSignalDecides(vendor, banner, tcp, udp, k);
    } else if k <= 19 {
      ServiceSignalDecides(vendor, banner, tcp, udp, k);
    } else {
      LaterSignalDecides(vendor, banner, tcp, udp, k);
    }
  }

  lemma ServerSignalDecides(vendor: string, banner: string, tcp: seq<int>, udp: seq<int>, k: nat)
    requires First(k, Known(vendor, banner, tcp, udp)) && k <= 11
    ensures Type(vendor, banner, tcp, udp) == Tag(k, Known(vendor, banner, tcp, udp))
  {
    FirstPlatform(k, Known(vendor, banner, tcp, udp));
    if k <= 4 || k == 11 {
      PlatformLabels(vendor, banner, tcp, udp);
    } else {
      DatabaseLabels(vendor, banner, tcp, udp);
    }
  }

  lemma ServiceSignalDecides(vendor: string, banner: string, tcp: seq<int>, udp: seq<int>, k: nat)
    requires First(k, Known(vendor, banner, tcp, udp)) && 12 <= k <= 19
    ensures Type(vendor, banner, tcp, udp) == Tag(k, Known(vendor, banner, tcp, udp))
  {
    FirstPlatform(k, Known(vendor, banner, tcp, udp));
    FirstService(k, Known(vendor, banner, tcp, udp));
    if k <= 14 {
      WindowsLabels(vendor, banner, tcp, udp);
    } else {
      ServiceLabels(vendor, banner, tcp, udp);
    }
  }

  lemma LaterSignalDecides(vendor: string, banner: string, tcp: seq<int>, udp: seq<int>, k: nat)
    requires First(k, Known(vendor, banner, tcp, udp)) && 20 <= k
    ensures Type(vendor, banner, tcp, udp) == Tag(k, Known(vendor, banner, tcp, udp))
  {
    FirstPlatform(k, Known(vendor, banner, tcp, udp));
    FirstService(k, Known(vendor, banner, tcp, udp));
    FirstLater(k, Known(vendor, banner, tcp, udp));
    if k == 21 {
      WindowsLabels(vendor, banner, tcp, udp);
    } else {
      LastLabels(vendor, banner, tcp, udp);
    }
  }

  lemma {:induction false} SomeFirst(k: nat, e: Evidence) returns (j: nat)
    requires k <= 24 && forall i: nat :: i < k ==> !Signal(i, e)
    ensures First(j, e)
    decreases 24 - k
  {
    if k == 24 || Signal(k, e) {
      j := k;
    } else {
      j := SomeFirst(k + 1, e);
    }
  }

  /** More open ports, or another vendor and banner: if they add a more specific signal than any the host showed, the
      label is that signal's. */
  lemma AddedSignalDecides(
      vendor: string, banner: string, tcp: seq<int>, udp: seq<int>,
      vendor': string, banner': string, tcp': seq<int>, udp': seq<int>, j: nat, k: nat)
    requires First(k, Known(vendor, banner, tcp, udp)) && j < k && Signal(j, Known(vendor', banner', tcp', udp'))
    requires forall i: nat :: i < j && Signal(i, Known(vendor', banner', tcp', udp')) ==>
               Signal(i, Known(vendor, banner, tcp, udp))
    ensures Type(vendor', banner', tcp', udp') == Tag(j, Known(vendor', banner', tcp', udp'))
  {
    FirstSignalDecides(vendor', banner', tcp', udp', j);
  }

  // ---- One service port ----------------------------------------------------------------

  /** The label of a host without vendor and banner that answers on this TCP port only. */
  function PortLabel(p: int): string {
    if p in {515, 631, 9100} then "printer"
    else if p in {8728, 8729} then "router"
    else if p == 8006 then "hypervisor"
    else if p in {2379, 6443, 10250} then "kubernetes-node"
    else if p in {2375, 2376} then "container-host"
    else if p == 3306 then "database (mysql)"
    else if p == 5432 then "database (postgres)"
    else if p == 1433 then "database (mssql)"
    else if p == 27017 then "database (mongodb)"
    else if p == 6379 then "database (redis)"
    else if p == 11211 then "database (memcached)"
    else if p in {445, 3389, 5985, 5986} then "windows-host"
    else if p == 53 then "dns-server"
    else if p in {1883, 8883} then "iot-broker"
    else if p == 554 then "camera"
    else if p in {80, 443, 8080, 8443} then "appliance"
    else if p == 22 then "linux-host"
    else ""
  }

  /** A host without vendor and banner that answers on one TCP port, whichever it is. */
  lemma OnePort(p: int)
    ensures Type("", "", [p], []) == PortLabel(p)
  {
    var e := Known("", "", [p], []);
    NoText();
    assert e == Evidence("", "", {p}, 1, {});
    var k := RankOf(p);
    PortRank(p);
    FirstSignalDecides("", "", [p], [], k);
    PortTag(p);
  }

  /** The signal a single open port is. */
  function RankOf(p: int): nat {
    if p in {515, 631, 9100} then 0
    else if p in {8728, 8729} then 1
    else if p == 8006 then 2
    else if p in {2379, 6443, 10250} then 3
    else if p in {2375, 2376} then 4
    else if p == 3306 then 5
    else if p == 5432 then 6
    else if p == 1433 then 7
    else if p == 27017 then 8
    else if p == 6379 then 9
    else if p == 11211 then 10
    else if p in {445, 5985, 5986} then 13
    else if p == 3389 then 14
    else if p == 53 then 16
    else if p in {1883, 8883} then 17
    else if p == 554 then 19
    else if p in {80, 443, 8080, 8443} then 22
    else if p == 22 then 23
    else 24
  }

  lemma PortTag(p: int)
    ensures Tag(RankOf(p), Evidence("", "", {p}, 1, {})) == PortLabel(p)
  {
  }

  lemma PortRank(p: int)
    ensures First(RankOf(p), Evidence("", "", {p}, 1, {}))
  {
    NoText();
    var e := Evidence("", "", {p}, 1, {});
    forall j: nat | j < RankOf(p) ensures !Signal(j, e) {
      NotBefore(p, j);
    }
    RankSignals(p);
  }

  lemma RankSignals(p: int)
    ensures RankOf(p) < 24 ==> Signal(RankOf(p), Evidence("", "", {p}, 1, {}))
  {
  }

  lemma NotBefore(p: int, j: nat)
    requires j < RankOf(p)
    ensures !Signal(j, Evidence("", "", {p}, 1, {}))
  {
    NoText();
  }
}
