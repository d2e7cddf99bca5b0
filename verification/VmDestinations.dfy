/** Resolving a destination address to the host that owns it and the service listening there. */
module VmDestinations {
  import opened Collections
  import opened GoStrings

  /** One sample of an instant query; an absent label reads as "". */
  datatype Sample = Sample(
    instance: string, container: string, destination: string, kind: string, name: string,
    ip: string, listenAddr: string, instanceId: string, hostname: string, value: real)

  datatype Endpoint = Endpoint(host: string, port: int)

  /** The address functions of the standard library: `parse` splits host and port, strips the
      brackets of the host and reads the port; `unspecified` recognises 0.0.0.0 and ::. */
  datatype Net = Net(parse: string -> Option<Endpoint>, unspecified: string -> bool)

  datatype Host = Host(instanceId: string, hostname: string, ips: seq<string>)

  datatype Listener = Listener(addr: string, at: Endpoint)

  datatype Service = Service(
    instance: string, instanceId: string, hostname: string, container: string, name: string,
    listeners: seq<Listener>)

  datatype Resolver = Resolver(
    instancesByIP: map<string, seq<string>>,
    hosts: map<string, Host>,
    services: map<string, seq<Service>>)

  datatype Resolved = Resolved(hostname: string, instanceId: string, service: string, container: string, owner: string)

  const UNRESOLVED := Resolved("", "", "", "", "")

  predicate IsServiceContainer(id: string) {
    id != "" && !HasSuffix(id, ".scope") && !HasSuffix(id, ".slice") && id != "/init.scope"
  }

  // ----- collectHosts -----

  function Reported(hosts: map<string, Host>, instance: string): (r: map<string, Host>) {
    if instance in hosts then hosts else hosts[instance := Host("", "", [])]
  }

  /** The samples mention the instance. */
  ghost predicate Mentions(samples: seq<Sample>, instance: string) {
    exists n :: 0 <= n < |samples| && samples[n].instance == instance
  }

  /** The samples list the address for the instance. */
  ghost predicate Lists(ips: seq<Sample>, instance: string, ip: string) {
    ip != "" && exists n :: 0 <= n < |ips| && ips[n].instance == instance && ips[n].ip == ip
  }

  ghost predicate HasIPs(h: Host, ips: seq<Sample>, instance: string) {
    Distinct(h.ips) && forall ip :: ip in h.ips <==> Lists(ips, instance, ip)
  }

  ghost predicate AllHaveIPs(hosts: map<string, Host>, ips: seq<Sample>) {
    forall i :: i in hosts ==> HasIPs(hosts[i], ips, i)
  }

  /** The instance id of the last cloud sample of the instance; "" when there is none. */
  function LastInstanceId(cloud: seq<Sample>, instance: string): (r: string) {
    if cloud == [] then ""
    else
      var last := cloud[|cloud| - 1];
      if last.instance == instance then last.instanceId else LastInstanceId(cloud[..|cloud| - 1], instance)
  }

  function LastHostname(info: seq<Sample>, instance: string): (r: string) {
    if info == [] then ""
    else
      var last := info[|info| - 1];
      if last.instance == instance then last.hostname else LastHostname(info[..|info| - 1], instance)
  }

  /** A host without a reported name is named by its instance. */
  function HostName(info: seq<Sample>, instance: string): (r: string) {
    if LastHostname(info, instance) == "" then instance else LastHostname(info, instance)
  }

  lemma {:induction false} Unmentioned(samples: seq<Sample>, i: string)
    requires !Mentions(samples, i)
    ensures LastInstanceId(samples, i) == "" && LastHostname(samples, i) == ""
  {
    if samples != [] {
      var init := samples[..|samples| - 1];
      assert forall n :: 0 <= n < |init| ==> init[n] == samples[n];
      Unmentioned(init, i);
    }
  }

  /** Sample n is the last of the instance. */
  ghost predicate IsLastOf(samples: seq<Sample>, instance: string, n: nat) {
    && n < |samples| && samples[n].instance == instance
    && forall m :: n < m < |samples| ==> samples[m].instance != instance
  }

  lemma {:induction false} LastMentioned(samples: seq<Sample>, i: string, n: nat)
    requires IsLastOf(samples, i, n)
    ensures LastInstanceId(samples, i) == samples[n].instanceId && LastHostname(samples, i) == samples[n].hostname
  {
    if n < |samples| - 1 {
      LastMentioned(samples[..|samples| - 1], i, n);
    }
  }

  /** The labels as reported, before a missing host name is replaced. */
  ghost predicate Labelled(h: Host, cloud: seq<Sample>, info: seq<Sample>, i: string) {
    h.instanceId == LastInstanceId(cloud, i) && h.hostname == LastHostname(info, i)
  }

  method AddNames(cloud: seq<Sample>, info: seq<Sample>) returns (hosts: map<string, Host>)
    ensures forall i :: i in hosts <==> Mentions(cloud, i) || Mentions(info, i)
    ensures forall i :: i in hosts ==> hosts[i].ips == [] && Labelled(hosts[i], cloud, info, i)
  {
    hosts := AddIds(cloud);
    for n := 0 to |info|
      invariant forall i :: i in hosts <==> Mentions(cloud, i) || Mentions(info[..n], i)
      invariant forall i :: i in hosts ==> hosts[i].ips == [] && Labelled(hosts[i], cloud, info[..n], i)
    {
      MentionsMore(info, n);
      assert info[..n + 1][..n] == info[..n];
      if info[n].instance !in hosts { Unmentioned(cloud, info[n].instance); }
      hosts := Reported(hosts, info[n].instance);
      hosts := hosts[info[n].instance := hosts[info[n].instance].(hostname := info[n].hostname)];
    }
    assert info[..|info|] == info;
  }

  method AddIds(cloud: seq<Sample>) returns (hosts: map<string, Host>)
    ensures forall i :: i in hosts <==> Mentions(cloud, i)
    ensures forall i :: i in hosts ==> hosts[i].ips == [] && Labelled(hosts[i], cloud, [], i)
  {
    hosts := map[];
    for n := 0 to |cloud|
      invariant forall i :: i in hosts <==> Mentions(cloud[..n], i)
      invariant forall i :: i in hosts ==> hosts[i].ips == [] && Labelled(hosts[i], cloud[..n], [], i)
    {
      MentionsMore(cloud, n);
      assert cloud[..n + 1][..n] == cloud[..n];
      hosts := Reported(hosts, cloud[n].instance);
      hosts := hosts[cloud[n].instance := hosts[cloud[n].instance].(instanceId := cloud[n].instanceId)];
    }
    assert cloud[..|cloud|] == cloud;
  }

  lemma MentionsMore(samples: seq<Sample>, n: nat)
    requires n < |samples|
    ensures forall i :: Mentions(samples[..n + 1], i) <==> Mentions(samples[..n], i) || i == samples[n].instance
  {
    var longer, shorter := samples[..n + 1], samples[..n];
    forall i ensures Mentions(longer, i) <==> Mentions(shorter, i) || i == samples[n].instance {
      if Mentions(shorter, i) {
        var k :| 0 <= k < n && shorter[k].instance == i;
        assert longer[k].instance == i;
      }
      if Mentions(longer, i) {
        var k :| 0 <= k < n + 1 && longer[k].instance == i;
        assert k < n ==> shorter[k].instance == i;
      }
      if i == samples[n].instance { assert longer[n].instance == i; }
    }
  }

  lemma ListsMore(ips: seq<Sample>, n: nat, i: string, ip: string)
    requires n < |ips|
    ensures Lists(ips[..n + 1], i, ip) <==> Lists(ips[..n], i, ip) || (ip != "" && ips[n].instance == i && ips[n].ip == ip)
  {
    var longer, shorter := ips[..n + 1], ips[..n];
    if Lists(shorter, i, ip) {
      var k :| 0 <= k < n && shorter[k].instance == i && shorter[k].ip == ip;
      assert longer[k] == shorter[k];
    }
    if Lists(longer, i, ip) {
      var k :| 0 <= k < n + 1 && longer[k].instance == i && longer[k].ip == ip;
      assert k < n ==> shorter[k] == longer[k];
    }
    assert longer[n] == ips[n];
  }

  /** One step of the address loop. */
  lemma AddIPKeeps(hosts: map<string, Host>, ips: seq<Sample>, n: nat)
    requires n < |ips| && AllHaveIPs(hosts, ips[..n])
    requires ips[n].instance in hosts || !Mentions(ips[..n], ips[n].instance)
    ensures var i, ip := ips[n].instance, ips[n].ip;
            var grown := Reported(hosts, i);
            AllHaveIPs(if ip != "" && ip !in grown[i].ips then grown[i := grown[i].(ips := grown[i].ips + [ip])] else grown, ips[..n + 1])
  {
    var i, ip := ips[n].instance, ips[n].ip;
    var grown := Reported(hosts, i);
    assert HasIPs(grown[i], ips[..n], i);
    forall j, a ensures j in grown ==> (Lists(ips[..n + 1], j, a) <==> a in grown[j].ips || (j == i && a == ip && a != "")) {
      ListsMore(ips, n, j, a);
    }
  }

  function Known(named: map<string, Host>, i: string): (h: Host) {
    if i in named then named[i] else Host("", "", [])
  }

  method AddIPs(named: map<string, Host>, ips: seq<Sample>) returns (hosts: map<string, Host>)
    requires forall i :: i in named ==> named[i].ips == []
    ensures forall i :: i in hosts <==> i in named || Mentions(ips, i)
    ensures AllHaveIPs(hosts, ips)
    ensures forall i :: i in hosts ==> hosts[i].(ips := []) == Known(named, i)
  {
    hosts := named;
    for n := 0 to |ips|
      invariant forall i :: i in hosts <==> i in named || Mentions(ips[..n], i)
      invariant forall i :: i in named ==> i in hosts
      invariant forall i :: i in hosts ==> hosts[i].(ips := []) == Known(named, i)
      invariant AllHaveIPs(hosts, ips[..n])
    {
      MentionsMore(ips, n);
      AddIPKeeps(hosts, ips, n);
      hosts := Reported(hosts, ips[n].instance);
      if ips[n].ip != "" && ips[n].ip !in hosts[ips[n].instance].ips {
        hosts := hosts[ips[n].instance := hosts[ips[n].instance].(ips := hosts[ips[n].instance].ips + [ips[n].ip])];
      }
    }
    assert ips[..|ips|] == ips;
  }

  ghost predicate Gathered(hosts: map<string, Host>, cloud: seq<Sample>, info: seq<Sample>, ips: seq<Sample>, listen: seq<Sample>) {
    && (forall i :: i in hosts <==> Mentions(cloud, i) || Mentions(info, i) || Mentions(ips, i) || Mentions(listen, i))
    && AllHaveIPs(hosts, ips)
  }

  ghost predicate HostsOf(hosts: map<string, Host>, cloud: seq<Sample>, info: seq<Sample>, ips: seq<Sample>, listen: seq<Sample>) {
    && Gathered(hosts, cloud, info, ips, listen)
    && forall i :: i in hosts ==> hosts[i].instanceId == LastInstanceId(cloud, i) && hosts[i].hostname == HostName(info, i)
  }

  method GatherHosts(cloud: seq<Sample>, info: seq<Sample>, ips: seq<Sample>, listen: seq<Sample>)
    returns (hosts: map<string, Host>)
    ensures Gathered(hosts, cloud, info, ips, listen)
    ensures forall i :: i in hosts ==> Labelled(hosts[i], cloud, info, i)
  {
    var named := AddNames(cloud, info);
    hosts := AddIPs(named, ips);
    forall i | i in hosts ensures Labelled(hosts[i], cloud, info, i) {
      if i !in named { Unmentioned(cloud, i); Unmentioned(info, i); }
      assert hosts[i].(ips := []) == Known(named, i);
    }
    for n := 0 to |listen|
      invariant Gathered(hosts, cloud, info, ips, listen[..n])
      invariant forall i :: i in hosts ==> Labelled(hosts[i], cloud, info, i)
    {
      MentionsMore(listen, n);
      var i := listen[n].instance;
      if i !in hosts {
        assert HasIPs(Host("", "", []), ips, i);
        Unmentioned(cloud, i);
        Unmentioned(info, i);
      }
      hosts := Reported(hosts, i);
    }
    assert listen[..|listen|] == listen;
  }

  /** collectHosts: one host per instance any series mentions, with exactly the addresses listed for
      it, its last reported instance id, and its last reported name or else the instance. */
  method CollectHosts(cloud: seq<Sample>, info: seq<Sample>, ips: seq<Sample>, listen: seq<Sample>)
    returns (hosts: map<string, Host>)
    ensures HostsOf(hosts, cloud, info, ips, listen)
  {
    var found := GatherHosts(cloud, info, ips, listen);
    hosts := map i | i in found :: if found[i].hostname == "" then found[i].(hostname := i) else found[i];
    forall i | i in hosts ensures HasIPs(hosts[i], ips, i) { assert HasIPs(found[i], ips, i); }
  }

  // ----- collectServices -----

  datatype ContainerKey = ContainerKey(instance: string, container: string)

  ghost predicate Active(info: seq<Sample>, k: ContainerKey) {
    IsServiceContainer(k.container) && exists n :: 0 <= n < |info| && KeyOf(info[n]) == k
  }

  function KeyOf(s: Sample): (k: ContainerKey) {
    ContainerKey(s.instance, s.container)
  }

  /** The samples show the container listening on l. */
  ghost predicate ListensOn(net: Net, listen: seq<Sample>, k: ContainerKey, l: Listener) {
    exists n :: 0 <= n < |listen| && KeyOf(listen[n]) == k && listen[n].listenAddr == l.addr && net.parse(l.addr) == Some(l.at)
  }

  function ServiceName(id: string): (r: string) {
    if id != "" && id[|id| - 1] == '/' then ServiceName(id[..|id| - 1]) else LastElement(id)
  }

  function LastElement(id: string): (r: string)
    ensures HasSuffix(id, r) && '/' !in r && (|r| < |id| ==> id[|id| - |r| - 1] == '/')
  {
    if id == "" || id[|id| - 1] == '/' then "" else LastElement(id[..|id| - 1]) + [id[|id| - 1]]
  }

  ghost predicate AllSlashes(s: string) {
    forall i :: 0 <= i < |s| ==> s[i] == '/'
  }

  /** The name of a container is the last element of its path, closing slashes aside. */
  ghost predicate LastOfPath(id: string, name: string) {
    exists pre, tail ::
      && id == pre + name + tail && AllSlashes(tail) && '/' !in name
      && (pre != "" ==> pre[|pre| - 1] == '/' && name != "")
  }

  lemma IsLastOfPath(id: string, pre: string, name: string, tail: string)
    requires id == pre + name + tail && AllSlashes(tail) && '/' !in name && (pre != "" ==> pre[|pre| - 1] == '/' && name != "")
    ensures LastOfPath(id, name)
  {
  }

  lemma SuffixIsLast(id: string, name: string, n: nat)
    requires n <= |id| && id[n..] == name && '/' !in name && (n > 0 ==> id[n - 1] == '/') && (id == "" || id[|id| - 1] != '/')
    ensures LastOfPath(id, name)
  {
    assert id == id[..n] + name + "";
    IsLastOfPath(id, id[..n], name, "");
  }

  lemma {:induction false} ServiceNameMeaning(id: string)
    ensures LastOfPath(id, ServiceName(id))
  {
    var name := ServiceName(id);
    if id != "" && id[|id| - 1] == '/' {
      ServiceNameMeaning(id[..|id| - 1]);
      assert id == id[..|id| - 1] + "/";
      OneMoreSlash(id[..|id| - 1], name);
    } else {
      SuffixIsLast(id, name, |id| - |name|);
    }
  }

  lemma OneMoreSlash(id: string, name: string)
    requires LastOfPath(id, name)
    ensures LastOfPath(id + "/", name)
  {
    var pre, tail :| id == pre + name + tail && AllSlashes(tail) && '/' !in name
                     && (pre != "" ==> pre[|pre| - 1] == '/' && name != "");
    assert id + "/" == pre + name + (tail + "/");
    IsLastOfPath(id + "/", pre, name, tail + "/");
  }

  ghost predicate ServicesOf(net: Net, services: map<ContainerKey, Service>, info: seq<Sample>, listen: seq<Sample>) {
    && (forall k :: k in services <==> Active(info, k))
    && (forall k :: k in services ==> HasListeners(net, services[k], listen, k))
  }

  ghost predicate HasListeners(net: Net, sv: Service, listen: seq<Sample>, k: ContainerKey) {
    && sv.instance == k.instance && sv.container == k.container
    && Distinct(sv.listeners)
    && forall l :: l in sv.listeners <==> ListensOn(net, listen, k, l)
  }

  function NewService(hosts: map<string, Host>, k: ContainerKey): (sv: Service) {
    var h := if k.instance in hosts then hosts[k.instance] else Host("", "", []);
    Service(k.instance, h.instanceId, if h.hostname == "" then k.instance else h.hostname,
            k.container, ServiceName(k.container), [])
  }

  lemma ActiveMore(info: seq<Sample>, n: nat)
    requires n < |info|
    ensures forall k :: Active(info[..n + 1], k) <==> Active(info[..n], k) || (k == KeyOf(info[n]) && IsServiceContainer(k.container))
  {
    var longer, shorter := info[..n + 1], info[..n];
    forall k ensures Active(longer, k) <==> Active(shorter, k) || (k == KeyOf(info[n]) && IsServiceContainer(k.container)) {
      if Active(shorter, k) {
        var i :| 0 <= i < n && KeyOf(shorter[i]) == k;
        assert KeyOf(longer[i]) == k;
      }
      if Active(longer, k) {
        var i :| 0 <= i < n + 1 && KeyOf(longer[i]) == k;
        assert i < n ==> KeyOf(shorter[i]) == k;
      }
      if k == KeyOf(info[n]) { assert KeyOf(longer[n]) == k; }
    }
  }

  lemma ListensOnMore(net: Net, listen: seq<Sample>, n: nat, k: ContainerKey, l: Listener)
    requires n < |listen|
    ensures ListensOn(net, listen[..n + 1], k, l) <==>
            || ListensOn(net, listen[..n], k, l)
            || (KeyOf(listen[n]) == k && listen[n].listenAddr == l.addr && net.parse(l.addr) == Some(l.at))
  {
    var longer, shorter := listen[..n + 1], listen[..n];
    if ListensOn(net, shorter, k, l) {
      var i :| 0 <= i < n && KeyOf(shorter[i]) == k && shorter[i].listenAddr == l.addr;
      assert longer[i] == shorter[i];
    }
    if ListensOn(net, longer, k, l) {
      var i :| 0 <= i < n + 1 && KeyOf(longer[i]) == k && longer[i].listenAddr == l.addr;
      assert i < n ==> shorter[i] == longer[i];
    }
    assert longer[n] == listen[n];
  }

  /** One step of the listener loop. */
  lemma AddListenerKeeps(net: Net, services: map<ContainerKey, Service>, info: seq<Sample>, listen: seq<Sample>, n: nat)
    requires n < |listen| && ServicesOf(net, services, info, listen[..n])
    ensures var k, addr := KeyOf(listen[n]), listen[n].listenAddr;
            var grown := if k in services && net.parse(addr).Some? && Listener(addr, net.parse(addr).value) !in services[k].listeners
                         then services[k := services[k].(listeners := services[k].listeners + [Listener(addr, net.parse(addr).value)])]
                         else services;
            ServicesOf(net, grown, info, listen[..n + 1])
  {
    forall j, l | j in services
      ensures ListensOn(net, listen[..n + 1], j, l) <==>
              l in services[j].listeners ||
              (KeyOf(listen[n]) == j && listen[n].listenAddr == l.addr && net.parse(l.addr) == Some(l.at))
    {
      ListensOnMore(net, listen, n, j, l);
      assert HasListeners(net, services[j], listen[..n], j);
    }
    var k, addr := KeyOf(listen[n]), listen[n].listenAddr;
    if k in services && net.parse(addr).Some? && Listener(addr, net.parse(addr).value) !in services[k].listeners {
      DistinctMore(services[k].listeners, Listener(addr, net.parse(addr).value));
    }
  }

  /** Apart from its listeners a service is what its container and its host say. */
  ghost predicate Described(hosts: map<string, Host>, services: map<ContainerKey, Service>) {
    forall k :: k in services ==> services[k].(listeners := []) == NewService(hosts, k)
  }

  method ListenersOf(net: Net, hosts: map<string, Host>, info: seq<Sample>, listen: seq<Sample>)
    returns (services: map<ContainerKey, Service>)
    ensures ServicesOf(net, services, info, listen) && Described(hosts, services)
  {
    services := ActiveServices(net, hosts, info);
    for n := 0 to |listen|
      invariant ServicesOf(net, services, info, listen[..n]) && Described(hosts, services)
    {
      AddListenerKeeps(net, services, info, listen, n);
      var k, addr := KeyOf(listen[n]), listen[n].listenAddr;
      if k in services {
        var at := net.parse(addr);
        if at.Some? && Listener(addr, at.value) !in services[k].listeners {
          services := services[k := services[k].(listeners := services[k].listeners + [Listener(addr, at.value)])];
        }
      }
    }
    assert listen[..|listen|] == listen;
  }

  method ActiveServices(net: Net, hosts: map<string, Host>, info: seq<Sample>) returns (services: map<ContainerKey, Service>)
    ensures ServicesOf(net, services, info, []) && Described(hosts, services)
  {
    services := map[];
    for n := 0 to |info|
      invariant ServicesOf(net, services, info[..n], []) && Described(hosts, services)
    {
      ActiveMore(info, n);
      if IsServiceContainer(info[n].container) {
        if KeyOf(info[n]) !in services {
          services := services[KeyOf(info[n]) := NewService(hosts, KeyOf(info[n]))];
        }
      }
    }
    assert info[..|info|] == info;
  }

  // ----- Listeners in address order -----

  ghost predicate InAddrOrder(ls: seq<Listener>) {
    forall i, j :: 0 <= i < j < |ls| ==> Less(ls[i].addr, ls[j].addr)
  }

  function InsertListener(l: Listener, ls: seq<Listener>): (r: seq<Listener>)
    requires InAddrOrder(ls) && forall m :: m in ls ==> m.addr != l.addr
    ensures InAddrOrder(r) && forall m :: m in r <==> m == l || m in ls
  {
    if ls == [] then [l]
    else
      assert forall m :: m in ls[1..] ==> m in ls;
      if Less(l.addr, ls[0].addr) then
        HeadFirst(l, ls); [l] + ls
      else
        LessTotal(l.addr, ls[0].addr);
        var rest := InsertListener(l, ls[1..]);
        HeadBefore(ls, l, rest); [ls[0]] + rest
  }

  lemma HeadFirst(l: Listener, ls: seq<Listener>)
    requires ls != [] && InAddrOrder(ls) && Less(l.addr, ls[0].addr)
    ensures InAddrOrder([l] + ls) && forall m :: m in [l] + ls <==> m == l || m in ls
  {
    forall j | 0 <= j < |ls| ensures Less(l.addr, ls[j].addr) {
      if j > 0 { LessTransitive(l.addr, ls[0].addr, ls[j].addr); }
    }
  }

  lemma HeadBefore(ls: seq<Listener>, l: Listener, rest: seq<Listener>)
    requires ls != [] && InAddrOrder(ls) && Less(ls[0].addr, l.addr) && InAddrOrder(rest)
    requires forall m :: m in rest <==> m == l || m in ls[1..]
    ensures InAddrOrder([ls[0]] + rest) && forall m :: m in [ls[0]] + rest <==> m == l || m in ls
  {
    forall j | 0 <= j < |rest| ensures Less(ls[0].addr, rest[j].addr) {
      assert rest[j] in rest;
    }
    assert ls == [ls[0]] + ls[1..];
  }

  /** sort.Slice by address; addresses are pairwise different, so the result is unique. */
  function SortListeners(ls: seq<Listener>): (r: seq<Listener>)
    requires forall i, j :: 0 <= i < j < |ls| ==> ls[i].addr != ls[j].addr
    ensures InAddrOrder(r) && forall m :: m in r <==> m in ls
  {
    if ls == [] then [] else
      assert ls == [ls[0]] + ls[1..];
      var rest := SortListeners(ls[1..]);
      assert forall m :: m in rest ==> m in ls[1..];
      InsertListener(ls[0], rest)
  }

  ghost predicate Ordered(net: Net, idx: map<ContainerKey, Service>, info: seq<Sample>, listen: seq<Sample>) {
    ServicesOf(net, idx, info, listen) && forall k :: k in idx ==> InAddrOrder(idx[k].listeners)
  }

  /** The list holds every service of the index exactly once. */
  ghost predicate Enlists(services: seq<Service>, idx: map<ContainerKey, Service>) {
    && Distinct(services)
    && (forall sv :: sv in services ==> ContainerKey(sv.instance, sv.container) in idx && idx[ContainerKey(sv.instance, sv.container)] == sv)
    && (forall k :: k in idx ==> idx[k] in services)
  }

  lemma SortKeeps(net: Net, sv: Service, listen: seq<Sample>, k: ContainerKey)
    requires HasListeners(net, sv, listen, k)
    ensures forall i, j :: 0 <= i < j < |sv.listeners| ==> sv.listeners[i].addr != sv.listeners[j].addr
    ensures HasListeners(net, sv.(listeners := SortListeners(sv.listeners)), listen, k)
  {
    var ls := sv.listeners;
    forall i, j | 0 <= i < j < |ls| ensures ls[i].addr != ls[j].addr {
      assert ls[i] in ls && ls[j] in ls;
    }
    var r := SortListeners(ls);
    forall i, j | 0 <= i < j < |r| ensures r[i] != r[j] {
      LessIrreflexive(r[i].addr);
    }
  }

  ghost predicate AllSorted(net: Net, idx: map<ContainerKey, Service>, listen: seq<Sample>) {
    forall k :: k in idx ==> HasListeners(net, idx[k], listen, k) && InAddrOrder(idx[k].listeners)
  }

  /** collectServices: the active containers, their listeners in address order. */
  method CollectServices(net: Net, info: seq<Sample>, listen: seq<Sample>, hosts: map<string, Host>)
    returns (services: seq<Service>, idx: map<ContainerKey, Service>)
    ensures Ordered(net, idx, info, listen) && Enlists(services, idx) && Described(hosts, idx)
  {
    var found := ListenersOf(net, hosts, info, listen);
    services, idx := [], map[];
    var todo := found.Keys;
    while todo != {}
      invariant todo <= found.Keys && idx.Keys == found.Keys - todo
      invariant AllSorted(net, idx, listen)
      invariant Enlists(services, idx) && Described(hosts, idx)
    {
      var k :| k in todo;
      todo := todo - {k};
      SortKeeps(net, found[k], listen, k);
      var sv := found[k].(listeners := SortListeners(found[k].listeners));
      EnlistMore(services, idx, k, sv);
      services, idx := services + [sv], idx[k := sv];
    }
  }

  lemma EnlistMore(services: seq<Service>, idx: map<ContainerKey, Service>, k: ContainerKey, sv: Service)
    requires Enlists(services, idx) && k !in idx && k == ContainerKey(sv.instance, sv.container)
    ensures Enlists(services + [sv], idx[k := sv])
  {
    DistinctMore(services, sv);
    assert sv in services + [sv];
  }

  // ----- newDestinationResolver and resolve -----

  ghost predicate ByIP(instancesByIP: map<string, seq<string>>, hosts: map<string, Host>, done: set<string>) {
    && (forall ip :: ip in instancesByIP ==> Distinct(instancesByIP[ip]))
    && (forall ip, i :: (ip in instancesByIP && i in instancesByIP[ip]) <==> i in done && i in hosts && ip in hosts[i].ips)
  }

  ghost predicate ByInstance(grouped: map<string, seq<Service>>, services: seq<Service>) {
    && (forall i :: i in grouped ==> forall sv :: sv in grouped[i] <==> sv in services && sv.instance == i)
    && (forall sv :: sv in services ==> sv.instance in grouped)
  }

  ghost predicate Indexes(r: Resolver, hosts: map<string, Host>, services: seq<Service>) {
    ByIP(r.instancesByIP, hosts, hosts.Keys) && r.hosts == hosts && ByInstance(r.services, services)
  }

  function Append<T>(m: map<string, seq<T>>, key: string, x: T): (r: map<string, seq<T>>) {
    m[key := (if key in m then m[key] else []) + [x]]
  }

  method IndexHost(byIP: map<string, seq<string>>, hosts: map<string, Host>, done: set<string>, i: string)
    returns (instancesByIP: map<string, seq<string>>)
    requires ByIP(byIP, hosts, done) && i in hosts && i !in done && Distinct(hosts[i].ips)
    ensures ByIP(instancesByIP, hosts, done + {i})
  {
    instancesByIP := byIP;
    var ips := hosts[i].ips;
    for n := 0 to |ips|
      invariant forall ip :: ip in instancesByIP ==> Distinct(instancesByIP[ip])
      invariant forall ip, j :: (ip in instancesByIP && j in instancesByIP[ip]) <==>
                  (j in done && j in hosts && ip in hosts[j].ips) || (j == i && ip in ips[..n])
    {
      assert ips[n] !in ips[..n];
      instancesByIP := Append(instancesByIP, ips[n], i);
      assert ips[..n + 1] == ips[..n] + [ips[n]];
    }
    assert ips[..|ips|] == ips;
  }

  method NewDestinationResolver(hosts: map<string, Host>, services: seq<Service>) returns (r: Resolver)
    requires forall i :: i in hosts ==> Distinct(hosts[i].ips)
    ensures Indexes(r, hosts, services)
  {
    var byIP: map<string, seq<string>> := map[];
    var todo := hosts.Keys;
    while todo != {}
      invariant todo <= hosts.Keys && ByIP(byIP, hosts, hosts.Keys - todo)
    {
      var i :| i in todo;
      byIP := IndexHost(byIP, hosts, hosts.Keys - todo, i);
      todo := todo - {i};
      assert hosts.Keys - todo == hosts.Keys - (todo + {i}) + {i};
    }
    var grouped: map<string, seq<Service>> := map[];
    for n := 0 to |services|
      invariant ByInstance(grouped, services[..n])
    {
      grouped := Append(grouped, services[n].instance, services[n]);
      assert services[..n + 1] == services[..n] + [services[n]];
    }
    assert services[..|services|] == services;
    r := Resolver(byIP, hosts, grouped);
  }

  datatype Class = Apart | Exact | Wildcard

  /** How a listener matches a destination. */
  function Match(net: Net, l: Listener, to: Endpoint): (c: Class) {
    if l.at.port != to.port then Apart
    else if l.at.host == to.host then Exact
    else if net.unspecified(l.at.host) then Wildcard
    else Apart
  }

  /** A service is classed by its first listener that matches at all. */
  function Classify(net: Net, ls: seq<Listener>, to: Endpoint): (c: Class) {
    if ls == [] then Apart
    else if Match(net, ls[0], to) != Apart then Match(net, ls[0], to)
    else Classify(net, ls[1..], to)
  }

  function OfClass(net: Net, services: seq<Service>, to: Endpoint, c: Class): (r: seq<Service>) {
    if services == [] then []
    else
      var init, last := services[..|services| - 1], services[|services| - 1];
      OfClass(net, init, to, c) + if Classify(net, last.listeners, to) == c then [last] else []
  }

  predicate Names(services: seq<Service>, container: string) {
    exists i :: 0 <= i < |services| && services[i].container == container
  }

  function Unique(services: seq<Service>): (r: seq<Service>)
    ensures forall c :: Names(r, c) <==> Names(services, c)
    ensures forall i, j :: 0 <= i < j < |r| ==> r[i].container != r[j].container
  {
    if services == [] then []
    else
      var init, last := services[..|services| - 1], services[|services| - 1];
      var r := Unique(init);
      NamesMore(init, last); NamesMore(r, last);
      assert services == init + [last];
      if Names(r, last.container) then r else r + [last]
  }

  lemma NamesMore(services: seq<Service>, last: Service)
    ensures forall c :: Names(services + [last], c) <==> Names(services, c) || last.container == c
  {
    forall c ensures Names(services + [last], c) <==> Names(services, c) || last.container == c {
      if Names(services, c) {
        var i :| 0 <= i < |services| && services[i].container == c;
        assert (services + [last])[i].container == c;
      }
      if last.container == c { assert (services + [last])[|services|].container == c; }
    }
  }

  function Pick(exact: seq<Service>, wildcard: seq<Service>): (r: (string, string)) {
    var pick := if Unique(exact) == [] then Unique(wildcard) else Unique(exact);
    if |pick| == 1 then (pick[0].name, pick[0].container) else ("", "")
  }

  function ResolveIn(net: Net, r: Resolver, dest: string): (out: Resolved) {
    match net.parse(dest)
    case None => UNRESOLVED
    case Some(to) =>
      var owners := if to.host in r.instancesByIP then r.instancesByIP[to.host] else [];
      if |owners| != 1 || owners[0] == "" || owners[0] !in r.hosts then UNRESOLVED
      else
        var h := r.hosts[owners[0]];
        var there := if owners[0] in r.services then r.services[owners[0]] else [];
        var (service, container) := Pick(OfClass(net, there, to, Exact), OfClass(net, there, to, Wildcard));
        Resolved(h.hostname, h.instanceId, service, container, owners[0])
  }

  method UniqueByContainer(services: seq<Service>) returns (out: seq<Service>)
    ensures out == Unique(services)
  {
    var seen: set<string> := {};
    out := [];
    for n := 0 to |services|
      invariant out == Unique(services[..n])
      invariant forall c :: c in seen <==> Names(out, c)
    {
      assert services[..n + 1][..n] == services[..n];
      NamesMore(out, services[n]);
      if services[n].container !in seen {
        seen := seen + {services[n].container};
        out := out + [services[n]];
      }
    }
    assert services[..|services|] == services;
  }

  method ClassOf(net: Net, ls: seq<Listener>, to: Endpoint) returns (c: Class)
    ensures c == Classify(net, ls, to)
  {
    for n := 0 to |ls|
      invariant Classify(net, ls, to) == Classify(net, ls[n..], to)
    {
      assert ls[n..][1..] == ls[n + 1..];
      if ls[n].at.port != to.port {
        continue;
      }
      if ls[n].at.host == to.host {
        return Exact;
      } else if net.unspecified(ls[n].at.host) {
        return Wildcard;
      }
    }
    return Apart;
  }

  method Resolve(net: Net, r: Resolver, dest: string) returns (out: Resolved)
    ensures out == ResolveIn(net, r, dest)
  {
    var to := net.parse(dest);
    if to.None? {
      return UNRESOLVED;
    }
    var owner := "";
    if to.value.host in r.instancesByIP && |r.instancesByIP[to.value.host]| == 1 {
      owner := r.instancesByIP[to.value.host][0];
    }
    if owner == "" || owner !in r.hosts {
      return UNRESOLVED;
    }
    var there := if owner in r.services then r.services[owner] else [];
    var exact, wildcard := [], [];
    for n := 0 to |there|
      invariant exact == OfClass(net, there[..n], to.value, Exact)
      invariant wildcard == OfClass(net, there[..n], to.value, Wildcard)
    {
      assert there[..n + 1][..n] == there[..n];
      var c := ClassOf(net, there[n].listeners, to.value);
      if c == Exact {
        exact := exact + [there[n]];
      } else if c == Wildcard {
        wildcard := wildcard + [there[n]];
      }
    }
    assert there[..|there|] == there;
    var pick := UniqueByContainer(exact);
    if |pick| == 0 {
      pick := UniqueByContainer(wildcard);
    }
    out := Resolved(r.hosts[owner].hostname, r.hosts[owner].instanceId, "", "", owner);
    if |pick| == 1 {
      out := out.(service := pick[0].name, container := pick[0].container);
    }
  }

  predicate Skips(target: Resolved, src: ContainerKey) {
    target.container != "" && target.owner == src.instance && target.container == src.container
  }

  // ----- What resolve means, in terms of the samples alone -----

  /** The series the resolver is built from. */
  datatype Series = Series(cloud: seq<Sample>, info: seq<Sample>, ips: seq<Sample>, listen: seq<Sample>, containers: seq<Sample>)

  /** Exactly one instance lists the address. */
  ghost predicate SoleOwner(ips: seq<Sample>, host: string, owner: string) {
    Lists(ips, owner, host) && forall other :: Lists(ips, other, host) ==> other == owner
  }

  /** The listener is on the destination's port and bound to its host or to an unspecified address. */
  ghost predicate Reaches(net: Net, l: Listener, to: Endpoint) {
    l.at.port == to.port && (l.at.host == to.host || net.unspecified(l.at.host))
  }

  /** l is the listener of the container that reaches the destination and comes first in address order. */
  ghost predicate FirstReaching(net: Net, listen: seq<Sample>, k: ContainerKey, to: Endpoint, l: Listener) {
    && ListensOn(net, listen, k, l) && Reaches(net, l, to)
    && forall m :: ListensOn(net, listen, k, m) && Reaches(net, m, to) && m != l ==> Less(l.addr, m.addr)
  }

  /** The first reaching listener of the active container is bound to the destination host itself, or
      to an unspecified address. */
  ghost predicate Serves(net: Net, s: Series, owner: string, to: Endpoint, bound: bool, container: string) {
    var k := ContainerKey(owner, container);
    Active(s.containers, k) && exists l :: FirstReaching(net, s.listen, k, to, l) && (l.at.host == to.host <==> bound)
  }

  ghost predicate Only(net: Net, s: Series, owner: string, to: Endpoint, bound: bool, container: string) {
    Serves(net, s, owner, to, bound, container) && forall other :: Serves(net, s, owner, to, bound, other) ==> other == container
  }

  ghost predicate NoneServes(net: Net, s: Series, owner: string, to: Endpoint, bound: bool) {
    forall other :: !Serves(net, s, owner, to, bound, other)
  }

  /** The container is the only one bound to the destination host, or the only one bound to an
      unspecified address when none is bound to the host. */
  ghost predicate Destination(net: Net, s: Series, owner: string, to: Endpoint, container: string) {
    || Only(net, s, owner, to, true, container)
    || (NoneServes(net, s, owner, to, true) && Only(net, s, owner, to, false, container))
  }

  method BuildResolver(net: Net, s: Series) returns (r: Resolver, services: seq<Service>, idx: map<ContainerKey, Service>)
    ensures BuiltFrom(net, r, s, services, idx)
  {
    var hosts := CollectHosts(s.cloud, s.info, s.ips, s.listen);
    services, idx := CollectServices(net, s.containers, s.listen, hosts);
    assert forall i :: i in hosts ==> HasIPs(hosts[i], s.ips, i);
    r := NewDestinationResolver(hosts, services);
  }

  ghost predicate BuiltFrom(net: Net, r: Resolver, s: Series, services: seq<Service>, idx: map<ContainerKey, Service>) {
    && HostsOf(r.hosts, s.cloud, s.info, s.ips, s.listen)
    && Ordered(net, idx, s.containers, s.listen) && Enlists(services, idx) && Described(r.hosts, idx)
    && Indexes(r, r.hosts, services)
  }

  ghost predicate FirstIn(net: Net, ls: seq<Listener>, to: Endpoint, l: Listener) {
    && l in ls && Reaches(net, l, to)
    && forall m :: m in ls && Reaches(net, m, to) && m != l ==> Less(l.addr, m.addr)
  }

  lemma MatchMeaning(net: Net, l: Listener, to: Endpoint)
    ensures Match(net, l, to) == Apart <==> !Reaches(net, l, to)
    ensures Reaches(net, l, to) ==> Match(net, l, to) == ClassFor(l.at.host == to.host)
  {
  }

  function ClassFor(bound: bool): (c: Class) {
    if bound then Exact else Wildcard
  }

  /** On a list in address order the class is decided by the reaching listener with the least address:
      bound to the destination host, or to an unspecified address. */
  lemma {:induction false} ClassifyTakesFirst(net: Net, ls: seq<Listener>, to: Endpoint, bound: bool)
    requires InAddrOrder(ls)
    ensures Classify(net, ls, to) == ClassFor(bound) <==> exists l :: FirstIn(net, ls, to, l) && (l.at.host == to.host <==> bound)
  {
    if ls != [] {
      assert ls == [ls[0]] + ls[1..];
      MatchMeaning(net, ls[0], to);
      if Reaches(net, ls[0], to) {
        assert FirstIn(net, ls, to, ls[0]);
        forall l | FirstIn(net, ls, to, l) ensures l == ls[0] {
          if l != ls[0] {
            LessTransitive(l.addr, ls[0].addr, l.addr);
            LessIrreflexive(l.addr);
          }
        }
      } else {
        ClassifyTakesFirst(net, ls[1..], to, bound);
        assert forall l :: FirstIn(net, ls, to, l) <==> FirstIn(net, ls[1..], to, l);
      }
    }
  }

  lemma ServesIsClass(net: Net, s: Series, idx: map<ContainerKey, Service>, owner: string, to: Endpoint, bound: bool, container: string)
    requires Ordered(net, idx, s.containers, s.listen)
    ensures Serves(net, s, owner, to, bound, container) <==>
            var k := ContainerKey(owner, container);
            k in idx && Classify(net, idx[k].listeners, to) == ClassFor(bound)
  {
    var k := ContainerKey(owner, container);
    if k in idx {
      var ls := idx[k].listeners;
      assert HasListeners(net, idx[k], s.listen, k);
      ClassifyTakesFirst(net, ls, to, bound);
      assert forall l :: FirstIn(net, ls, to, l) <==> FirstReaching(net, s.listen, k, to, l);
    }
  }

  ghost predicate HasClass(net: Net, services: seq<Service>, to: Endpoint, c: Class, container: string) {
    exists i :: 0 <= i < |services| && services[i].container == container && Classify(net, services[i].listeners, to) == c
  }

  lemma {:induction false} OfClassNames(net: Net, services: seq<Service>, to: Endpoint, c: Class, container: string)
    ensures Names(OfClass(net, services, to, c), container) <==> HasClass(net, services, to, c, container)
  {
    if services != [] {
      var init, last := services[..|services| - 1], services[|services| - 1];
      OfClassNames(net, init, to, c, container);
      NamesMore(OfClass(net, init, to, c), last);
      assert services[|init|] == last;
      assert OfClass(net, init, to, c) + [] == OfClass(net, init, to, c);
      if HasClass(net, init, to, c, container) {
        var i :| 0 <= i < |init| && init[i].container == container && Classify(net, init[i].listeners, to) == c;
        assert services[i] == init[i];
      }
      if HasClass(net, services, to, c, container) {
        var i :| 0 <= i < |services| && services[i].container == container && Classify(net, services[i].listeners, to) == c;
        assert i < |init| ==> init[i] == services[i];
      }
    }
  }

  lemma ThereServes(net: Net, r: Resolver, s: Series, services: seq<Service>, idx: map<ContainerKey, Service>,
                    owner: string, to: Endpoint, bound: bool, container: string)
    requires BuiltFrom(net, r, s, services, idx)
    ensures var there := if owner in r.services then r.services[owner] else [];
            Names(OfClass(net, there, to, ClassFor(bound)), container) <==> Serves(net, s, owner, to, bound, container)
  {
    var c := ClassFor(bound);
    var there := if owner in r.services then r.services[owner] else [];
    var k := ContainerKey(owner, container);
    OfClassNames(net, there, to, c, container);
    ServesIsClass(net, s, idx, owner, to, bound, container);
    assert k in idx ==> HasListeners(net, idx[k], s.listen, k);
    if HasClass(net, there, to, c, container) {
      var i :| 0 <= i < |there| && there[i].container == container && Classify(net, there[i].listeners, to) == c;
      assert there[i] in there && there[i] in services;
    }
    if k in idx {
      assert idx[k] in services && idx[k].instance == owner && idx[k] in there;
      var i :| 0 <= i < |there| && there[i] == idx[k];
    }
  }

  /** Pick names a container exactly when it is the only exact one, or the only wildcard one while
      there is no exact one. */
  lemma PickMeaning(exact: seq<Service>, wildcard: seq<Service>, container: string)
    requires !Names(exact, "") && !Names(wildcard, "") && container != ""
    ensures Pick(exact, wildcard).1 == container <==>
            || (Names(exact, container) && forall c :: Names(exact, c) ==> c == container)
            || ((forall c :: !Names(exact, c)) && Names(wildcard, container) && forall c :: Names(wildcard, c) ==> c == container)
  {
    UniqueMeaning(exact, container);
    UniqueMeaning(wildcard, container);
  }

  lemma UniqueMeaning(services: seq<Service>, container: string)
    ensures Unique(services) == [] <==> forall c :: !Names(services, c)
    ensures |Unique(services)| == 1 && Unique(services)[0].container == container <==>
            Names(services, container) && forall c :: Names(services, c) ==> c == container
  {
    var u := Unique(services);
    forall i | 0 <= i < |u| ensures Names(services, u[i].container) {
      assert Names(u, u[i].container);
    }
    assert |u| >= 1 ==> Names(services, u[0].container);
    assert |u| >= 2 ==> Names(services, u[1].container) && u[0].container != u[1].container;
    assert |u| == 1 ==> forall c :: Names(u, c) ==> c == u[0].container;
  }

  lemma OwnerMeaning(net: Net, r: Resolver, s: Series, services: seq<Service>, idx: map<ContainerKey, Service>, host: string, owner: string)
    requires BuiltFrom(net, r, s, services, idx)
    ensures var owners := if host in r.instancesByIP then r.instancesByIP[host] else [];
            |owners| == 1 && owners[0] == owner <==> SoleOwner(s.ips, host, owner)
    ensures SoleOwner(s.ips, host, owner) ==> owner in r.hosts
  {
    var owners := if host in r.instancesByIP then r.instancesByIP[host] else [];
    forall i ensures i in owners <==> Lists(s.ips, i, host) {
      if i in r.hosts { assert HasIPs(r.hosts[i], s.ips, i); }
      if Lists(s.ips, i, host) { assert Mentions(s.ips, i); }
    }
    assert |owners| >= 1 ==> Lists(s.ips, owners[0], host);
    assert |owners| >= 2 ==> Lists(s.ips, owners[1], host) && owners[0] != owners[1];
  }

  /** resolve names an owner exactly when one instance alone lists the address, and a container
      exactly when it is the only one there bound to the destination host, or the only one bound to an
      unspecified address with none bound to the host. */
  lemma ResolveMeaning(net: Net, r: Resolver, s: Series, services: seq<Service>, idx: map<ContainerKey, Service>, dest: string)
    requires BuiltFrom(net, r, s, services, idx)
    ensures var out := ResolveIn(net, r, dest);
            && (forall o :: o != "" ==>
                  (out.owner == o <==> net.parse(dest).Some? && SoleOwner(s.ips, net.parse(dest).value.host, o)))
            && (forall c :: c != "" ==>
                  (out.container == c <==> out.owner != "" && Destination(net, s, out.owner, net.parse(dest).value, c)))
  {
    var out := ResolveIn(net, r, dest);
    if net.parse(dest).Some? {
      var to := net.parse(dest).value;
      forall o ensures SoleOwner(s.ips, to.host, o) ==> o in r.hosts {
        OwnerMeaning(net, r, s, services, idx, to.host, o);
      }
      var owners := if to.host in r.instancesByIP then r.instancesByIP[to.host] else [];
      forall o ensures |owners| == 1 && owners[0] == o <==> SoleOwner(s.ips, to.host, o) {
        OwnerMeaning(net, r, s, services, idx, to.host, o);
      }
      if out.owner != "" {
        ContainerMeaning(net, r, s, services, idx, out.owner, to);
      }
    }
  }

  lemma ContainerMeaning(net: Net, r: Resolver, s: Series, services: seq<Service>, idx: map<ContainerKey, Service>, owner: string, to: Endpoint)
    requires BuiltFrom(net, r, s, services, idx)
    ensures var there := if owner in r.services then r.services[owner] else [];
            forall c :: c != "" ==>
              (Pick(OfClass(net, there, to, Exact), OfClass(net, there, to, Wildcard)).1 == c <==> Destination(net, s, owner, to, c))
  {
    var there := if owner in r.services then r.services[owner] else [];
    var exact, wildcard := OfClass(net, there, to, Exact), OfClass(net, there, to, Wildcard);
    forall c ensures Names(exact, c) <==> Serves(net, s, owner, to, true, c) {
      ThereServes(net, r, s, services, idx, owner, to, true, c);
    }
    forall c ensures Names(wildcard, c) <==> Serves(net, s, owner, to, false, c) {
      ThereServes(net, r, s, services, idx, owner, to, false, c);
    }
    forall c | c != "" ensures Pick(exact, wildcard).1 == c <==> Destination(net, s, owner, to, c) {
      PickMeaning(exact, wildcard, c);
    }
  }

  ghost predicate SameSamples(a: seq<Sample>, b: seq<Sample>) {
    forall x :: x in a <==> x in b
  }

  lemma SameLists(a: seq<Sample>, b: seq<Sample>)
    requires SameSamples(a, b)
    ensures forall i, ip :: Lists(a, i, ip) ==> Lists(b, i, ip)
  {
    forall i, ip | Lists(a, i, ip) ensures Lists(b, i, ip) {
      var n :| 0 <= n < |a| && a[n].instance == i && a[n].ip == ip;
      assert a[n] in b;
      var m :| 0 <= m < |b| && b[m] == a[n];
    }
  }

  lemma SameListens(net: Net, a: seq<Sample>, b: seq<Sample>)
    requires SameSamples(a, b)
    ensures forall k, l :: ListensOn(net, a, k, l) ==> ListensOn(net, b, k, l)
    ensures forall k :: Active(a, k) ==> Active(b, k)
  {
    forall k, l | ListensOn(net, a, k, l) ensures ListensOn(net, b, k, l) {
      var n :| 0 <= n < |a| && KeyOf(a[n]) == k && a[n].listenAddr == l.addr;
      assert a[n] in b;
      var m :| 0 <= m < |b| && b[m] == a[n];
    }
    forall k | Active(a, k) ensures Active(b, k) {
      var n :| 0 <= n < |a| && KeyOf(a[n]) == k;
      assert a[n] in b;
      var m :| 0 <= m < |b| && b[m] == a[n];
    }
  }

  lemma {:induction false} PickedName(net: Net, services: seq<Service>, to: Endpoint, c: Class)
    requires forall sv :: sv in services ==> sv.name == ServiceName(sv.container)
    ensures forall sv :: sv in Unique(OfClass(net, services, to, c)) ==> sv.name == ServiceName(sv.container)
  {
    forall sv | sv in Unique(OfClass(net, services, to, c)) ensures sv in services {
      UniqueWithin(OfClass(net, services, to, c), sv);
      OfClassWithin(net, services, to, c, sv);
    }
  }

  lemma {:induction false} UniqueWithin(services: seq<Service>, sv: Service)
    requires sv in Unique(services)
    ensures sv in services
  {
    if services != [] && sv in Unique(services[..|services| - 1]) {
      UniqueWithin(services[..|services| - 1], sv);
    }
  }

  lemma {:induction false} OfClassWithin(net: Net, services: seq<Service>, to: Endpoint, c: Class, sv: Service)
    requires sv in OfClass(net, services, to, c)
    ensures sv in services
  {
    if services != [] && sv in OfClass(net, services[..|services| - 1], to, c) {
      OfClassWithin(net, services[..|services| - 1], to, c, sv);
    }
  }

  /** A resolved destination carries the reported id and name of its owner, and the name of its
      container. */
  lemma ResolveNames(net: Net, r: Resolver, s: Series, services: seq<Service>, idx: map<ContainerKey, Service>, dest: string)
    requires BuiltFrom(net, r, s, services, idx)
    ensures var out := ResolveIn(net, r, dest);
            && (out.owner != "" ==> out.instanceId == LastInstanceId(s.cloud, out.owner) && out.hostname == HostName(s.info, out.owner))
            && (out.container != "" ==> out.service == ServiceName(out.container))
  {
    var out := ResolveIn(net, r, dest);
    if net.parse(dest).Some? && out.owner != "" {
      var to, there := net.parse(dest).value, if out.owner in r.services then r.services[out.owner] else [];
      forall sv | sv in there ensures sv.name == ServiceName(sv.container) {
        var k := ContainerKey(sv.instance, sv.container);
        assert k in idx && idx[k] == sv && idx[k].(listeners := []) == NewService(r.hosts, k);
      }
      PickedName(net, there, to, Exact);
      PickedName(net, there, to, Wildcard);
    }
  }

  /** The order in which the store returns samples changes neither the owner nor the container. */
  lemma ResolveIgnoresOrder(net: Net, r: Resolver, s: Series, services: seq<Service>, idx: map<ContainerKey, Service>,
                            r': Resolver, s': Series, services': seq<Service>, idx': map<ContainerKey, Service>, dest: string)
    requires BuiltFrom(net, r, s, services, idx) && BuiltFrom(net, r', s', services', idx')
    requires SameSamples(s.ips, s'.ips) && SameSamples(s.listen, s'.listen) && SameSamples(s.containers, s'.containers)
    ensures ResolveIn(net, r, dest).owner == ResolveIn(net, r', dest).owner
    ensures ResolveIn(net, r, dest).container == ResolveIn(net, r', dest).container
  {
    OwnerCarries(net, r, s, services, idx, r', s', services', idx', dest);
    OwnerCarries(net, r', s', services', idx', r, s, services, idx, dest);
    ContainerCarries(net, r, s, services, idx, r', s', services', idx', dest);
    ContainerCarries(net, r', s', services', idx', r, s, services, idx, dest);
  }

  lemma OwnerCarries(net: Net, r: Resolver, s: Series, services: seq<Service>, idx: map<ContainerKey, Service>,
                     r': Resolver, s': Series, services': seq<Service>, idx': map<ContainerKey, Service>, dest: string)
    requires BuiltFrom(net, r, s, services, idx) && BuiltFrom(net, r', s', services', idx') && SameSamples(s.ips, s'.ips)
    ensures var o := ResolveIn(net, r, dest).owner; o != "" ==> ResolveIn(net, r', dest).owner == o
  {
    var o := ResolveIn(net, r, dest).owner;
    if o != "" {
      ResolveMeaning(net, r, s, services, idx, dest);
      ResolveMeaning(net, r', s', services', idx', dest);
      SoleOwnerCarries(s.ips, s'.ips, net.parse(dest).value.host, o);
    }
  }

  lemma SoleOwnerCarries(a: seq<Sample>, b: seq<Sample>, host: string, owner: string)
    requires SameSamples(a, b) && SoleOwner(a, host, owner)
    ensures SoleOwner(b, host, owner)
  {
    SameLists(a, b);
    SameLists(b, a);
  }

  lemma ContainerCarries(net: Net, r: Resolver, s: Series, services: seq<Service>, idx: map<ContainerKey, Service>,
                         r': Resolver, s': Series, services': seq<Service>, idx': map<ContainerKey, Service>, dest: string)
    requires BuiltFrom(net, r, s, services, idx) && BuiltFrom(net, r', s', services', idx')
    requires SameSamples(s.listen, s'.listen) && SameSamples(s.containers, s'.containers)
    requires ResolveIn(net, r, dest).owner == ResolveIn(net, r', dest).owner
    ensures var c := ResolveIn(net, r, dest).container; c != "" ==> ResolveIn(net, r', dest).container == c
  {
    var o, c := ResolveIn(net, r, dest).owner, ResolveIn(net, r, dest).container;
    if c != "" {
      ResolveMeaning(net, r, s, services, idx, dest);
      ResolveMeaning(net, r', s', services', idx', dest);
      DestinationCarries(net, s, s', o, net.parse(dest).value, c);
    }
  }

  lemma DestinationCarries(net: Net, s: Series, s': Series, owner: string, to: Endpoint, container: string)
    requires SameSamples(s.listen, s'.listen) && SameSamples(s.containers, s'.containers)
    requires Destination(net, s, owner, to, container)
    ensures Destination(net, s', owner, to, container)
  {
    forall c: bool, d | Serves(net, s, owner, to, c, d) ensures Serves(net, s', owner, to, c, d) {
      SameServes(net, s, s', owner, to, c, d);
    }
    forall c: bool, d | Serves(net, s', owner, to, c, d) ensures Serves(net, s, owner, to, c, d) {
      SameServes(net, s', s, owner, to, c, d);
    }
  }

  lemma SameServes(net: Net, s: Series, s': Series, owner: string, to: Endpoint, bound: bool, container: string)
    requires SameSamples(s.listen, s'.listen) && SameSamples(s.containers, s'.containers)
    requires Serves(net, s, owner, to, bound, container)
    ensures Serves(net, s', owner, to, bound, container)
  {
    SameListens(net, s.listen, s'.listen);
    SameListens(net, s'.listen, s.listen);
    SameListens(net, s.containers, s'.containers);
    var k := ContainerKey(owner, container);
    var l :| FirstReaching(net, s.listen, k, to, l) && (l.at.host == to.host <==> bound);
    assert FirstReaching(net, s'.listen, k, to, l);
  }
}
