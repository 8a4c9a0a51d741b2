// Bringing a bridge to its configuration (system/network_manager.go).
module NetworkManager {
  import opened Basics
  import opened Kernel
  import opened Snapshot

  datatype Protocol = Static | Dhcp | NoProtocol | Unknown

  // An address with its netmask, or a gateway, as configured: left empty, not parseable, or given.
  datatype Address = Unset | Malformed | At(addr: Addr)
  datatype Gateway = NoGateway | BadGateway | Via(ip: string)

  datatype Interface = Interface(device: string, mtu: int, ports: seq<string>, protocol: Protocol,
                                 address: Address, gateway: Gateway, metric: int)

  const DEFAULT_MTU := 1500
  const DEFAULT_METRIC := 100
  const MAIN_TABLE := 254

  function DeviceOf(name: string, i: Interface): string {
    if i.device == "" then name else i.device
  }

  function MtuOf(i: Interface): int {
    if i.mtu == 0 then DEFAULT_MTU else i.mtu
  }

  // ----- what applying a bridge is for -----

  // The bridge has its MTU, its ports and its address.
  ghost predicate Configured(links: Links, device: string, i: Interface) {
    && Matches(links, device, i)
    && (i.protocol == Static ==> Addressed(links[device], i.address))
  }

  ghost predicate Matches(links: Links, device: string, i: Interface) {
    Kept(links, device, i) && PortsOf(links, device) == Elems(i.ports)
  }

  predicate Addressed(link: Link, address: Address) {
    match address
    case Unset => true
    case Malformed => false
    case At(a) => a in link.addrs
  }

  // Links other than the bridge change only in joining it, which brings them up, or in leaving it.
  ghost predicate OthersKept(before: Links, after: Links, device: string, ports: set<string>) {
    && device in after && after.Keys == before.Keys + {device}
    && forall n <- before | n != device :: after[n] == Moved(before, after[device].index, device, ports, n)
  }

  ghost function Moved(before: Links, index: nat, device: string, ports: set<string>, n: string): Link
    requires n in before
  {
    var wasPort := device in before && n in PortsOf(before, device);
    if n !in ports then before[n].(master := if wasPort then 0 else before[n].master)
    else if wasPort && before[device].index == index then before[n]
    else before[n].(master := index, up := true)
  }

  // The link and its ports are there; the bridge was kept, or made anew when its MTU was another.
  ghost predicate Prepared(before: Links, after: Links, device: string, i: Interface) {
    && OthersKept(before, after, device, Elems(i.ports))
    && PortsOf(after, device) == Elems(i.ports)
    && (Kept(before, device, i) ==> after[device] == before[device])
    && (!Kept(before, device, i) ==>
          && after[device] == Link(after[device].index, Bridge, MtuOf(i), true, {}, 0)
          && !HasIndex(before, after[device].index))
  }

  // What a successful application has made of the links.
  ghost predicate Applied(before: Links, after: Links, device: string, i: Interface) {
    if Configured(before, device, i) then after == before else Reconciled(before, after, device, i)
  }

  ghost predicate Reconciled(before: Links, after: Links, device: string, i: Interface) {
    && device in after
    && exists middle | Prepared(before, middle, device, i) :: after == middle[device := WithAddress(middle[device], i)]
  }

  predicate Kept(before: Links, device: string, i: Interface) {
    device in before && before[device].mtu == MtuOf(i)
  }

  function WithAddress(l: Link, i: Interface): Link {
    if i.protocol == Static && i.address.At? then l.(addrs := {i.address.addr}) else l
  }

  // The one default route goes through the gateway, unless the bridge was configured already: then
  // the gateway is not looked at.
  ghost predicate RoutesAfter(linksBefore: Links, before: set<Route>, links: Links, after: set<Route>, device: string, i: Interface) {
    && device in links
    && after ==
         if Configured(linksBefore, device, i) then before
         else WithGateway(RoutesLeft(linksBefore, before, device, i), links[device].index, i)
  }

  ghost function RoutesLeft(links: Links, routes: set<Route>, device: string, i: Interface): set<Route> {
    if device in links && !Kept(links, device, i) then RoutesAfterLinkDel(routes, links[device].index) else routes
  }

  ghost function WithGateway(routes: set<Route>, index: nat, i: Interface): set<Route> {
    if i.protocol == Static && i.gateway.Via? then
      (set r | r in routes && !IsDefault(r)) + {GatewayRoute(index, i.gateway.ip, i.metric)}
    else
      routes
  }

  // ----- when it can be done -----

  predicate CanJoin(links: Links, p: string, b: string) {
    p in links && b in links && links[p].kind != Bridge && links[b].kind == Bridge
  }

  ghost predicate AllCanJoin(links: Links, ports: set<string>, b: string) {
    forall p <- ports :: CanJoin(links, p, b)
  }

  // The ports to add can join: an existing bridge with the right MTU, or else a new one.
  ghost predicate Preparable(links: Links, device: string, i: Interface) {
    if Kept(links, device, i) then AllCanJoin(links, Elems(i.ports) - PortsOf(links, device), device)
    else device != "" && device !in i.ports && CanServe(links, i.ports)
  }

  // Links that a bridge can take.
  ghost predicate CanServe(links: Links, ports: seq<string>) {
    forall p <- ports :: p in links && links[p].kind != Bridge
  }

  // Address and gateway parse, and the route to the gateway leads through a link that is up.
  predicate Addressable(i: Interface, up: bool) {
    && i.protocol != Unknown
    && (i.protocol == Static ==> i.address != Malformed && i.gateway != BadGateway && (i.gateway.Via? ==> up))
  }

  // A new bridge is up, one that is kept need not be.
  predicate UpWhenAddressed(links: Links, device: string, i: Interface) {
    Kept(links, device, i) ==> links[device].up
  }

  predicate IsDefault(r: Route) {
    r.dst == Default || r.dst == Net("0.0.0.0/0")
  }

  function GatewayRoute(index: nat, ip: string, metric: int): Route {
    Route(Default, Some(ip), index, if metric == 0 then DEFAULT_METRIC else metric, MAIN_TABLE, 0, 0)
  }

  // A successful application reaches the configuration and leaves the other links in place...
  lemma AppliedIsConfigured(before: Links, after: Links, device: string, i: Interface)
    requires ValidLinks(before) && Applied(before, after, device, i)
    requires i.protocol == Static ==> i.address != Malformed
    ensures Configured(after, device, i) && OthersKept(before, after, device, Elems(i.ports))
    ensures i.protocol == Static && i.address.At? && !Configured(before, device, i) ==>
              after[device].addrs == {i.address.addr}
  {
    if Configured(before, device, i) {
      IdleKeepsOthers(before, device, Elems(i.ports));
    } else {
      var middle :| Prepared(before, middle, device, i) && after == middle[device := WithAddress(middle[device], i)];
      AddressingKeepsTheRest(middle, after, device, i);
      OthersStayKept(before, middle, after, device, Elems(i.ports));
    }
  }

  // In plain terms: the bridge has the configured MTU or 1500, exactly the configured ports and the
  // configured address, and the other links are as before but for the bridge they belong to.
  lemma AppliedInPlainTerms(before: Links, after: Links, device: string, i: Interface)
    requires ValidLinks(before) && Applied(before, after, device, i)
    requires i.protocol == Static ==> i.address != Malformed
    ensures device in after && after[device].mtu == if i.mtu == 0 then 1500 else i.mtu
    ensures forall n <- after :: after[n].master == after[device].index <==> n in i.ports
    ensures forall n <- i.ports :: n in after
    ensures i.protocol == Static && i.address.At? ==> i.address.addr in after[device].addrs
    ensures forall n <- before | n != device ::
              n in after && after[n] == before[n].(up := before[n].up || (n in i.ports && after[n].up), master := after[n].master)
    ensures forall n <- before | n != device && n !in i.ports ::
              n in after && after[n].master == if device in before && before[n].master == before[device].index then 0 else before[n].master
    ensures forall n <- after | n != device :: n in before
  {
    AppliedIsConfigured(before, after, device, i);
    assert OthersKept(before, after, device, Elems(i.ports));
    forall n | n in i.ports ensures n in after { assert n in PortsOf(after, device); }
    forall n | n in after ensures after[n].master == after[device].index <==> n in i.ports {
      assert n in i.ports <==> n in PortsOf(after, device);
    }
  }

  // Being as configured, and what can be brought to it, in plain terms.  The ports that are missing
  // have to exist and not to be bridges; a bridge with another MTU is made anew, under its name and not
  // from itself; what is addressed has to be up if a gateway is wanted.
  lemma ConfiguredInPlainTerms(links: Links, device: string, i: Interface)
    ensures Configured(links, device, i) <==>
              && device in links && links[device].mtu == (if i.mtu == 0 then 1500 else i.mtu)
              && (forall n <- links :: links[n].master == links[device].index <==> n in i.ports)
              && (forall p <- i.ports :: p in links)
              && (i.protocol == Static && i.address != Unset ==> i.address.At? && i.address.addr in links[device].addrs)
  {
    if device in links { SamePorts(links, device, i.ports); }
  }

  lemma PossibleInPlainTerms(links: Links, device: string, i: Interface)
    ensures var kept := device in links && links[device].mtu == if i.mtu == 0 then 1500 else i.mtu;
            && (kept ==>
                  (Preparable(links, device, i) <==> forall p <- i.ports ::
                     p in links && (links[p].master == links[device].index || (links[p].kind != Bridge && links[device].kind == Bridge))))
            && (!kept ==>
                  (Preparable(links, device, i) <==>
                   device != "" && device !in i.ports && forall p <- i.ports :: p in links && links[p].kind != Bridge))
            && (Addressable(i, UpWhenAddressed(links, device, i)) <==>
                  && i.protocol != Unknown
                  && (i.protocol == Static ==>
                        && i.address != Malformed && i.gateway != BadGateway
                        && (i.gateway.Via? && kept ==> links[device].up)))
  {
    forall p ensures p in Elems(i.ports) <==> p in i.ports {}
    if Kept(links, device, i) {
      forall p | p in i.ports
        ensures (p in Elems(i.ports) - PortsOf(links, device) ==> CanJoin(links, p, device)) <==>
                p in links && (links[p].master == links[device].index || (links[p].kind != Bridge && links[device].kind == Bridge))
      {
      }
    }
  }

  lemma SamePorts(links: Links, device: string, ports: seq<string>)
    requires device in links
    ensures PortsOf(links, device) == Elems(ports) <==>
              (forall n <- links :: links[n].master == links[device].index <==> n in ports) && forall p <- ports :: p in links
  {
    forall p ensures p in Elems(ports) <==> p in ports {}
    if PortsOf(links, device) == Elems(ports) {
      forall n | n in links ensures links[n].master == links[device].index <==> n in ports {
        assert n in PortsOf(links, device) <==> n in Elems(ports);
      }
      forall p | p in ports ensures p in links { assert p in PortsOf(links, device); }
    }
  }

  // ... so applying once more finds it configured and changes nothing.
  lemma AppliedOnceIsEnough(before: Links, after: Links, again: Links, device: string, i: Interface)
    requires ValidLinks(before) && Applied(before, after, device, i) && Applied(after, again, device, i)
    requires i.protocol == Static ==> i.address != Malformed
    ensures again == after
  {
    AppliedIsConfigured(before, after, device, i);
  }

  // The device is a bridge afterwards, and up, unless it was kept as something else or down: neither is
  // looked at.
  lemma AppliedIsABridgeUp(before: Links, after: Links, device: string, i: Interface)
    requires Applied(before, after, device, i)
    ensures device in after
    ensures var kept := device in before && before[device].mtu == if i.mtu == 0 then 1500 else i.mtu;
            && (after[device].kind == Bridge <==> (kept ==> before[device].kind == Bridge))
            && (after[device].up <==> (kept ==> before[device].up))
            && (i.protocol != Static || !i.address.At? ==> after[device].addrs == if kept then before[device].addrs else {})
  {
  }

  // A physical port that is down passes for a bridge without ports.
  lemma AnythingCanPassForABridge()
    ensures var eth0 := Link(1, Physical, DEFAULT_MTU, false, {}, 0);
            var i := Interface("eth0", 0, [], NoProtocol, Unset, NoGateway, 0);
            ValidLinks(map["eth0" := eth0]) && Configured(map["eth0" := eth0], "eth0", i)
  {
    var eth0 := Link(1, Physical, DEFAULT_MTU, false, {}, 0);
    assert Elems(Interface("eth0", 0, [], NoProtocol, Unset, NoGateway, 0).ports) == {};
  }

  // After success the default route goes through the gateway if and only if the bridge was not
  // configured already, or the route was there already.
  lemma GatewayIsSet(linksBefore: Links, before: set<Route>, links: Links, after: set<Route>, device: string, i: Interface)
    requires RoutesAfter(linksBefore, before, links, after, device, i) && i.protocol == Static && i.gateway.Via?
    ensures var route := Route(Default, Some(i.gateway.ip), links[device].index, if i.metric == 0 then 100 else i.metric, 254, 0, 0);
            route in after <==> !Configured(linksBefore, device, i) || route in before
  {
  }

  // Adding a gateway to the configuration of a bridge that is as configured otherwise has no effect.
  lemma GatewayCanBeMissed()
    ensures var a := Addr(1, 24);
            var links := map["br0" := Link(1, Bridge, DEFAULT_MTU, true, {a}, 0)];
            var i := Interface("br0", 0, [], Static, At(a), Via("gw"), 0);
            && Applied(links, links, "br0", i) && RoutesAfter(links, {}, links, {}, "br0", i)
            && GatewayRoute(links["br0"].index, "gw", 0) !in {}
  {
    var a := Addr(1, 24);
    assert Elems(Interface("br0", 0, [], Static, At(a), Via("gw"), 0).ports) == {};
  }

  lemma MatchingIsPrepared(links: Links, device: string, i: Interface)
    requires Matches(links, device, i)
    ensures Prepared(links, links, device, i)
  {
    IdleKeepsOthers(links, device, Elems(i.ports));
  }

  lemma IdleKeepsOthers(links: Links, device: string, ports: set<string>)
    requires device in links && PortsOf(links, device) == ports
    ensures OthersKept(links, links, device, ports)
  {
  }

  lemma AddressingKeepsTheRest(middle: Links, after: Links, device: string, i: Interface)
    requires device in middle && after == middle[device := WithAddress(middle[device], i)]
    ensures after[device].mtu == middle[device].mtu && after[device].index == middle[device].index
    ensures PortsOf(after, device) == PortsOf(middle, device)
  {
  }

  lemma OthersStayKept(before: Links, middle: Links, after: Links, device: string, ports: set<string>)
    requires OthersKept(before, middle, device, ports)
    requires device in after && after[device].index == middle[device].index && after == middle[device := after[device]]
    ensures OthersKept(before, after, device, ports)
  {
  }

  // ----- comparing port lists -----

  method ToSet(s: seq<string>) returns (xs: set<string>)
    ensures xs == Elems(s)
  {
    xs := {};
    for i := 0 to |s|
      invariant xs == Elems(s[..i])
    {
      ElemsOfPrefix(s, i);
      xs := xs + {s[i]};
    }
    assert s[..|s|] == s;
  }

  // Equal length and inclusion one way.
  method StringSlicesEqual(a: seq<string>, b: seq<string>) returns (same: bool)
    ensures same <==> |a| == |b| && Elems(b) <= Elems(a)
  {
    if |a| != |b| { return false; }
    var known := ToSet(a);
    for i := 0 to |b|
      invariant forall j | 0 <= j < i :: b[j] in known
    {
      if b[i] !in known {
        assert b[i] in Elems(b);
        return false;
      }
    }
    same := true;
  }

  // For the listing of actual ports the comparison says equal sets exactly when the wanted list repeats nothing.
  lemma ComparesSetsIffNoRepeats(a: seq<string>, b: seq<string>)
    requires NoDup(a) && |a| == |b| && Elems(b) <= Elems(a)
    ensures Elems(a) == Elems(b) <==> NoDup(b)
  {
    NoDupCardinality(a);
    if NoDup(b) {
      NoDupCardinality(b);
      SubsetOfSameSize(Elems(b), Elems(a));
    }
    if Elems(a) == Elems(b) { FullCardinality(b); }
  }

  lemma SubsetOfSameSize<T>(x: set<T>, y: set<T>)
    requires x <= y && |x| == |y|
    ensures x == y
  {
    assert y == x + (y - x);
  }

  lemma {:induction false} FullCardinality<T>(s: seq<T>)
    ensures |Elems(s)| <= |s| && (|Elems(s)| == |s| ==> NoDup(s))
  {
    if s != [] {
      var t, x := s[..|s| - 1], s[|s| - 1];
      FullCardinality(t);
      assert Elems(s) == Elems(t) + {x};
      if x !in Elems(t) {
        forall i | 0 <= i < |t| ensures s[i] != x { assert t[i] in Elems(t); }
        forall i, j | 0 <= i < j < |s| && NoDup(t) ensures s[i] != s[j] { if j < |t| { assert t[i] != t[j]; } }
      } else {
        assert Elems(s) == Elems(t);
      }
    }
  }

  // Equal sets of repeat-free lists pass the comparison.
  lemma SameSetsCompareEqual(a: seq<string>, b: seq<string>)
    requires NoDup(a) && NoDup(b) && Elems(a) == Elems(b)
    ensures |a| == |b|
  {
    NoDupCardinality(a);
    NoDupCardinality(b);
  }

  // With a repeated name the comparison passes over a port that should leave.
  lemma RepeatsHideAPort()
    ensures var actual, wanted := ["eth0", "eth1"], ["eth0", "eth0"];
            && NoDup(actual) && |actual| == |wanted| && Elems(wanted) <= Elems(actual)
            && Elems(wanted) != Elems(actual)
  {
    var actual, wanted := ["eth0", "eth1"], ["eth0", "eth0"];
    assert actual[1] in Elems(actual) && "eth1" != "eth0" by { assert "eth1"[3] != "eth0"[3]; }
    assert wanted[0] == actual[0] && wanted[1] == actual[0];
    assert actual[1] !in Elems(wanted);
  }

  // ----- ports joining and leaving -----

  ghost function Joined(links: Links, names: set<string>, index: nat): Links {
    map n | n in links :: if n in names then links[n].(up := true, master := index) else links[n]
  }

  lemma JoinOneMore(links: Links, names: set<string>, index: nat, n: string)
    requires n in links
    ensures Joined(links, names + {n}, index) ==
            Joined(links, names, index)[n := Joined(links, names, index)[n].(up := true, master := index)]
  {
  }

  // Leaving and joining in place make exactly the wanted ports.
  lemma InPlaceUpdate(before: Links, after: Links, device: string, ports: set<string>)
    requires ValidLinks(before) && device in before
    requires ports - PortsOf(before, device) <= before.Keys - {device}
    requires var current := PortsOf(before, device);
             after == Joined(WithFreed(before, current - ports), ports - current, before[device].index)
    ensures device in after && after[device] == before[device]
    ensures PortsOf(after, device) == ports && OthersKept(before, after, device, ports)
  {
    assert PortsOf(before, device) <= before.Keys - {device};
    var current, index := PortsOf(before, device), before[device].index;
    forall p | p in before ensures after[p].master == index <==> p in ports {
      if p in current {
        assert before[p].master == index;
      } else if p in ports {
        assert after[p].master == index;
      } else {
        assert after[p] == before[p] && before[p].master != index;
      }
    }
    forall p | p in ports ensures p in before { assert p in current || p in ports - current; }
  }

  // A new bridge has exactly the wanted ports.
  lemma FreshBridge(before: Links, after: Links, device: string, made: Link, ports: set<string>)
    requires ValidLinks(before) && device !in before && device !in ports && ports <= before.Keys
    requires made.master == 0 && made.index > 0 && !HasIndex(before, made.index)
    requires forall n <- before :: before[n].master != made.index
    requires after == Joined(before[device := made], ports, made.index)
    ensures device in after && after[device] == made
    ensures PortsOf(after, device) == ports && OthersKept(before, after, device, ports)
  {
  }

  // Deleting the bridge first makes no difference to the others.
  lemma DeleteThenKeep(before: Links, after: Links, device: string, ports: set<string>)
    requires ValidLinks(before) && device in before
    requires OthersKept(AfterLinkDel(before, device), after, device, ports)
    requires after[device].index != before[device].index
    ensures OthersKept(before, after, device, ports)
  {
  }

  // Bringing the bridge up leaves the rest alone.
  lemma RaisingKeepsPorts(before: Links, joined: Links, after: Links, device: string, ports: set<string>)
    requires OthersKept(before, joined, device, ports) && after == joined[device := joined[device].(up := true)]
    ensures OthersKept(before, after, device, ports) && PortsOf(after, device) == PortsOf(joined, device)
  {
  }

  lemma UpLink(links: Links, n: string)
    requires ValidLinks(links) && n in links
    ensures UpIndex(links, links[n].index) <==> links[n].up
  {
  }

  lemma OnlyOneLeft(all: set<Addr>, a: Addr)
    ensures all - (all - {a}) + {a} == {a} && (a in all ==> all - (all - {a}) == {a})
  {
  }

  lemma RaisedCanJoin(links: Links, port: Handle, bridge: Handle)
    requires port.name in links && port.link == links[port.name]
    ensures var raised := links[port.name := links[port.name].(up := true)];
            && (CanEnslave(raised, port, bridge) ==> port.name != bridge.name)
            && (Live(links, bridge) ==> (CanEnslave(raised, port, bridge) <==> CanJoin(links, port.name, bridge.name)))
  {
  }

  lemma FreeingKeepsKinds(links: Links, freed: set<string>, ports: set<string>, b: string)
    ensures WithFreed(links, freed).Keys == links.Keys
    ensures AllCanJoin(WithFreed(links, freed), ports, b) <==> AllCanJoin(links, ports, b)
  {
    forall p <- ports ensures CanJoin(WithFreed(links, freed), p, b) <==> CanJoin(links, p, b) {}
  }

  lemma ElemsOfPrefixLess(s: seq<string>, i: nat, skip: set<string>)
    requires i < |s|
    ensures Elems(s[..i + 1]) - skip == (Elems(s[..i]) - skip) + ({s[i]} - skip)
  {
    ElemsOfPrefix(s, i);
  }

  class NetworkManager {
    const netlink: Kernel

    constructor (netlink: Kernel)
      ensures this.netlink == netlink
    {
      this.netlink := netlink;
    }

    // The first listed port to fail stops the work.
    method AddPortToBridge(name: string, bridge: Handle) returns (ok: bool)
      requires netlink.Valid()
      modifies netlink`links, netlink`writes
      ensures netlink.Valid() && netlink.writes >= old(netlink.writes)
      ensures ok ==> && name in old(netlink.links) && name != bridge.name
                     && netlink.writes > old(netlink.writes)
                     && netlink.links == old(netlink.links)[name := old(netlink.links)[name].(up := true, master := bridge.link.index)]
      ensures netlink.reliable && Live(old(netlink.links), bridge) ==> (ok <==> CanJoin(old(netlink.links), name, bridge.name))
    {
      var found, port := netlink.LinkByName(name);
      if !found { return false; }
      RaisedCanJoin(netlink.links, port, bridge);
      ok := netlink.LinkSetUp(port);
      if !ok { return; }
      ok := netlink.LinkSetMaster(port, bridge);
    }

    method RemovePortFromBridge(name: string) returns (ok: bool)
      requires netlink.Valid()
      modifies netlink`links, netlink`writes
      ensures netlink.Valid() && netlink.writes >= old(netlink.writes)
      ensures ok ==> && name in old(netlink.links) && netlink.writes > old(netlink.writes)
                     && netlink.links == old(netlink.links)[name := old(netlink.links)[name].(master := 0)]
      ensures netlink.reliable ==> (ok <==> name in old(netlink.links))
    {
      var found, port := netlink.LinkByName(name);
      if !found { return false; }
      ok := netlink.LinkSetNoMaster(port);
    }

    method JoinUnless(skip: set<string>, name: string, bridge: Handle, ghost was: Links, ghost added: set<string>) returns (ok: bool)
      requires netlink.Valid() && netlink.links == Joined(was, added, bridge.link.index)
      requires added <= was.Keys - {bridge.name}
      modifies netlink`links, netlink`writes
      ensures netlink.Valid() && netlink.writes >= old(netlink.writes)
      ensures ok ==> var more := added + ({name} - skip);
                more <= was.Keys - {bridge.name} && netlink.links == Joined(was, more, bridge.link.index)
      ensures ok && name !in skip ==> netlink.writes > old(netlink.writes)
      ensures netlink.reliable && Live(was, bridge) ==> (ok <==> name in skip || CanJoin(was, name, bridge.name))
    {
      if name in skip {
        assert added + ({name} - skip) == added;
        return true;
      }
      ok := AddPortToBridge(name, bridge);
      if ok {
        JoinOneMore(was, added, bridge.link.index, name);
        assert added + ({name} - skip) == added + {name};
      }
    }

    method AddPorts(ports: seq<string>, skip: set<string>, bridge: Handle) returns (ok: bool)
      requires netlink.Valid() && Live(netlink.links, bridge)
      modifies netlink`links, netlink`writes
      ensures netlink.Valid() && netlink.writes >= old(netlink.writes)
      ensures ok ==> && Elems(ports) - skip <= old(netlink.links).Keys - {bridge.name}
                     && netlink.links == Joined(old(netlink.links), Elems(ports) - skip, bridge.link.index)
                     && (Elems(ports) - skip != {} ==> netlink.writes > old(netlink.writes))
      ensures netlink.reliable ==> (ok <==> AllCanJoin(old(netlink.links), Elems(ports) - skip, bridge.name))
    {
      ghost var was, added, writes := netlink.links, {}, netlink.writes;
      assert netlink.links == Joined(was, added, bridge.link.index);
      for i := 0 to |ports|
        invariant netlink.Valid() && netlink.writes >= writes
        invariant added == Elems(ports[..i]) - skip && added <= was.Keys - {bridge.name}
        invariant netlink.links == Joined(was, added, bridge.link.index)
        invariant added != {} ==> netlink.writes > writes
        invariant netlink.reliable ==> AllCanJoin(was, added, bridge.name)
      {
        ElemsOfPrefixLess(ports, i, skip);
        ok := JoinUnless(skip, ports[i], bridge, was, added);
        if !ok {
          assert ports[i] !in skip ==> ports[i] in Elems(ports) - skip;
          return;
        }
        added := added + ({ports[i]} - skip);
      }
      assert ports[..|ports|] == ports;
      ok := true;
    }

    method RemovePorts(ports: seq<string>, wanted: set<string>) returns (ok: bool)
      requires netlink.Valid()
      modifies netlink`links, netlink`writes
      ensures netlink.Valid() && netlink.writes >= old(netlink.writes)
      ensures ok ==> && netlink.links == WithFreed(old(netlink.links), Elems(ports) - wanted)
                     && (Elems(ports) - wanted != {} ==> netlink.writes > old(netlink.writes))
      ensures netlink.reliable && Elems(ports) <= old(netlink.links.Keys) ==> ok
    {
      ghost var was, freed, writes := netlink.links, {}, netlink.writes;
      assert netlink.links == WithFreed(was, freed);
      for i := 0 to |ports|
        invariant netlink.Valid() && netlink.writes >= writes
        invariant freed == Elems(ports[..i]) - wanted
        invariant netlink.links == WithFreed(was, freed)
        invariant freed != {} ==> netlink.writes > writes
      {
        ElemsOfPrefixLess(ports, i, wanted);
        assert ports[i] in Elems(ports);
        ok := LeaveUnless(wanted, ports[i], was, freed);
        if !ok { return; }
        freed := freed + ({ports[i]} - wanted);
      }
      assert ports[..|ports|] == ports;
      ok := true;
    }

    method LeaveUnless(wanted: set<string>, name: string, ghost was: Links, ghost freed: set<string>) returns (ok: bool)
      requires netlink.Valid() && netlink.links == WithFreed(was, freed)
      modifies netlink`links, netlink`writes
      ensures netlink.Valid() && netlink.writes >= old(netlink.writes)
      ensures ok ==> netlink.links == WithFreed(was, freed + ({name} - wanted))
      ensures ok && name !in wanted ==> netlink.writes > old(netlink.writes)
      ensures netlink.reliable && name in was ==> ok
    {
      if name in wanted {
        assert freed + ({name} - wanted) == freed;
        return true;
      }
      ok := RemovePortFromBridge(name);
      if ok {
        FreeOneMore(was, freed, name);
        assert freed + ({name} - wanted) == freed + {name};
      }
    }

    // Both passes follow one listing of the ports, taken first.
    method UpdateBridgePorts(bridge: Handle, i: Interface) returns (ok: bool)
      requires netlink.Valid() && Live(netlink.links, bridge)
      modifies netlink`links, netlink`writes
      ensures netlink.Valid() && netlink.writes >= old(netlink.writes)
      ensures ok ==> && Live(netlink.links, bridge) && netlink.links[bridge.name] == old(netlink.links)[bridge.name]
                     && PortsOf(netlink.links, bridge.name) == Elems(i.ports)
                     && OthersKept(old(netlink.links), netlink.links, bridge.name, Elems(i.ports))
                     && (PortsOf(old(netlink.links), bridge.name) != Elems(i.ports) ==> netlink.writes > old(netlink.writes))
      ensures netlink.reliable ==>
                (ok <==> AllCanJoin(old(netlink.links), Elems(i.ports) - PortsOf(old(netlink.links), bridge.name), bridge.name))
    {
      var current: seq<string>;
      ok, current := GetBridgePorts(netlink, bridge.name);
      if !ok { return; }
      var wanted := ToSet(i.ports);
      var known := ToSet(current);
      assert known == PortsOf(netlink.links, bridge.name) <= netlink.links.Keys;
      ok := MovePorts(bridge, current, known, i.ports, wanted);
    }

    method MovePorts(bridge: Handle, current: seq<string>, known: set<string>, ports: seq<string>, wanted: set<string>) returns (ok: bool)
      requires netlink.Valid() && Live(netlink.links, bridge)
      requires known == Elems(current) == PortsOf(netlink.links, bridge.name) <= netlink.links.Keys && wanted == Elems(ports)
      modifies netlink`links, netlink`writes
      ensures netlink.Valid() && netlink.writes >= old(netlink.writes)
      ensures ok ==> && Live(netlink.links, bridge) && netlink.links[bridge.name] == old(netlink.links)[bridge.name]
                     && PortsOf(netlink.links, bridge.name) == wanted
                     && OthersKept(old(netlink.links), netlink.links, bridge.name, wanted)
                     && (known != wanted ==> netlink.writes > old(netlink.writes))
      ensures netlink.reliable ==> (ok <==> AllCanJoin(old(netlink.links), wanted - known, bridge.name))
    {
      ghost var was := netlink.links;
      ok := RemovePorts(current, wanted);
      if !ok { return; }
      FreeingKeepsKinds(was, known - wanted, wanted - known, bridge.name);
      ok := AddPorts(ports, known, bridge);
      if ok { InPlaceUpdate(was, netlink.links, bridge.name, wanted); }
    }

    method CreateBridge(device: string, i: Interface) returns (ok: bool, bridge: Handle)
      requires netlink.Valid()
      modifies netlink`links, netlink`nextIndex, netlink`writes
      ensures netlink.Valid() && netlink.writes > old(netlink.writes)
      ensures ok ==> && device !in old(netlink.links) && bridge.name == device && Live(netlink.links, bridge)
                     && netlink.links[device] == Link(old(netlink.nextIndex), Bridge, MtuOf(i), true, {}, 0)
                     && PortsOf(netlink.links, device) == Elems(i.ports)
                     && OthersKept(old(netlink.links), netlink.links, device, Elems(i.ports))
      ensures netlink.reliable ==>
                (ok <==> device != "" && device !in old(netlink.links) && CanServe(old(netlink.links), i.ports))
    {
      ghost var was, index := netlink.links, netlink.nextIndex;
      bridge := Handle("", Link(0, Physical, 0, false, {}, 0));
      ok := netlink.LinkAdd(device, Bridge, MtuOf(i));
      if !ok { return; }
      ok, bridge := netlink.LinkByName(device);
      if !ok { return; }
      assert Elems(i.ports) - {} == Elems(i.ports);
      assert AllCanJoin(netlink.links, Elems(i.ports), device) <==> CanServe(was, i.ports) by {
        forall p | p in i.ports ensures p in Elems(i.ports) {}
      }
      ok := AddPorts(i.ports, {}, bridge);
      if !ok { return; }
      FreshBridge(was, netlink.links, device, Link(index, Bridge, MtuOf(i), false, {}, 0), Elems(i.ports));
      ghost var joined := netlink.links;
      ok := netlink.LinkSetUp(bridge);
      if ok { RaisingKeepsPorts(was, joined, netlink.links, device, Elems(i.ports)); }
    }

    method CheckIPMatches(link: Handle, address: Address) returns (ok: bool, same: bool)
      requires netlink.Valid()
      ensures ok ==> && address != Malformed
                     && (address.At? ==> Live(netlink.links, link))
                     && (same <==> address.At? ==> address.addr in netlink.links[link.name].addrs)
      ensures netlink.reliable && Live(netlink.links, link) ==> (ok <==> address != Malformed)
    {
      if address == Unset { return true, true; }
      if address == Malformed { return false, false; }
      var listed, addrs := netlink.AddrList(link);
      if !listed { return false, false; }
      assert address.addr in addrs <==> address.addr in Elems(addrs);
      for j := 0 to |addrs| invariant address.addr !in addrs[..j] {
        if addrs[j] == address.addr { return true, true; }
        assert addrs[..j + 1] == addrs[..j] + [addrs[j]];
      }
      assert addrs[..|addrs|] == addrs;
      return true, false;
    }

    method BridgeConfigMatches(bridge: Handle, i: Interface) returns (ok: bool, same: bool)
      requires netlink.Valid() && bridge.name in netlink.links && bridge.link == netlink.links[bridge.name]
      ensures netlink.reliable ==> ok
      ensures ok && NoDup(i.ports) ==>
                (same <==> bridge.link.mtu == MtuOf(i) && PortsOf(netlink.links, bridge.name) == Elems(i.ports))
      ensures ok && same ==> bridge.link.mtu == MtuOf(i)
    {
      if bridge.link.mtu != MtuOf(i) { return true, false; }
      var current: seq<string>;
      ok, current := GetBridgePorts(netlink, bridge.name);
      if !ok { return false, false; }
      same := StringSlicesEqual(current, i.ports);
      if same { ComparesSetsIffNoRepeats(current, i.ports); }
      if NoDup(i.ports) && Elems(current) == Elems(i.ports) { SameSetsCompareEqual(current, i.ports); }
    }

    // The address wanted is the only one left.
    method EnsureStaticIP(link: Handle, address: Address) returns (ok: bool)
      requires netlink.Valid() && Live(netlink.links, link)
      modifies netlink`links, netlink`writes
      ensures netlink.Valid() && netlink.writes >= old(netlink.writes)
      ensures ok ==> && address != Malformed
                     && (address == Unset ==> netlink.links == old(netlink.links))
                     && (address.At? ==> netlink.links == WithAddrs(old(netlink.links), link.name, {address.addr}))
                     && (address.At? && address.addr !in old(netlink.links)[link.name].addrs ==> netlink.writes > old(netlink.writes))
      ensures netlink.reliable ==> (ok <==> address != Malformed)
    {
      if address == Unset { return true; }
      if address == Malformed { return false; }
      var addrs: seq<Addr>;
      ok, addrs := netlink.AddrList(link);
      if !ok { return; }
      var hasDesired, unwanted := Sort(addrs, address.addr);
      ok := LeaveOnly(link, address.addr, hasDesired, unwanted);
    }

    method LeaveOnly(link: Handle, a: Addr, present: bool, unwanted: seq<Addr>) returns (ok: bool)
      requires netlink.Valid() && Live(netlink.links, link)
      requires present == (a in netlink.links[link.name].addrs) && Lists(unwanted, netlink.links[link.name].addrs - {a})
      modifies netlink`links, netlink`writes
      ensures netlink.Valid() && netlink.writes >= old(netlink.writes)
      ensures ok ==> && netlink.links == WithAddrs(old(netlink.links), link.name, {a})
                     && (!present ==> netlink.writes > old(netlink.writes))
      ensures netlink.reliable ==> ok
    {
      ghost var was, all := netlink.links, netlink.links[link.name].addrs;
      OnlyOneLeft(all, a);
      WithAddrsTwice(was, link.name, all - (all - {a}), {a});
      ok := RemoveAddresses(link, unwanted);
      if ok && !present { ok := netlink.AddrAdd(link, a); }
    }

    // The addresses other than the wanted one, and whether that one is there.
    method Sort(addrs: seq<Addr>, wanted: Addr) returns (found: bool, unwanted: seq<Addr>)
      requires NoDup(addrs)
      ensures found <==> wanted in Elems(addrs)
      ensures Lists(unwanted, Elems(addrs) - {wanted})
    {
      found, unwanted := false, [];
      for j := 0 to |addrs|
        invariant found <==> wanted in addrs[..j]
        invariant Lists(unwanted, Elems(addrs[..j]) - {wanted})
      {
        ElemsOfPrefix(addrs, j);
        if addrs[j] == wanted {
          found := true;
        } else {
          ListsSnoc(unwanted, Elems(addrs[..j]) - {wanted}, addrs[j]);
          unwanted := unwanted + [addrs[j]];
        }
      }
      assert addrs[..|addrs|] == addrs;
    }

    method RemoveAddresses(link: Handle, unwanted: seq<Addr>) returns (ok: bool)
      requires netlink.Valid() && Live(netlink.links, link) && NoDup(unwanted)
      modifies netlink`links, netlink`writes
      ensures netlink.Valid() && netlink.writes >= old(netlink.writes)
      ensures ok ==> netlink.links ==
                     WithAddrs(old(netlink.links), link.name, old(netlink.links)[link.name].addrs - Elems(unwanted))
      ensures netlink.reliable && Elems(unwanted) <= old(netlink.links)[link.name].addrs ==> ok
    {
      ghost var was, writes, left := netlink.links, netlink.writes, netlink.links[link.name].addrs;
      WithAddrsTwice(was, link.name, left, left);
      for j := 0 to |unwanted|
        invariant netlink.Valid() && netlink.writes >= writes
        invariant left == was[link.name].addrs - Elems(unwanted[..j]) && netlink.links == WithAddrs(was, link.name, left)
      {
        ElemsOfPrefix(unwanted, j);
        assert unwanted[j] in Elems(unwanted) && unwanted[j] !in Elems(unwanted[..j]);
        WithAddrsTwice(was, link.name, left, left - {unwanted[j]});
        ok := netlink.AddrDel(link, unwanted[j]);
        if !ok { return; }
        left := left - {unwanted[j]};
      }
      assert unwanted[..|unwanted|] == unwanted;
      ok := true;
    }

    // Failures to delete the old default routes are passed over.
    method DeleteDefaultRoutes(routes: seq<Route>)
      requires netlink.Valid() && Lists(routes, netlink.routes)
      modifies netlink`routes, netlink`writes
      ensures netlink.Valid() && netlink.writes >= old(netlink.writes) && netlink.routes <= old(netlink.routes)
      ensures forall r <- old(netlink.routes) | !IsDefault(r) :: r in netlink.routes
      ensures netlink.reliable ==> netlink.routes == set r | r in old(netlink.routes) && !IsDefault(r)
    {
      ghost var was, writes := netlink.routes, netlink.writes;
      forall r ensures r in was <==> r in routes { assert r in was <==> r in Elems(routes); }
      for j := 0 to |routes|
        invariant netlink.Valid() && netlink.writes >= writes && netlink.routes <= was
        invariant forall r <- was | !IsDefault(r) || r !in routes[..j] :: r in netlink.routes
        invariant netlink.reliable ==> forall r <- routes[..j] | IsDefault(r) :: r !in netlink.routes
      {
        if IsDefault(routes[j]) { var _ := netlink.RouteDel(routes[j]); }
      }
      assert routes[..|routes|] == routes;
    }

    method SetDefaultGateway(link: Handle, gateway: Gateway, metric: int) returns (ok: bool)
      requires netlink.Valid()
      modifies netlink`routes, netlink`writes
      ensures netlink.Valid() && netlink.writes >= old(netlink.writes)
      ensures gateway == NoGateway ==> ok && netlink.routes == old(netlink.routes)
      ensures gateway == BadGateway ==> !ok && netlink.routes == old(netlink.routes)
      ensures ok && netlink.reliable && gateway.Via? ==>
                netlink.routes == (set r | r in old(netlink.routes) && !IsDefault(r)) + {GatewayRoute(link.link.index, gateway.ip, metric)}
      ensures ok && gateway.Via? ==>
                Route(Default, Some(gateway.ip), link.link.index, if metric == 0 then 100 else metric, 254, 0, 0) in netlink.routes
      ensures ok && gateway.Via? ==> GatewayRoute(link.link.index, gateway.ip, metric) in netlink.routes
      ensures forall r <- old(netlink.routes) | r.dst != Default && r.dst != Net("0.0.0.0/0") :: r in netlink.routes
      ensures ok && netlink.reliable && gateway.Via? ==>
                forall r <- netlink.routes | r.dst == Default || r.dst == Net("0.0.0.0/0") ::
                  r == Route(Default, Some(gateway.ip), link.link.index, if metric == 0 then 100 else metric, 254, 0, 0)
      ensures forall r <- old(netlink.routes) | !IsDefault(r) :: r in netlink.routes
      ensures netlink.reliable && Live(netlink.links, link) ==>
                (ok <==> gateway == NoGateway || (gateway.Via? && netlink.links[link.name].up))
    {
      if gateway == NoGateway { return true; }
      if gateway == BadGateway { return false; }
      var routes: seq<Route>;
      ok, routes := netlink.RouteList();
      if !ok { return; }
      DeleteDefaultRoutes(routes);
      if Live(netlink.links, link) { UpLink(netlink.links, link.name); }
      ok := netlink.RouteAdd(GatewayRoute(link.link.index, gateway.ip, metric));
    }

    // Whether the DHCP client can be started is up to the system.
    method StartDHCPClient() returns (ok: bool)
    {
      ok := *;
    }

    method ApplyIPConfiguration(link: Handle, i: Interface) returns (ok: bool)
      requires netlink.Valid() && Live(netlink.links, link)
      modifies netlink`links, netlink`routes, netlink`writes
      ensures netlink.Valid() && netlink.writes >= old(netlink.writes)
      ensures ok ==> && i.protocol != Unknown && (i.protocol == Static ==> i.address != Malformed && i.gateway != BadGateway)
                     && netlink.links == old(netlink.links)[link.name := WithAddress(old(netlink.links)[link.name], i)]
                     && (i.protocol == Static && !Addressed(old(netlink.links)[link.name], i.address) ==> netlink.writes > old(netlink.writes))
      ensures ok && netlink.reliable ==> netlink.routes == WithGateway(old(netlink.routes), link.link.index, i)
      ensures ok && i.protocol == Static && i.gateway.Via? ==>
                GatewayRoute(link.link.index, i.gateway.ip, i.metric) in netlink.routes
      ensures netlink.reliable && i.protocol != Dhcp ==> (ok <==> Addressable(i, old(netlink.links)[link.name].up))
    {
      match i.protocol {
        case Static =>
          ok := EnsureStaticIP(link, i.address);
          if ok && i.gateway != NoGateway { ok := SetDefaultGateway(link, i.gateway, i.metric); }
        case Dhcp =>
          ok := StartDHCPClient();
        case NoProtocol =>
          ok := true;
        case Unknown =>
          ok := false;
      }
    }

    // Whether the link and its ports match, and whether that settles the matter.
    method CheckBridge(bridge: Handle, i: Interface) returns (ok: bool, matches: bool, settled: bool)
      requires netlink.Valid() && bridge.name in netlink.links && bridge.link == netlink.links[bridge.name]
      ensures netlink.reliable && NoDup(i.ports) ==>
                (ok <==> !(Matches(netlink.links, bridge.name, i) && i.protocol == Static && i.address == Malformed))
      ensures ok && NoDup(i.ports) ==>
                && (matches <==> Matches(netlink.links, bridge.name, i))
                && (settled <==> Configured(netlink.links, bridge.name, i))
      ensures settled ==> matches
    {
      settled := false;
      ok, matches := BridgeConfigMatches(bridge, i);
      if !ok || !matches { return; }
      if i.protocol == Static {
        ok, settled := CheckIPMatches(bridge, i.address);
        if !ok { settled := false; }
      } else {
        settled := true;
      }
    }

    // A bridge with another MTU is made anew; else only its ports are changed.
    method PrepareBridge(found: bool, existing: Handle, device: string, i: Interface) returns (ok: bool, bridge: Handle)
      requires netlink.Valid()
      requires found ==> device in netlink.links && existing == Handle(device, netlink.links[device])
      modifies netlink`links, netlink`routes, netlink`nextIndex, netlink`writes
      ensures netlink.Valid() && netlink.writes >= old(netlink.writes)
      ensures ok && !found ==> device !in old(netlink.links)
      ensures ok ==> && bridge.name == device && Live(netlink.links, bridge)
                     && Prepared(old(netlink.links), netlink.links, device, i)
                     && netlink.routes == RoutesLeft(old(netlink.links), old(netlink.routes), device, i)
                     && (netlink.writes == old(netlink.writes) ==> found && Matches(old(netlink.links), device, i))
      ensures netlink.reliable && (found <==> device in old(netlink.links)) ==>
                (ok <==> Preparable(old(netlink.links), device, i))
    {
      ghost var was := netlink.links;
      bridge := existing;
      var present := found;
      if present {
        if existing.link.mtu != MtuOf(i) {
          ok := netlink.LinkDel(existing);
          if !ok { return; }
          present := false;
        } else {
          ok := UpdateBridgePorts(existing, i);
          if !ok { return; }
        }
      }
      if !present {
        ok, bridge := CreateBridge(device, i);
        if !ok { return; }
        if device in was { DeleteThenKeep(was, netlink.links, device, Elems(i.ports)); }
      }
    }

    // What is left to do for a bridge that is not yet as configured.
    method Reconcile(found: bool, matches: bool, existing: Handle, device: string, i: Interface) returns (ok: bool)
      requires netlink.Valid() && (matches ==> found)
      requires found ==> device in netlink.links && existing == Handle(device, netlink.links[device])
      requires matches && NoDup(i.ports) ==> Matches(netlink.links, device, i)
      modifies netlink`links, netlink`routes, netlink`nextIndex, netlink`writes
      ensures netlink.Valid() && netlink.writes >= old(netlink.writes)
      ensures ok && !found ==> device !in old(netlink.links)
      ensures ok && NoDup(i.ports) ==>
                && Reconciled(old(netlink.links), netlink.links, device, i)
                && (i.protocol == Static ==> i.address != Malformed)
                && (netlink.writes == old(netlink.writes) ==> Configured(old(netlink.links), device, i))
      ensures ok && NoDup(i.ports) && netlink.reliable ==>
                netlink.routes == WithGateway(RoutesLeft(old(netlink.links), old(netlink.routes), device, i),
                                              netlink.links[device].index, i)
      ensures netlink.reliable && NoDup(i.ports) && i.protocol != Dhcp && (found <==> device in old(netlink.links)) ==>
                (ok <==> Preparable(old(netlink.links), device, i) &&
                         Addressable(i, UpWhenAddressed(old(netlink.links), device, i)))
    {
      ghost var was := netlink.links;
      var bridge := existing;
      if !matches {
        ok, bridge := PrepareBridge(found, existing, device, i);
        if !ok { return; }
      } else if NoDup(i.ports) {
        MatchingIsPrepared(was, device, i);
      }
      ghost var middle := netlink.links;
      ok := ApplyIPConfiguration(bridge, i);
      assert NoDup(i.ports) ==> Prepared(was, middle, device, i);
    }

    method ApplyBridgeInterface(name: string, i: Interface) returns (ok: bool)
      requires netlink.Valid()
      modifies netlink`links, netlink`routes, netlink`nextIndex, netlink`writes
      ensures netlink.Valid() && netlink.writes >= old(netlink.writes)
      ensures netlink.reliable && NoDup(i.ports) && Configured(old(netlink.links), DeviceOf(name, i), i) ==> ok
      ensures netlink.reliable && NoDup(i.ports) && i.protocol != Dhcp ==>
                var device := if i.device == "" then name else i.device;
                (ok <==> Configured(old(netlink.links), device, i) ||
                         (Preparable(old(netlink.links), device, i) &&
                          Addressable(i, UpWhenAddressed(old(netlink.links), device, i))))
      ensures ok && NoDup(i.ports) ==>
                && Applied(old(netlink.links), netlink.links, DeviceOf(name, i), i)
                && (i.protocol == Static ==> i.address != Malformed)
                && (netlink.writes == old(netlink.writes) <==> Configured(old(netlink.links), DeviceOf(name, i), i))
                && (netlink.writes == old(netlink.writes) ==> netlink.routes == old(netlink.routes))
      ensures ok && NoDup(i.ports) && netlink.reliable ==>
                RoutesAfter(old(netlink.links), old(netlink.routes), netlink.links, netlink.routes, DeviceOf(name, i), i)
      ensures ok && NoDup(i.ports) ==>
                var device := if i.device == "" then name else i.device;
                && device in netlink.links && netlink.links[device].mtu == (if i.mtu == 0 then 1500 else i.mtu)
                && (forall n <- i.ports :: n in netlink.links)
                && (forall n <- netlink.links :: netlink.links[n].master == netlink.links[device].index <==> n in i.ports)
                && (i.protocol == Static && i.address.At? ==> i.address.addr in netlink.links[device].addrs)
    {
      var device := DeviceOf(name, i);
      ghost var was := netlink.links;
      var found, bridge := netlink.LinkByName(device);
      var matches := false;
      if found {
        var checked, settled;
        checked, matches, settled := CheckBridge(bridge, i);
        if !checked || settled {
          if checked && NoDup(i.ports) { AppliedInPlainTerms(was, was, device, i); }
          return checked;
        }
        assert NoDup(i.ports) ==> !Configured(was, device, i);
      }
      ok := Reconcile(found, matches, bridge, device, i);
      if ok && NoDup(i.ports) { AppliedInPlainTerms(was, netlink.links, device, i); }
    }
  }
}
