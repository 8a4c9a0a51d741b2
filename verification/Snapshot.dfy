// What a snapshot records and what restoring it means, as functions and relations on kernel state
// (system/snapshot.go, system/snapshot_manager.go).
module Snapshot {
  import opened Basics
  import opened Kernel

  datatype IfaceSnap = IfaceSnap(name: string, kind: LinkKind, existed: bool, mtu: int, up: bool,
                                 addrs: seq<Addr>, ports: seq<string>)

  type IfaceSnaps = map<string, IfaceSnap>

  // The device is a name, "" when the route names none or its link is unknown.
  datatype RouteKey = RouteKey(dst: Destination, gw: Option<string>, device: string, metric: int, table: int)

  datatype RouteSnap = RouteSnap(key: RouteKey, scope: int)

  datatype SystemSnapshot = SystemSnapshot(forwarding: bool, interfaces: IfaceSnaps, routes: seq<RouteSnap>)

  // ----- capture -----

  ghost function PortsOf(links: Links, b: string): set<string>
    requires b in links
  {
    set n | n in links && links[n].master == links[b].index
  }

  // The ports of a bridge, found among all links by their master.
  method GetBridgePorts(netlink: Kernel, name: string) returns (ok: bool, ports: seq<string>)
    requires netlink.Valid()
    ensures ok ==> name in netlink.links && Lists(ports, PortsOf(netlink.links, name))
    ensures ok ==> forall n :: n in ports <==> n in netlink.links && netlink.links[n].master == netlink.links[name].index
    ensures netlink.reliable ==> (ok <==> name in netlink.links)
  {
    ports := [];
    var found, bridge := netlink.LinkByName(name);
    if !found { return false, ports; }
    var listed, links := netlink.LinkList();
    if !listed { return false, ports; }
    ghost var seen: set<string> := {};
    for i := 0 to |links|
      invariant seen == set j | 0 <= j < i && links[j].link.master == bridge.link.index :: links[j].name
      invariant Lists(ports, seen)
    {
      if links[i].link.master == bridge.link.index {
        ListsSnoc(ports, seen, links[i].name);
        ports, seen := ports + [links[i].name], seen + {links[i].name};
      }
    }
    forall n | n in PortsOf(netlink.links, name) ensures n in seen {
      assert Handle(n, netlink.links[n]) in links;
    }
    forall n ensures n in ports <==> n in PortsOf(netlink.links, name) { assert n in ports <==> n in Elems(ports); }
    ok := true;
  }

  ghost predicate CapturesLink(links: Links, n: string, s: IfaceSnap)
    requires n in links
  {
    && s.name == n && s.existed && s.kind == links[n].kind && s.mtu == links[n].mtu && s.up == links[n].up
    && Lists(s.addrs, links[n].addrs)
    && (if s.kind == Bridge then Lists(s.ports, PortsOf(links, n)) else s.ports == [])
  }

  ghost predicate CapturesLinks(links: Links, snaps: IfaceSnaps) {
    && snaps.Keys == links.Keys - {LOOPBACK}
    && forall n <- snaps :: CapturesLink(links, n, snaps[n])
  }

  ghost function DeviceName(links: Links, index: nat): (name: string)
    ensures name != "" ==> name in links && links[name].index == index
  {
    if index > 0 && HasIndex(links, index) then
      var n :| n in links && links[n].index == index; n
    else
      ""
  }

  ghost function Key(links: Links, r: Route): RouteKey {
    RouteKey(r.dst, r.gw, DeviceName(links, r.linkIndex), r.metric, r.table)
  }

  ghost function Keys(links: Links, routes: set<Route>): set<RouteKey> {
    set r | r in routes :: Key(links, r)
  }

  ghost function SnapKeys(snaps: seq<RouteSnap>): set<RouteKey> {
    set s | s in snaps :: s.key
  }

  ghost predicate CapturesRoutes(links: Links, routes: set<Route>, snaps: seq<RouteSnap>) {
    && (forall r <- routes :: RouteSnap(Key(links, r), r.scope) in snaps)
    && (forall s <- snaps :: exists r <- routes :: s == RouteSnap(Key(links, r), r.scope))
  }

  ghost predicate Captures(links: Links, routes: set<Route>, forwarding: bool, snap: SystemSnapshot) {
    && snap.forwarding == forwarding
    && CapturesLinks(links, snap.interfaces)
    && CapturesRoutes(links, routes, snap.routes)
  }

  // A capture, link by link.
  lemma CapturesLinkByLink(links: Links, snaps: IfaceSnaps)
    requires CapturesLinks(links, snaps)
    ensures forall n :: n in snaps <==> n in links && n != "lo"
    ensures forall n <- snaps ::
              && snaps[n].kind == links[n].kind && snaps[n].existed && snaps[n].mtu == links[n].mtu && snaps[n].up == links[n].up
              && (forall a :: a in snaps[n].addrs <==> a in links[n].addrs)
              && forall p :: p in snaps[n].ports <==> links[n].kind == Bridge && p in links && links[p].master == links[n].index
  {
    forall n | n in snaps
      ensures snaps[n].kind == links[n].kind && snaps[n].existed && snaps[n].mtu == links[n].mtu && snaps[n].up == links[n].up
      ensures forall a :: a in snaps[n].addrs <==> a in links[n].addrs
      ensures forall p :: p in snaps[n].ports <==> links[n].kind == Bridge && p in links && links[p].master == links[n].index
    {
      CapturesOne(links, n, snaps[n]);
    }
  }

  lemma CapturesOne(links: Links, n: string, s: IfaceSnap)
    requires n in links && CapturesLink(links, n, s)
    ensures forall a :: a in s.addrs <==> a in links[n].addrs
    ensures forall p :: p in s.ports <==> links[n].kind == Bridge && p in links && links[p].master == links[n].index
  {
    forall a ensures a in s.addrs <==> a in links[n].addrs { assert a in s.addrs <==> a in Elems(s.addrs); }
    forall p ensures p in s.ports <==> links[n].kind == Bridge && p in links && links[p].master == links[n].index {
      if links[n].kind == Bridge { assert p in s.ports <==> p in Elems(s.ports); }
    }
  }

  // ----- restoring links -----

  predicate Restorable(snaps: IfaceSnaps, n: string) {
    n in snaps && snaps[n].existed
  }

  predicate Survives(snaps: IfaceSnaps, n: string) {
    n == LOOPBACK || Restorable(snaps, n)
  }

  ghost predicate SurvivorIndex(links: Links, snaps: IfaceSnaps, index: nat) {
    exists b :: b in links && Survives(snaps, b) && links[b].index == index
  }

  // After every link unknown to the snapshot has been deleted.
  ghost function Survivors(links: Links, snaps: IfaceSnaps): Links {
    map n | n in links && Survives(snaps, n) ::
      if SurvivorIndex(links, snaps, links[n].master) then links[n] else links[n].(master := 0)
  }

  ghost predicate IndexOfGone(links: Links, gone: set<string>, index: nat) {
    exists b <- gone :: b in links && links[b].index == index
  }

  // After the links in `gone` have been deleted, in whatever order.
  ghost function WithoutLinks(links: Links, gone: set<string>): Links {
    map n | n in links && n !in gone ::
      if IndexOfGone(links, gone, links[n].master) then links[n].(master := 0) else links[n]
  }

  ghost function WithoutRoutes(links: Links, routes: set<Route>, gone: set<string>): set<Route> {
    set r | r in routes && !IndexOfGone(links, gone, r.linkIndex)
  }

  lemma IndexOfOneMore(links: Links, gone: set<string>, n: string, i: nat)
    requires n in links
    ensures IndexOfGone(links, gone + {n}, i) <==> IndexOfGone(links, gone, i) || i == links[n].index
  {
    if i == links[n].index { assert n in gone + {n}; }
  }

  lemma DeleteOneMore(links: Links, routes: set<Route>, gone: set<string>, n: string)
    requires ValidLinks(links) && n in links && n !in gone
    ensures n in WithoutLinks(links, gone) && WithoutLinks(links, gone)[n].index == links[n].index
    ensures AfterLinkDel(WithoutLinks(links, gone), n) == WithoutLinks(links, gone + {n})
    ensures RoutesAfterLinkDel(WithoutRoutes(links, routes, gone), links[n].index) ==
            WithoutRoutes(links, routes, gone + {n})
  {
    forall i ensures IndexOfGone(links, gone + {n}, i) <==> IndexOfGone(links, gone, i) || i == links[n].index {
      IndexOfOneMore(links, gone, n, i);
    }
    LinksWithoutOneMore(links, gone, n);
  }

  lemma LinksWithoutOneMore(links: Links, gone: set<string>, n: string)
    requires n in links && n !in gone && links[n].index > 0
    ensures AfterLinkDel(WithoutLinks(links, gone), n) == WithoutLinks(links, gone + {n})
  {
    var before, after := WithoutLinks(links, gone), WithoutLinks(links, gone + {n});
    forall m | m in after ensures AfterLinkDel(before, n)[m] == after[m] {
      IndexOfOneMore(links, gone, n, links[m].master);
    }
  }

  // The links that were created since the capture.
  function Unknown(links: Links, snaps: IfaceSnaps): set<string> {
    set n | n in links && !Survives(snaps, n)
  }

  lemma DeleteUnknown(links: Links, snaps: IfaceSnaps)
    requires ValidLinks(links)
    ensures WithoutLinks(links, Unknown(links, snaps)) == Survivors(links, snaps)
  {
    var gone := Unknown(links, snaps);
    forall n | n in links && Survives(snaps, n)
      ensures WithoutLinks(links, gone)[n] == Survivors(links, snaps)[n]
    {
      if links[n].master != 0 {
        var b :| b in links && links[b].index == links[n].master;
        assert IndexOfGone(links, gone, links[n].master) <==> b in gone;
      }
    }
  }

  ghost function WithAttributes(l: Link, s: IfaceSnap): Link {
    l.(mtu := s.mtu, up := s.up, addrs := Elems(s.addrs))
  }

  // Giving bridge b exactly the named ports, as far as they can be ports.
  ghost function MasterWithPorts(links: Links, b: string, ports: seq<string>, n: string): nat
    requires b in links && n in links
  {
    if links[b].kind == Bridge && n in ports && links[n].kind != Bridge then links[b].index
    else if links[n].master == links[b].index && n !in ports then 0
    else links[n].master
  }

  // Restoring one interface.  A deleted interface is not created again, and an empty port list is
  // left alone.
  ghost function StepLink(links: Links, s: IfaceSnap, n: string): Link
    requires s.name in links && n in links
  {
    var l := if n == s.name then WithAttributes(links[n], s) else links[n];
    if s.kind == Bridge && s.ports != [] then l.(master := MasterWithPorts(links, s.name, s.ports, n)) else l
  }

  ghost function StepLinks(links: Links, s: IfaceSnap): Links {
    if s.name in links then map n | n in links :: StepLink(links, s, n) else links
  }

  function WithAddrs(links: Links, n: string, addrs: set<Addr>): Links
    requires n in links
  {
    links[n := links[n].(addrs := addrs)]
  }

  lemma WithAddrsTwice(links: Links, n: string, a: set<Addr>, b: set<Addr>)
    requires n in links
    ensures WithAddrs(WithAddrs(links, n, a), n, b) == WithAddrs(links, n, b)
    ensures WithAddrs(links, n, links[n].addrs) == links
  {
  }

  // Ports being detached one by one.
  ghost function WithFreed(links: Links, freed: set<string>): Links {
    map n | n in links :: if n in freed then links[n].(master := 0) else links[n]
  }

  lemma FreeOneMore(links: Links, freed: set<string>, n: string)
    requires n in links
    ensures WithFreed(links, freed + {n}) == WithFreed(links, freed)[n := WithFreed(links, freed)[n].(master := 0)]
  {
  }

  // Ports being attached one by one, on top.
  ghost function WithAttached(links: Links, freed: set<string>, added: set<string>, index: nat): Links {
    map n | n in links :: if n in added then links[n].(master := index) else WithFreed(links, freed)[n]
  }

  lemma AttachOneMore(links: Links, freed: set<string>, added: set<string>, index: nat, n: string)
    requires n in links && n !in freed
    ensures WithAttached(links, freed, added + {n}, index) ==
            WithAttached(links, freed, added, index)[n := WithAttached(links, freed, added, index)[n].(master := index)]
  {
  }

  lemma AttachedKeepsIdentity(links: Links, freed: set<string>, added: set<string>, index: nat, n: string)
    ensures var l := WithAttached(links, freed, added, index);
            (n in l <==> n in links) && (n in l ==> l[n].index == links[n].index && l[n].kind == links[n].kind)
  {
  }

  predicate Attachable(links: Links, b: string, current: seq<string>, n: string) {
    n in links && b in links && links[n].kind != Bridge && links[b].kind == Bridge && n !in current
  }

  // Detaching what is not wanted and attaching what is missing sets the wanted ports.
  lemma FreedAndAttached(links: Links, b: string, current: seq<string>, ports: seq<string>, n: string)
    requires ValidLinks(links) && b in links && n in links && forall p :: p in current <==> p in PortsOf(links, b)
    ensures var freed := set p | p in current && p !in ports;
            var added := set p | p in ports && Attachable(links, b, current, p);
            WithAttached(links, freed, added, links[b].index)[n] ==
            links[n].(master := MasterWithPorts(links, b, ports, n))
  {
  }

  lemma AllFreedAndAttached(links: Links, b: string, current: seq<string>, ports: seq<string>)
    requires ValidLinks(links) && b in links && forall p :: p in current <==> p in PortsOf(links, b)
    ensures var freed := set p | p in current && p !in ports;
            var added := set p | p in ports && Attachable(links, b, current, p);
            var after := WithAttached(links, freed, added, links[b].index);
            after.Keys == links.Keys && forall n <- after :: after[n] == links[n].(master := MasterWithPorts(links, b, ports, n))
  {
    forall n | n in links
      ensures var freed := set p | p in current && p !in ports;
              var added := set p | p in ports && Attachable(links, b, current, p);
              WithAttached(links, freed, added, links[b].index)[n] == links[n].(master := MasterWithPorts(links, b, ports, n))
    {
      FreedAndAttached(links, b, current, ports, n);
    }
  }

  // One interface restored: attributes first, then ports.
  lemma StepIsAttributesThenPorts(links: Links, s: IfaceSnap, l1: Links, l2: Links)
    requires s.name in links && l1 == links[s.name := WithAttributes(links[s.name], s)]
    requires if s.kind == Bridge && s.ports != [] then
               l2.Keys == l1.Keys && forall n <- l2 :: l2[n] == l1[n].(master := MasterWithPorts(l1, s.name, s.ports, n))
             else l2 == l1
    ensures l2 == StepLinks(links, s)
  {
    forall n | n in links ensures l2[n] == StepLink(links, s, n) {
    }
  }

  // Snapshots are keyed by name, and a link is a port of at most one bridge.
  ghost predicate WellFormed(snaps: IfaceSnaps) {
    && (forall n <- snaps :: snaps[n].name == n)
    && (forall a, b, p | a in snaps && b in snaps && p in snaps[a].ports && p in snaps[b].ports ::
          a == b)
  }

  // A bridge whose port list restoring enforces.
  predicate Managed(base: Links, snaps: IfaceSnaps, b: string) {
    b in base && base[b].kind == Bridge && Restorable(snaps, b) && snaps[b].kind == Bridge && snaps[b].ports != []
  }

  predicate Claims(base: Links, snaps: IfaceSnaps, b: string, n: string) {
    Managed(base, snaps, b) && n in base && base[n].kind != Bridge && n in snaps[b].ports
  }

  ghost predicate Claimed(base: Links, snaps: IfaceSnaps, done: set<string>, n: string) {
    exists b <- done :: Claims(base, snaps, b, n)
  }

  ghost predicate Detached(base: Links, snaps: IfaceSnaps, done: set<string>, n: string)
    requires n in base
  {
    exists b <- done :: Managed(base, snaps, b) && base[b].index == base[n].master
  }

  ghost function PartialMaster(base: Links, snaps: IfaceSnaps, done: set<string>, n: string): nat
    requires n in base
  {
    if Claimed(base, snaps, done, n) then
      var b :| b in done && Claims(base, snaps, b, n); base[b].index
    else if Detached(base, snaps, done, n) then 0
    else base[n].master
  }

  ghost function PartialLink(base: Links, snaps: IfaceSnaps, done: set<string>, n: string): Link
    requires n in base
  {
    var l := if n in done && Restorable(snaps, n) then WithAttributes(base[n], snaps[n]) else base[n];
    l.(master := PartialMaster(base, snaps, done, n))
  }

  // The links once the interfaces in `done` are restored: a function of the set, not of the order.
  ghost function PartialLinks(base: Links, snaps: IfaceSnaps, done: set<string>): Links {
    map n | n in base :: PartialLink(base, snaps, done, n)
  }

  ghost function RestoredLinks(links: Links, snaps: IfaceSnaps): Links {
    PartialLinks(Survivors(links, snaps), snaps, snaps.Keys)
  }

  ghost function RestoreInOrder(base: Links, snaps: IfaceSnaps, order: seq<string>): Links
    requires forall n <- order :: n in snaps
  {
    if order == [] then base
    else
      var n := order[|order| - 1];
      var before := RestoreInOrder(base, snaps, order[..|order| - 1]);
      if snaps[n].existed then StepLinks(before, snaps[n]) else before
  }

  lemma SoleClaim(base: Links, snaps: IfaceSnaps, b: string, c: string, n: string)
    requires WellFormed(snaps) && Claims(base, snaps, b, n) && Claims(base, snaps, c, n)
    ensures b == c
  {
    assert n in snaps[b].ports && n in snaps[c].ports;
  }

  lemma MasterClaimed(base: Links, snaps: IfaceSnaps, done: set<string>, n: string, b: string)
    requires WellFormed(snaps) && b in done && Claims(base, snaps, b, n)
    ensures PartialMaster(base, snaps, done, n) == base[b].index
  {
    assert Claimed(base, snaps, done, n);
    var c :| c in done && Claims(base, snaps, c, n) && PartialMaster(base, snaps, done, n) == base[c].index;
    SoleClaim(base, snaps, b, c, n);
  }

  // The port of a managed bridge that is still unrestored was its port from the beginning.
  lemma MasterOfPending(base: Links, snaps: IfaceSnaps, done: set<string>, n: string, b: string)
    requires ValidLinks(base) && b in base && b !in done && n in base
    ensures PartialMaster(base, snaps, done, n) == base[b].index <==>
            !Claimed(base, snaps, done, n) && !Detached(base, snaps, done, n) && base[n].master == base[b].index
  {
    if Claimed(base, snaps, done, n) {
      var c :| c in done && Claims(base, snaps, c, n) && PartialMaster(base, snaps, done, n) == base[c].index;
    }
  }

  // Whose port a link is once one more interface is restored, in terms of the original links.
  ghost function NextMaster(base: Links, snaps: IfaceSnaps, done: set<string>, b: string, n: string): nat
    requires b in base && n in base && b in snaps
  {
    var m := PartialMaster(base, snaps, done, n);
    if base[b].kind == Bridge && n in snaps[b].ports && base[n].kind != Bridge then base[b].index
    else if m == base[b].index && n !in snaps[b].ports then 0
    else m
  }

  lemma NextMasterIs(base: Links, snaps: IfaceSnaps, done: set<string>, b: string, n: string)
    requires b in base && n in base && b in snaps
    ensures MasterWithPorts(PartialLinks(base, snaps, done), b, snaps[b].ports, n) == NextMaster(base, snaps, done, b, n)
  {
  }

  lemma ClaimedStep(base: Links, snaps: IfaceSnaps, done: set<string>, b: string, n: string)
    requires n in base && Managed(base, snaps, b)
    ensures Claimed(base, snaps, done + {b}, n) <==> Claimed(base, snaps, done, n) || Claims(base, snaps, b, n)
    ensures Detached(base, snaps, done + {b}, n) <==> Detached(base, snaps, done, n) || base[b].index == base[n].master
  {
  }

  lemma ManagedMasterStep(base: Links, snaps: IfaceSnaps, done: set<string>, b: string, n: string)
    requires ValidLinks(base) && WellFormed(snaps) && b !in done && Managed(base, snaps, b) && n in base
    ensures PartialMaster(base, snaps, done + {b}, n) == NextMaster(base, snaps, done, b, n)
  {
    ClaimedStep(base, snaps, done, b, n);
    if Claims(base, snaps, b, n) {
      MasterClaimed(base, snaps, done + {b}, n, b);
    } else {
      MasterOfPending(base, snaps, done, n, b);
      if Claimed(base, snaps, done, n) {
        var c :| c in done && Claims(base, snaps, c, n);
        MasterClaimed(base, snaps, done, n, c);
        MasterClaimed(base, snaps, done + {b}, n, c);
      }
    }
  }

  lemma MasterStep(base: Links, snaps: IfaceSnaps, done: set<string>, b: string, n: string)
    requires ValidLinks(base) && WellFormed(snaps) && b !in done && Restorable(snaps, b) && b in base && n in base
    ensures PartialMaster(base, snaps, done + {b}, n) ==
            if snaps[b].kind == Bridge && snaps[b].ports != [] then NextMaster(base, snaps, done, b, n)
            else PartialMaster(base, snaps, done, n)
  {
    if Managed(base, snaps, b) {
      ManagedMasterStep(base, snaps, done, b, n);
    } else {
      MasterUnaffected(base, snaps, done, b, n);
      if base[b].kind != Bridge { NoPortsUnlessBridge(base, snaps, done, b, n); }
    }
  }

  lemma AttributesStep(base: Links, snaps: IfaceSnaps, done: set<string>, b: string, n: string)
    requires b !in done && Restorable(snaps, b) && n in base
    ensures PartialLink(base, snaps, done + {b}, n) ==
            (if n == b then WithAttributes(PartialLink(base, snaps, done, n), snaps[b])
             else PartialLink(base, snaps, done, n)).(master := PartialMaster(base, snaps, done + {b}, n))
  {
  }

  // Restoring one more interface acts on every link as adding it to the restored set does.
  lemma LinkStep(base: Links, snaps: IfaceSnaps, done: set<string>, b: string, n: string)
    requires ValidLinks(base) && WellFormed(snaps) && b !in done && Restorable(snaps, b) && b in base && n in base
    ensures PartialLink(base, snaps, done + {b}, n) == StepLink(PartialLinks(base, snaps, done), snaps[b], n)
  {
    AttributesStep(base, snaps, done, b, n);
    MasterStep(base, snaps, done, b, n);
    NextMasterIs(base, snaps, done, b, n);
  }

  // A link that is not a bridge has no ports to lose.
  lemma NoPortsUnlessBridge(base: Links, snaps: IfaceSnaps, done: set<string>, b: string, n: string)
    requires ValidLinks(base) && b in base && n in base && base[b].kind != Bridge
    ensures PartialMaster(base, snaps, done, n) != base[b].index
  {
    if Claimed(base, snaps, done, n) {
      var c :| c in done && Claims(base, snaps, c, n) && PartialMaster(base, snaps, done, n) == base[c].index;
    }
  }

  lemma MasterUnaffected(base: Links, snaps: IfaceSnaps, done: set<string>, b: string, n: string)
    requires WellFormed(snaps) && n in base && !Managed(base, snaps, b)
    ensures PartialMaster(base, snaps, done + {b}, n) == PartialMaster(base, snaps, done, n)
  {
    assert Claimed(base, snaps, done + {b}, n) <==> Claimed(base, snaps, done, n);
    assert Detached(base, snaps, done + {b}, n) <==> Detached(base, snaps, done, n);
    if Claimed(base, snaps, done, n) {
      var c :| c in done && Claims(base, snaps, c, n);
      MasterClaimed(base, snaps, done, n, c);
      MasterClaimed(base, snaps, done + {b}, n, c);
    }
  }

  lemma LinkSkip(base: Links, snaps: IfaceSnaps, done: set<string>, b: string, n: string)
    requires WellFormed(snaps) && n in base && (!Restorable(snaps, b) || b !in base)
    ensures PartialLink(base, snaps, done + {b}, n) == PartialLink(base, snaps, done, n)
  {
    MasterUnaffected(base, snaps, done, b, n);
  }

  // Restoring one more interface extends the set of restored interfaces by exactly that one.
  lemma PartialStep(base: Links, snaps: IfaceSnaps, done: set<string>, b: string)
    requires ValidLinks(base) && WellFormed(snaps) && b in snaps && b !in done
    ensures PartialLinks(base, snaps, done + {b}) ==
            if snaps[b].existed then StepLinks(PartialLinks(base, snaps, done), snaps[b])
            else PartialLinks(base, snaps, done)
  {
    if snaps[b].existed && b in base {
      StepsTogether(base, snaps, done, b);
    } else {
      forall n | n in base ensures PartialLink(base, snaps, done + {b}, n) == PartialLink(base, snaps, done, n) {
        LinkSkip(base, snaps, done, b, n);
      }
    }
  }

  lemma StepsTogether(base: Links, snaps: IfaceSnaps, done: set<string>, b: string)
    requires ValidLinks(base) && WellFormed(snaps) && b !in done && Restorable(snaps, b) && b in base
    ensures PartialLinks(base, snaps, done + {b}) == StepLinks(PartialLinks(base, snaps, done), snaps[b])
  {
    forall n | n in base
      ensures PartialLink(base, snaps, done + {b}, n) == StepLink(PartialLinks(base, snaps, done), snaps[b], n)
    {
      LinkStep(base, snaps, done, b, n);
    }
  }

  lemma PartialNone(base: Links, snaps: IfaceSnaps)
    ensures PartialLinks(base, snaps, {}) == base
  {
  }

  // Whatever order the interfaces are visited in, restoring them all gives the same links, also
  // when ports moved from bridge to bridge.
  lemma {:induction false} RestoreIsOrderIndependent(base: Links, snaps: IfaceSnaps, order: seq<string>)
    requires ValidLinks(base) && WellFormed(snaps) && NoDup(order) && forall n <- order :: n in snaps
    ensures RestoreInOrder(base, snaps, order) == PartialLinks(base, snaps, Elems(order))
  {
    if order == [] {
      PartialNone(base, snaps);
      assert Elems(order) == {};
    } else {
      var front, n := order[..|order| - 1], order[|order| - 1];
      RestoreIsOrderIndependent(base, snaps, front);
      assert Elems(order) == Elems(front) + {n};
      PartialStep(base, snaps, Elems(front), n);
    }
  }

  // ----- what restoring links guarantees -----

  lemma RestoredAttributes(links: Links, snaps: IfaceSnaps, n: string)
    ensures n in RestoredLinks(links, snaps) <==> n in links && Survives(snaps, n)
    ensures n in RestoredLinks(links, snaps) ==>
              var l := RestoredLinks(links, snaps)[n];
              && l.index == links[n].index && l.kind == links[n].kind
              && (if Restorable(snaps, n) then l.mtu == snaps[n].mtu && l.up == snaps[n].up && l.addrs == Elems(snaps[n].addrs)
                  else l.mtu == links[n].mtu && l.up == links[n].up && l.addrs == links[n].addrs)
  {
  }

  lemma SurvivorsValid(links: Links, snaps: IfaceSnaps)
    requires ValidLinks(links)
    ensures ValidLinks(Survivors(links, snaps))
  {
    var s := Survivors(links, snaps);
    forall n | n in s && s[n].master != 0 ensures IsBridgeIndex(s, s[n].master) {
      var b :| b in links && Survives(snaps, b) && links[b].index == links[n].master;
      var c :| c in links && links[c].index == links[n].master && links[c].kind == Bridge;
      assert b in s && b == c;
    }
  }

  lemma PortsOfPartial(base: Links, snaps: IfaceSnaps, done: set<string>, b: string)
    requires b in base
    ensures PortsOf(PartialLinks(base, snaps, done), b) == set n | n in base && PartialMaster(base, snaps, done, n) == base[b].index
  {
  }

  // A surviving bridge with a non-empty port list ends with exactly the listed ports that are
  // still there, wherever they were before.
  lemma RestoredPorts(links: Links, snaps: IfaceSnaps, b: string)
    requires ValidLinks(links) && WellFormed(snaps) && Managed(Survivors(links, snaps), snaps, b)
    ensures PortsOf(RestoredLinks(links, snaps), b) ==
            set n | n in snaps[b].ports && n in links && Survives(snaps, n) && links[n].kind != Bridge
  {
    SurvivorsValid(links, snaps);
    RestoredPortsOf(Survivors(links, snaps), snaps, b);
  }

  lemma RestoredPortsOf(base: Links, snaps: IfaceSnaps, b: string)
    requires ValidLinks(base) && WellFormed(snaps) && Managed(base, snaps, b)
    ensures PortsOf(PartialLinks(base, snaps, snaps.Keys), b) ==
            set n | n in snaps[b].ports && n in base && base[n].kind != Bridge
  {
    PortsOfPartial(base, snaps, snaps.Keys, b);
    forall n | n in base
      ensures PartialMaster(base, snaps, snaps.Keys, n) == base[b].index <==> Claims(base, snaps, b, n)
    {
      MasterAfterAll(base, snaps, b, n);
    }
  }

  lemma MasterAfterAll(base: Links, snaps: IfaceSnaps, b: string, n: string)
    requires ValidLinks(base) && WellFormed(snaps) && Managed(base, snaps, b) && n in base
    ensures PartialMaster(base, snaps, snaps.Keys, n) == base[b].index <==> Claims(base, snaps, b, n)
  {
    if Claims(base, snaps, b, n) {
      MasterClaimed(base, snaps, snaps.Keys, n, b);
    } else if Claimed(base, snaps, snaps.Keys, n) {
      var c :| c in snaps.Keys && Claims(base, snaps, c, n);
      MasterClaimed(base, snaps, snaps.Keys, n, c);
    }
  }

  lemma PortOfPortless(base: Links, snaps: IfaceSnaps, b: string, p: string)
    requires ValidLinks(base) && WellFormed(snaps) && b in base && p in base && !Managed(base, snaps, b)
    ensures PartialMaster(base, snaps, snaps.Keys, p) == base[b].index <==>
            base[p].master == base[b].index && !Claimed(base, snaps, snaps.Keys, p)
  {
    if Claimed(base, snaps, snaps.Keys, p) {
      var c :| c in snaps.Keys && Claims(base, snaps, c, p);
      MasterClaimed(base, snaps, snaps.Keys, p, c);
    } else if Detached(base, snaps, snaps.Keys, p) {
      var c :| c in snaps.Keys && Managed(base, snaps, c) && base[c].index == base[p].master;
    }
  }

  lemma SurvivorKeepsMaster(links: Links, snaps: IfaceSnaps, b: string, p: string)
    requires ValidLinks(links) && b in links && Survives(snaps, b) && p in links && Survives(snaps, p)
    ensures Survivors(links, snaps)[p].master == links[b].index <==> links[p].master == links[b].index
  {
    assert SurvivorIndex(links, snaps, links[b].index);
  }

  lemma PortOfPortlessAfter(links: Links, snaps: IfaceSnaps, b: string, p: string)
    requires ValidLinks(links) && WellFormed(snaps) && b in links && Survives(snaps, b)
    requires b in snaps ==> snaps[b].ports == []
    ensures b in RestoredLinks(links, snaps)
    ensures p in PortsOf(RestoredLinks(links, snaps), b) <==>
            p in PortsOf(links, b) && Survives(snaps, p) && !Claimed(Survivors(links, snaps), snaps, snaps.Keys, p)
  {
    var base := Survivors(links, snaps);
    SurvivorsValid(links, snaps);
    PortsOfPartial(base, snaps, snaps.Keys, b);
    if p in base {
      PortOfPortless(base, snaps, b, p);
      SurvivorKeepsMaster(links, snaps, b, p);
    }
  }

  // Restoring, link by link: which links are left, what they look like, and whose ports they are.
  lemma RestoredLinkByLink(links: Links, snaps: IfaceSnaps)
    requires ValidLinks(links) && WellFormed(snaps)
    ensures var r := RestoredLinks(links, snaps);
            && (forall n :: n in r <==> n in links && (n == "lo" || (n in snaps && snaps[n].existed)))
            && (forall n <- r :: r[n].index == links[n].index && r[n].kind == links[n].kind)
            && (forall n <- r | n in snaps && snaps[n].existed ::
                  && r[n].mtu == snaps[n].mtu && r[n].up == snaps[n].up
                  && forall a :: a in r[n].addrs <==> a in snaps[n].addrs)
            && (forall n <- r | n !in snaps || !snaps[n].existed :: r[n].mtu == links[n].mtu && r[n].up == links[n].up && r[n].addrs == links[n].addrs)
            && (forall b, n | b in r && n in r && r[b].kind == Bridge && b in snaps && snaps[b].existed
                              && snaps[b].kind == Bridge && snaps[b].ports != [] ::
                  r[n].master == r[b].index <==> n in snaps[b].ports && r[n].kind != Bridge)
  {
    forall n { RestoredLink(links, snaps, n); }
    forall b, n | b in links && n in links { RestoredPort(links, snaps, b, n); }
  }

  lemma RestoredLink(links: Links, snaps: IfaceSnaps, n: string)
    ensures var r := RestoredLinks(links, snaps);
            && (n in r <==> n in links && (n == "lo" || (n in snaps && snaps[n].existed)))
            && (n in r ==> r[n].index == links[n].index && r[n].kind == links[n].kind)
            && (n in r && n in snaps && snaps[n].existed ==>
                  && r[n].mtu == snaps[n].mtu && r[n].up == snaps[n].up
                  && forall a :: a in r[n].addrs <==> a in snaps[n].addrs)
            && (n in r && (n !in snaps || !snaps[n].existed) ==>
                  r[n].mtu == links[n].mtu && r[n].up == links[n].up && r[n].addrs == links[n].addrs)
  {
    RestoredAttributes(links, snaps, n);
    if n in RestoredLinks(links, snaps) && n in snaps && snaps[n].existed {
      assert RestoredLinks(links, snaps)[n].addrs == Elems(snaps[n].addrs);
    }
  }

  lemma RestoredPort(links: Links, snaps: IfaceSnaps, b: string, n: string)
    requires ValidLinks(links) && WellFormed(snaps)
    ensures var r := RestoredLinks(links, snaps);
            b in r && n in r && r[b].kind == Bridge && b in snaps && snaps[b].existed && snaps[b].kind == Bridge && snaps[b].ports != [] ==>
              (r[n].master == r[b].index <==> n in snaps[b].ports && r[n].kind != Bridge)
  {
    var r := RestoredLinks(links, snaps);
    RestoredLink(links, snaps, b);
    RestoredLink(links, snaps, n);
    if b in r && n in r && r[b].kind == Bridge && b in snaps && snaps[b].existed && snaps[b].kind == Bridge && snaps[b].ports != [] {
      RestoredPorts(links, snaps, b);
      assert n in PortsOf(r, b) <==> r[n].master == r[b].index;
    }
  }

  // A bridge captured without ports is left alone: it ends without ports again if and only if
  // every port it has gained is claimed by another bridge of the snapshot.
  lemma PortlessBridgeRestored(links: Links, snaps: IfaceSnaps, b: string)
    requires ValidLinks(links) && WellFormed(snaps) && b in links && Survives(snaps, b)
    requires b in snaps ==> snaps[b].ports == []
    ensures b in RestoredLinks(links, snaps)
    ensures PortsOf(RestoredLinks(links, snaps), b) == {} <==>
            forall p | p in PortsOf(links, b) && Survives(snaps, p) ::
              Claimed(Survivors(links, snaps), snaps, snaps.Keys, p)
  {
    PortOfPortlessAfter(links, snaps, b, b);
    var after := PortsOf(RestoredLinks(links, snaps), b);
    forall p ensures p in after <==>
                     p in PortsOf(links, b) && Survives(snaps, p) && !Claimed(Survivors(links, snaps), snaps, snaps.Keys, p)
    {
      PortOfPortlessAfter(links, snaps, b, p);
    }
    if after != {} {
      var p :| p in after;
    }
  }

  lemma CapturedIsWellFormed(links: Links, snaps: IfaceSnaps)
    requires ValidLinks(links) && CapturesLinks(links, snaps)
    ensures WellFormed(snaps)
  {
    forall a, b, p | a in snaps && b in snaps && p in snaps[a].ports && p in snaps[b].ports ensures a == b {
      assert CapturesLink(links, a, snaps[a]) && CapturesLink(links, b, snaps[b]);
      assert p in PortsOf(links, a) && p in PortsOf(links, b) by {
        assert p in Elems(snaps[a].ports) && p in Elems(snaps[b].ports);
      }
    }
  }

  lemma CapturedSurvive(links: Links, snaps: IfaceSnaps)
    requires ValidLinks(links) && CapturesLinks(links, snaps)
    ensures Survivors(links, snaps) == links
  {
    forall n | n in links ensures Survives(snaps, n) {
      assert n != LOOPBACK ==> CapturesLink(links, n, snaps[n]);
    }
    forall n | n in links && links[n].master != 0 ensures SurvivorIndex(links, snaps, links[n].master) {
      assert IsBridgeIndex(links, links[n].master);
      var b :| b in links && links[b].index == links[n].master && links[b].kind == Bridge;
      assert Survives(snaps, b);
    }
    forall n | n in links ensures Survivors(links, snaps)[n] == links[n] {}
  }

  // Rolling back straight after capture changes nothing.
  lemma RestoreAfterCaptureIsIdentity(links: Links, snaps: IfaceSnaps)
    requires ValidLinks(links) && CapturesLinks(links, snaps)
    ensures RestoredLinks(links, snaps) == links
  {
    CapturedIsWellFormed(links, snaps);
    CapturedSurvive(links, snaps);
    forall n | n in links ensures PartialLink(links, snaps, snaps.Keys, n) == links[n] {
      MasterUnchanged(links, snaps, n);
      if n in snaps { assert CapturesLink(links, n, snaps[n]); }
    }
  }

  lemma DetachedIsClaimed(links: Links, snaps: IfaceSnaps, n: string)
    requires ValidLinks(links) && CapturesLinks(links, snaps) && n in links && Detached(links, snaps, snaps.Keys, n)
    ensures Claimed(links, snaps, snaps.Keys, n)
  {
    var b :| b in snaps.Keys && Managed(links, snaps, b) && links[b].index == links[n].master;
    assert CapturesLink(links, b, snaps[b]) && n in PortsOf(links, b) && n in Elems(snaps[b].ports);
    assert Claims(links, snaps, b, n);
  }

  lemma MasterUnchanged(links: Links, snaps: IfaceSnaps, n: string)
    requires ValidLinks(links) && CapturesLinks(links, snaps) && WellFormed(snaps) && n in links
    ensures PartialMaster(links, snaps, snaps.Keys, n) == links[n].master
  {
    if Detached(links, snaps, snaps.Keys, n) { DetachedIsClaimed(links, snaps, n); }
    if Claimed(links, snaps, snaps.Keys, n) {
      var b :| b in snaps.Keys && Claims(links, snaps, b, n);
      MasterClaimed(links, snaps, snaps.Keys, n, b);
      assert CapturesLink(links, b, snaps[b]) && n in Elems(snaps[b].ports);
    }
  }

  // Links given back what a capture of `before` recorded: nothing new is left, and everything that
  // is left has its old attributes.
  ghost predicate RolledBackTo(before: Links, after: Links) {
    forall n | n in after && n != LOOPBACK ::
      && n in before
      && after[n].mtu == before[n].mtu && after[n].up == before[n].up && after[n].addrs == before[n].addrs
  }

  // A bridge that had ports has those ports again, as far as they are still there.
  ghost predicate PortsRolledBack(before: Links, after: Links) {
    forall b | b in before && b in after && b != LOOPBACK && before[b].kind == Bridge == after[b].kind ::
      PortsOf(before, b) != {} ==> PortsOf(after, b) == PortsLeft(before, after, b)
  }

  ghost function PortsLeft(before: Links, after: Links, b: string): set<string>
    requires b in before
  {
    set p | p in PortsOf(before, b) && p in after && after[p].kind != Bridge
  }

  // Whatever happened to the links since the capture, restoring brings the captured state back.
  lemma RestoreUndoesAnything(before: Links, snaps: IfaceSnaps, now: Links)
    requires ValidLinks(before) && CapturesLinks(before, snaps) && ValidLinks(now)
    ensures RolledBackTo(before, RestoredLinks(now, snaps))
    ensures PortsRolledBack(before, RestoredLinks(now, snaps))
    ensures forall n | n in before && n in now :: n in RestoredLinks(now, snaps)
  {
    var r := RestoredLinks(now, snaps);
    forall n | n in r && n != LOOPBACK
      ensures n in before && r[n].mtu == before[n].mtu && r[n].up == before[n].up && r[n].addrs == before[n].addrs
    {
      RestoredAttributes(now, snaps, n);
      assert CapturesLink(before, n, snaps[n]);
    }
    forall b | b in before && b in r && b != LOOPBACK && before[b].kind == Bridge == r[b].kind && PortsOf(before, b) != {}
      ensures PortsOf(r, b) == PortsLeft(before, r, b)
    {
      PortsComeBack(before, snaps, now, b);
    }
    forall n | n in before && n in now ensures n in r {
      RestoredAttributes(now, snaps, n);
      assert n != LOOPBACK ==> CapturesLink(before, n, snaps[n]);
    }
  }

  lemma PortsComeBack(before: Links, snaps: IfaceSnaps, now: Links, b: string)
    requires ValidLinks(before) && CapturesLinks(before, snaps) && ValidLinks(now)
    requires b in before && b in RestoredLinks(now, snaps) && b != LOOPBACK && PortsOf(before, b) != {}
    requires before[b].kind == Bridge == RestoredLinks(now, snaps)[b].kind
    ensures PortsOf(RestoredLinks(now, snaps), b) == PortsLeft(before, RestoredLinks(now, snaps), b)
  {
    var r := RestoredLinks(now, snaps);
    CapturedIsWellFormed(before, snaps);
    RestoredAttributes(now, snaps, b);
    assert CapturesLink(before, b, snaps[b]);
    assert Elems(snaps[b].ports) == PortsOf(before, b);
    RestoredPorts(now, snaps, b);
    forall p | p in snaps[b].ports
      ensures p in r && r[p].kind != Bridge <==> p in now && Survives(snaps, p) && now[p].kind != Bridge
    {
      RestoredAttributes(now, snaps, p);
    }
    forall p ensures p in snaps[b].ports <==> p in PortsOf(before, b) {
      assert p in Elems(snaps[b].ports) <==> p in snaps[b].ports;
    }
  }

  lemma MasterIsValid(base: Links, snaps: IfaceSnaps, n: string)
    requires ValidLinks(base) && n in base
    ensures var m := PartialMaster(base, snaps, snaps.Keys, n);
            m != 0 ==> base[n].kind != Bridge && IsBridgeIndex(base, m)
  {
    if Claimed(base, snaps, snaps.Keys, n) {
      var b :| b in snaps.Keys && Claims(base, snaps, b, n) && PartialMaster(base, snaps, snaps.Keys, n) == base[b].index;
      assert base[b].kind == Bridge;
    }
  }

  lemma ValidAsBefore(base: Links, r: Links)
    requires ValidLinks(base) && r.Keys == base.Keys
    requires forall n <- base :: r[n].index == base[n].index && r[n].kind == base[n].kind
    requires forall n <- base :: r[n].master != 0 ==> base[n].kind != Bridge && IsBridgeIndex(base, r[n].master)
    ensures ValidLinks(r)
  {
    forall n | n in r && r[n].master != 0 ensures IsBridgeIndex(r, r[n].master) {
      var b :| b in base && base[b].index == r[n].master && base[b].kind == Bridge;
      assert b in r;
    }
  }

  lemma RestoredValid(links: Links, snaps: IfaceSnaps)
    requires ValidLinks(links)
    ensures ValidLinks(RestoredLinks(links, snaps))
  {
    var base := Survivors(links, snaps);
    SurvivorsValid(links, snaps);
    forall n | n in base
      ensures var m := PartialMaster(base, snaps, snaps.Keys, n); m != 0 ==> base[n].kind != Bridge && IsBridgeIndex(base, m)
    {
      MasterIsValid(base, snaps, n);
    }
    ValidAsBefore(base, RestoredLinks(links, snaps));
  }
}
