// Capturing and restoring system state through netlink requests (system/snapshot_manager.go).
module SnapshotManager {
  import opened Basics
  import opened Kernel
  import opened Snapshot
  import opened RouteRestore

  class SnapshotManager {
    const netlink: Kernel

    constructor (netlink: Kernel)
      ensures this.netlink == netlink
    {
      this.netlink := netlink;
    }

    // ----- capture -----

    method CaptureInterfaceState(h: Handle) returns (ok: bool, s: IfaceSnap)
      requires netlink.Valid() && h.name in netlink.links && h.link == netlink.links[h.name]
      ensures ok ==> s.name == h.name
      ensures netlink.reliable ==> ok && CapturesLink(netlink.links, h.name, s)
      ensures netlink.reliable ==>
                && s.kind == h.link.kind && s.mtu == h.link.mtu && s.up == h.link.up && s.existed
                && (forall a :: a in s.addrs <==> a in h.link.addrs)
                && (forall n :: n in s.ports <==>
                      h.link.kind == Bridge && n in netlink.links && netlink.links[n].master == h.link.index)
    {
      s := IfaceSnap(h.name, h.link.kind, true, h.link.mtu, h.link.up, [], []);
      var listed, addrs := netlink.AddrList(h);
      if !listed { return false, s; }
      s := s.(addrs := addrs);
      forall a ensures a in addrs <==> a in h.link.addrs { assert a in addrs <==> a in Elems(addrs); }
      if h.link.kind == Bridge {
        var known, ports := GetBridgePorts(netlink, h.name);
        if known { s := s.(ports := ports); }
      }
      ok := true;
    }

    // An interface whose state cannot be read is left out of the snapshot.
    method CaptureSystemSnapshot() returns (ok: bool, snap: SystemSnapshot)
      requires netlink.Valid()
      ensures netlink.reliable ==>
                ok && Captures(netlink.links, netlink.routes, netlink.forwarding, snap)
      ensures netlink.reliable ==>
                && snap.forwarding == netlink.forwarding
                && (forall n :: n in snap.interfaces <==> n in netlink.links && n != "lo")
                && (forall n <- snap.interfaces ::
                      && snap.interfaces[n].kind == netlink.links[n].kind && snap.interfaces[n].existed
                      && snap.interfaces[n].mtu == netlink.links[n].mtu && snap.interfaces[n].up == netlink.links[n].up
                      && (forall a :: a in snap.interfaces[n].addrs <==> a in netlink.links[n].addrs)
                      && forall p :: p in snap.interfaces[n].ports <==>
                                     netlink.links[n].kind == Bridge && p in netlink.links && netlink.links[p].master == netlink.links[n].index)
      ensures netlink.reliable ==>
                && (forall r <- netlink.routes :: RouteSnap(Key(netlink.links, r), r.scope) in snap.routes)
                && (forall s <- snap.routes :: exists r <- netlink.routes :: s == RouteSnap(Key(netlink.links, r), r.scope))
    {
      ok, snap := ReadSystem();
      if netlink.reliable { CapturesLinkByLink(netlink.links, snap.interfaces); }
    }

    method ReadSystem() returns (ok: bool, snap: SystemSnapshot)
      requires netlink.Valid()
      ensures netlink.reliable ==> ok && Captures(netlink.links, netlink.routes, netlink.forwarding, snap)
    {
      snap := SystemSnapshot(netlink.forwarding, map[], []);
      var listed, links := netlink.LinkList();
      if !listed { return false, snap; }
      var interfaces := CaptureInterfaces(links);
      var routed, routes := CaptureRoutes();
      if !routed { return false, snap; }
      snap := SystemSnapshot(netlink.forwarding, interfaces, routes);
      ok := true;
    }

    method CaptureInterfaces(links: seq<Handle>) returns (interfaces: IfaceSnaps)
      requires netlink.Valid() && IsListing(links, netlink.links)
      ensures netlink.reliable ==> CapturesLinks(netlink.links, interfaces)
    {
      interfaces := map[];
      ghost var seen: set<string> := {};
      for i := 0 to |links|
        invariant seen == set j | 0 <= j < i :: links[j].name
        invariant netlink.reliable ==> interfaces.Keys == seen - {LOOPBACK}
        invariant netlink.reliable ==> forall n <- interfaces :: n in netlink.links && CapturesLink(netlink.links, n, interfaces[n])
      {
        if links[i].name != LOOPBACK {
          var captured, s := CaptureInterfaceState(links[i]);
          if captured { interfaces := interfaces[links[i].name := s]; }
        }
        seen := seen + {links[i].name};
      }
      forall n | n in netlink.links ensures n in seen { assert Handle(n, netlink.links[n]) in links; }
    }

    method CaptureRoutes() returns (ok: bool, snaps: seq<RouteSnap>)
      requires netlink.Valid()
      ensures netlink.reliable ==> ok && CapturesRoutes(netlink.links, netlink.routes, snaps)
    {
      snaps := [];
      var routed, routes := netlink.RouteList();
      if !routed { return false, snaps; }
      for i := 0 to |routes|
        invariant |snaps| == i
        invariant netlink.reliable ==> forall j | 0 <= j < i :: snaps[j] == RouteSnap(Key(netlink.links, routes[j]), routes[j].scope)
      {
        var device := RouteDevice(routes[i]);
        var r := routes[i];
        snaps := snaps + [RouteSnap(RouteKey(r.dst, r.gw, device, r.metric, r.table), r.scope)];
      }
      ok := true;
      if netlink.reliable {
        forall r | r in netlink.routes ensures RouteSnap(Key(netlink.links, r), r.scope) in snaps {
          assert r in Elems(routes);
        }
        forall s | s in snaps ensures exists r <- netlink.routes :: s == RouteSnap(Key(netlink.links, r), r.scope) {
          var j :| 0 <= j < |snaps| && snaps[j] == s;
          assert routes[j] in Elems(routes);
        }
      }
    }

    method RouteDevice(r: Route) returns (device: string)
      requires netlink.Valid()
      ensures netlink.reliable ==> device == DeviceName(netlink.links, r.linkIndex)
    {
      device := "";
      if r.linkIndex > 0 {
        var found, link := netlink.LinkByIndex(r.linkIndex);
        if found {
          device := link.name;
          DeviceNameIs(netlink.links, device);
        }
      }
    }

    // ----- routes -----

    method SnapshotRoutesMatch(r: Route, s: RouteSnap) returns (same: bool)
      requires netlink.Valid()
      ensures netlink.reliable ==> same == (Key(netlink.links, r) == s.key)
      ensures netlink.reliable && same ==>
                && s.key.dst == r.dst && s.key.gw == r.gw && s.key.metric == r.metric && s.key.table == r.table
                && (if s.key.device == "" then forall n <- netlink.links :: netlink.links[n].index != r.linkIndex
                    else s.key.device in netlink.links && netlink.links[s.key.device].index == r.linkIndex)
    {
      KeyOfRecord(netlink.links, r, s);
      if r.dst != s.key.dst || r.gw != s.key.gw { return false; }
      var device := RouteDevice(r);
      if device != s.key.device { return false; }
      same := r.metric == s.key.metric && r.table == s.key.table;
    }

    method SnapshotRouteExists(r: Route, snaps: seq<RouteSnap>) returns (found: bool)
      requires netlink.Valid()
      ensures netlink.reliable ==> found == Recorded(netlink.links, snaps, r)
    {
      for i := 0 to |snaps|
        invariant netlink.reliable ==> forall j | 0 <= j < i :: Key(netlink.links, r) != snaps[j].key
      {
        found := SnapshotRoutesMatch(r, snaps[i]);
        if found {
          assert netlink.reliable ==> snaps[i].key in SnapKeys(snaps);
          return true;
        }
      }
      found := false;
    }

    method SnapshotRouteInCurrent(s: RouteSnap, routes: seq<Route>) returns (found: bool)
      requires netlink.Valid()
      ensures netlink.reliable ==> found == (s.key in Keys(netlink.links, Elems(routes)))
    {
      for i := 0 to |routes|
        invariant netlink.reliable ==> forall j | 0 <= j < i :: Key(netlink.links, routes[j]) != s.key
      {
        found := SnapshotRoutesMatch(routes[i], s);
        if found {
          assert routes[i] in Elems(routes);
          return true;
        }
      }
      found := false;
    }

    // Kernel and link-scope routes stay; any other route through a link stays exactly if it is recorded;
    // and what comes is a record turned back into a route.
    method RollbackRoutes(snaps: seq<RouteSnap>) returns (ok: bool)
      requires netlink.Valid()
      modifies netlink`routes, netlink`writes
      ensures netlink.Valid()
      ensures netlink.reliable ==> ok && RoutesRolledBack(netlink.links, old(netlink.routes), snaps, snaps, netlink.routes)
      ensures netlink.reliable ==> forall r <- old(netlink.routes) | r.protocol == 2 || r.scope == 253 :: r in netlink.routes
      ensures netlink.reliable ==>
                forall r <- old(netlink.routes) | r.protocol != 2 && r.scope != 253 && r.linkIndex != 0 ::
                  r in netlink.routes <==> exists s <- snaps ::
                    && s.key.dst == r.dst && s.key.gw == r.gw && s.key.metric == r.metric && s.key.table == r.table
                    && (if s.key.device == "" then forall n <- netlink.links :: netlink.links[n].index != r.linkIndex
                        else s.key.device in netlink.links && netlink.links[s.key.device].index == r.linkIndex)
      ensures netlink.reliable ==>
                forall r <- netlink.routes | r !in old(netlink.routes) :: exists s <- snaps ::
                  r == Route(s.key.dst, s.key.gw, if s.key.device in netlink.links then netlink.links[s.key.device].index else 0,
                             s.key.metric, s.key.table, s.scope, 0)
    {
      ghost var was := netlink.routes;
      ok := RestoreRoutes(snaps);
      if netlink.reliable { RolledBackRouteByRoute(netlink.links, was, snaps, netlink.routes); }
    }

    method RestoreRoutes(snaps: seq<RouteSnap>) returns (ok: bool)
      requires netlink.Valid()
      modifies netlink`routes, netlink`writes
      ensures netlink.Valid()
      ensures netlink.reliable ==> ok && RoutesRolledBack(netlink.links, old(netlink.routes), snaps, snaps, netlink.routes)
    {
      var listed, current := netlink.RouteList();
      if !listed { return false; }
      ghost var was := netlink.routes;
      ghost var kept := Kept(netlink.links, was, snaps);
      for i := 0 to |current|
        invariant netlink.Valid()
        invariant netlink.reliable ==> netlink.routes == set r | r in was && (r in current[i..] || r in kept)
      {
        var r := current[i];
        assert r in Elems(current) && r !in current[i + 1..];
        if !(r.protocol == RTPROT_KERNEL || r.scope == SCOPE_LINK) {
          var recorded := SnapshotRouteExists(r, snaps);
          if !recorded { var _ := netlink.RouteDel(r); }
        }
      }
      assert netlink.reliable ==> netlink.routes == kept;
      for i := 0 to |snaps|
        invariant netlink.Valid()
        invariant netlink.reliable ==> RoutesRolledBack(netlink.links, was, snaps[..i], snaps, netlink.routes)
      {
        var s := snaps[i];
        ghost var before := netlink.routes;
        var present := SnapshotRouteInCurrent(s, current);
        if !present {
          var index := 0;
          if s.key.device != "" {
            var found, link := netlink.LinkByName(s.key.device);
            if found { index := link.link.index; }
          }
          var _ := netlink.RouteAdd(Route(s.key.dst, s.key.gw, index, s.key.metric, s.key.table, s.scope, 0));
        }
        if netlink.reliable { RolledBackStep(netlink.links, was, snaps, i, before, netlink.routes); }
      }
      assert snaps[..|snaps|] == snaps;
      ok := true;
    }

    // ----- interfaces -----

    // First everything the snapshot does not know is deleted, then every recorded interface is
    // restored; both loops visit a map in no particular order, with the links listed beforehand.
    method RollbackInterfaces(snaps: IfaceSnaps) returns (ok: bool)
      requires netlink.Valid() && WellFormed(snaps)
      modifies netlink`links, netlink`routes, netlink`writes
      ensures netlink.Valid()
      ensures netlink.reliable ==> ok && netlink.links == RestoredLinks(old(netlink.links), snaps)
      ensures netlink.reliable ==>
                netlink.routes == WithoutRoutes(old(netlink.links), old(netlink.routes), Unknown(old(netlink.links), snaps))
      ensures netlink.reliable ==>
                && (forall n :: n in netlink.links <==> n in old(netlink.links) && (n == "lo" || (n in snaps && snaps[n].existed)))
                && (forall n <- netlink.links | n in snaps && snaps[n].existed ::
                      && netlink.links[n].mtu == snaps[n].mtu && netlink.links[n].up == snaps[n].up
                      && forall a :: a in netlink.links[n].addrs <==> a in snaps[n].addrs)
                && (forall b, n | b in netlink.links && n in netlink.links && netlink.links[b].kind == Bridge
                                  && b in snaps && snaps[b].existed && snaps[b].kind == Bridge && snaps[b].ports != [] ::
                      netlink.links[n].master == netlink.links[b].index <==> n in snaps[b].ports && netlink.links[n].kind != Bridge)
    {
      RestoredLinkByLink(netlink.links, snaps);
      var listed, handles := netlink.LinkList();
      if !listed { return false; }
      ghost var was := netlink.links;
      var current := ByName(handles, was);
      RemoveCreatedInterfaces(snaps, current);
      SurvivorsValid(was, snaps);
      SurvivorsUpToDate(was, snaps, current);
      RestoreExistingInterfaces(snaps, current, Survivors(was, snaps));
      ok := true;
    }

    static method ByName(handles: seq<Handle>, ghost links: Links) returns (current: map<string, Handle>)
      requires IsListing(handles, links)
      ensures current.Keys == links.Keys && forall n <- current :: current[n] == Handle(n, links[n])
    {
      current := map[];
      for i := 0 to |handles|
        invariant current.Keys == set j | 0 <= j < i :: handles[j].name
        invariant forall n <- current :: n in links && current[n] == Handle(n, links[n])
      {
        current := current[handles[i].name := handles[i]];
      }
      forall n | n in links ensures n in current { assert Handle(n, links[n]) in handles; }
    }

    method RemoveCreatedInterfaces(snaps: IfaceSnaps, current: map<string, Handle>)
      requires netlink.Valid() && current.Keys == netlink.links.Keys
      requires forall n <- current :: current[n] == Handle(n, netlink.links[n])
      modifies netlink`links, netlink`routes, netlink`writes
      ensures netlink.Valid()
      ensures netlink.reliable ==> netlink.links == Survivors(old(netlink.links), snaps)
      ensures netlink.reliable ==>
                netlink.routes == WithoutRoutes(old(netlink.links), old(netlink.routes), Unknown(old(netlink.links), snaps))
    {
      ghost var was, wasRoutes := netlink.links, netlink.routes;
      ghost var gone: set<string> := {};
      var todo := current.Keys;
      while todo != {}
        invariant todo <= was.Keys && gone == Unknown(was, snaps) - todo
        invariant netlink.Valid()
        invariant netlink.reliable ==> netlink.links == WithoutLinks(was, gone)
        invariant netlink.reliable ==> netlink.routes == WithoutRoutes(was, wasRoutes, gone)
        decreases todo
      {
        var n :| n in todo;
        UnknownStep(was, snaps, todo, n);
        todo := todo - {n};
        if n != LOOPBACK && (n !in snaps || !snaps[n].existed) {
          RemoveCreated(current[n], was, wasRoutes, gone);
          gone := gone + {n};
        }
      }
      assert gone == Unknown(was, snaps);
      DeleteUnknown(was, snaps);
    }

    static lemma UnknownStep(links: Links, snaps: IfaceSnaps, todo: set<string>, n: string)
      requires n in todo && n in links
      ensures Unknown(links, snaps) - (todo - {n}) ==
              Unknown(links, snaps) - todo + if n in Unknown(links, snaps) then {n} else {}
    {
    }

    method RemoveCreated(h: Handle, ghost was: Links, ghost wasRoutes: set<Route>, ghost gone: set<string>)
      requires netlink.Valid() && h.name in was && h.name !in gone && h.link == was[h.name]
      requires netlink.reliable ==> netlink.links == WithoutLinks(was, gone) && netlink.routes == WithoutRoutes(was, wasRoutes, gone)
      requires ValidLinks(was)
      modifies netlink`links, netlink`routes, netlink`writes
      ensures netlink.Valid()
      ensures netlink.reliable ==> netlink.links == WithoutLinks(was, gone + {h.name})
      ensures netlink.reliable ==> netlink.routes == WithoutRoutes(was, wasRoutes, gone + {h.name})
    {
      DeleteOneMore(was, wasRoutes, gone, h.name);
      var _ := netlink.LinkDel(h);
    }

    method RestoreExistingInterfaces(snaps: IfaceSnaps, current: map<string, Handle>, ghost base: Links)
      requires netlink.Valid() && WellFormed(snaps) && ValidLinks(base)
      requires netlink.reliable ==> netlink.links == base
      requires forall n <- current :: current[n].name == n
      requires forall n <- base :: n in current && UpToDate(current[n], base[n])
      modifies netlink`links, netlink`writes
      ensures netlink.Valid()
      ensures netlink.reliable ==> netlink.links == PartialLinks(base, snaps, snaps.Keys)
    {
      PartialNone(base, snaps);
      ghost var done: set<string> := {};
      var todo := snaps.Keys;
      while todo != {}
        invariant todo <= snaps.Keys && done == snaps.Keys - todo
        invariant netlink.Valid()
        invariant netlink.reliable ==> netlink.links == PartialLinks(base, snaps, done)
        decreases todo
      {
        var n :| n in todo;
        PartialStep(base, snaps, done, n);
        if snaps[n].existed {
          StillUpToDate(base, snaps, done, n, current);
          var _ := RestoreInterfaceState(snaps[n], current);
        }
        todo, done := todo - {n}, done + {n};
      }
      assert done == snaps.Keys;
    }

    // An interface that changed only its addresses or its master since it was listed.
    static ghost predicate UpToDate(h: Handle, l: Link) {
      h.link.index == l.index && h.link.kind == l.kind && h.link.mtu == l.mtu && h.link.up == l.up
    }

    static lemma SurvivorsUpToDate(links: Links, snaps: IfaceSnaps, current: map<string, Handle>)
      requires forall n <- links :: n in current && current[n] == Handle(n, links[n])
      ensures forall n <- Survivors(links, snaps) :: n in current && UpToDate(current[n], Survivors(links, snaps)[n])
    {
    }

    // Restoring some interfaces leaves the listing of the others good enough.
    static lemma StillUpToDate(base: Links, snaps: IfaceSnaps, done: set<string>, n: string, current: map<string, Handle>)
      requires n !in done && forall m <- base :: m in current && UpToDate(current[m], base[m])
      ensures n in PartialLinks(base, snaps, done) ==> n in current && UpToDate(current[n], PartialLinks(base, snaps, done)[n])
    {
    }

    // The listing was taken before the deletions; it is compared with, not refreshed.
    method RestoreInterfaceState(s: IfaceSnap, current: map<string, Handle>) returns (ok: bool)
      requires netlink.Valid()
      requires forall n <- current :: current[n].name == n
      requires netlink.reliable && s.name in netlink.links ==>
                 s.name in current && UpToDate(current[s.name], netlink.links[s.name])
      modifies netlink`links, netlink`writes
      ensures netlink.Valid()
      ensures netlink.reliable ==> netlink.links == StepLinks(old(netlink.links), s)
    {
      if s.name !in current { return true; }
      var h := current[s.name];
      ghost var was := netlink.links;
      ok := RestoreAttributes(h, s);
      if !ok { return; }
      ghost var l1 := netlink.links;
      if s.kind == Bridge && s.ports != [] {
        ok := RestoreBridgePorts(h, s.ports);
      }
      if netlink.reliable { StepIsAttributesThenPorts(was, s, l1, netlink.links); }
    }

    // MTU, up flag and addresses.
    method RestoreAttributes(h: Handle, s: IfaceSnap) returns (ok: bool)
      requires netlink.Valid() && h.name == s.name
      requires netlink.reliable && h.name in netlink.links ==> UpToDate(h, netlink.links[h.name])
      modifies netlink`links, netlink`writes
      ensures netlink.Valid()
      ensures netlink.reliable ==> ok == (h.name in old(netlink.links))
      ensures netlink.reliable ==>
                netlink.links == if ok then old(netlink.links)[h.name := WithAttributes(old(netlink.links)[h.name], s)] else old(netlink.links)
    {
      ok := RestoreMtuAndState(h, s);
      if !ok { return; }
      ok := RestoreIPAddresses(h, s.addrs);
    }

    // An interface that is gone makes a request fail, or needs none.
    method RestoreMtuAndState(h: Handle, s: IfaceSnap) returns (ok: bool)
      requires netlink.Valid()
      requires netlink.reliable && h.name in netlink.links ==> UpToDate(h, netlink.links[h.name])
      modifies netlink`links, netlink`writes
      ensures netlink.Valid()
      ensures netlink.reliable && h.name in old(netlink.links) ==>
                ok && netlink.links == old(netlink.links)[h.name := old(netlink.links)[h.name].(mtu := s.mtu, up := s.up)]
      ensures netlink.reliable && h.name !in old(netlink.links) ==> netlink.links == old(netlink.links)
    {
      if h.link.mtu != s.mtu {
        ok := netlink.LinkSetMTU(h, s.mtu);
        if !ok { return; }
      }
      if h.link.up != s.up {
        if s.up {
          ok := netlink.LinkSetUp(h);
        } else {
          ok := netlink.LinkSetDown(h);
        }
        if !ok { return; }
      }
      ok := true;
    }

    method RestoreIPAddresses(h: Handle, snapAddrs: seq<Addr>) returns (ok: bool)
      requires netlink.Valid()
      modifies netlink`links, netlink`writes
      ensures netlink.Valid()
      ensures netlink.reliable ==> ok == Live(old(netlink.links), h)
      ensures netlink.reliable && ok ==> netlink.links == WithAddrs(old(netlink.links), h.name, Elems(snapAddrs))
      ensures netlink.reliable && !ok ==> netlink.links == old(netlink.links)
    {
      var listed, current := netlink.AddrList(h);
      if !listed { return false; }
      WithAddrsTwice(netlink.links, h.name, Elems(current) * Elems(snapAddrs), Elems(snapAddrs));
      RemoveForeignAddresses(h, current, snapAddrs);
      AddMissingAddresses(h, current, snapAddrs);
      ok := true;
    }

    method RemoveForeignAddresses(h: Handle, current: seq<Addr>, snapAddrs: seq<Addr>)
      requires netlink.Valid() && Live(netlink.links, h) && Lists(current, netlink.links[h.name].addrs)
      modifies netlink`links, netlink`writes
      ensures netlink.Valid()
      ensures netlink.reliable ==>
                netlink.links == WithAddrs(old(netlink.links), h.name, Elems(current) * Elems(snapAddrs))
    {
      ghost var was := netlink.links;
      ghost var have := Elems(current);
      WithAddrsTwice(was, h.name, have, have);
      for i := 0 to |current|
        invariant netlink.Valid()
        invariant Elems(current[i..]) <= have && have == (Elems(current) * Elems(snapAddrs)) + Elems(current[i..])
        invariant netlink.reliable ==> netlink.links == WithAddrs(was, h.name, have)
      {
        assert current[i..] == [current[i]] + current[i + 1..];
        assert current[i] in Elems(current) && current[i] !in Elems(current[i + 1..]);
        if current[i] !in snapAddrs {
          WithAddrsTwice(was, h.name, have, have - {current[i]});
          var _ := netlink.AddrDel(h, current[i]);
          have := have - {current[i]};
        }
      }
      assert have == Elems(current) * Elems(snapAddrs);
    }

    method AddMissingAddresses(h: Handle, current: seq<Addr>, snapAddrs: seq<Addr>)
      requires netlink.Valid()
      requires netlink.reliable ==>
                 Live(netlink.links, h) && netlink.links[h.name].addrs == Elems(current) * Elems(snapAddrs)
      modifies netlink`links, netlink`writes
      ensures netlink.Valid()
      ensures netlink.reliable ==> netlink.links == WithAddrs(old(netlink.links), h.name, Elems(snapAddrs))
    {
      ghost var was := netlink.links;
      ghost var have := Elems(current) * Elems(snapAddrs);
      if netlink.reliable { WithAddrsTwice(was, h.name, have, have); }
      for i := 0 to |snapAddrs|
        invariant netlink.Valid()
        invariant have == (Elems(current) * Elems(snapAddrs)) + Elems(snapAddrs[..i])
        invariant netlink.reliable ==> netlink.links == WithAddrs(was, h.name, have)
      {
        assert snapAddrs[..i + 1] == snapAddrs[..i] + [snapAddrs[i]];
        assert snapAddrs[i] in current <==> snapAddrs[i] in Elems(current);
        AddMissing(h, snapAddrs[i], snapAddrs[i] in current, was, have);
        have := have + {snapAddrs[i]};
      }
      assert snapAddrs[..|snapAddrs|] == snapAddrs;
      assert have == Elems(snapAddrs);
    }

    method AddMissing(h: Handle, a: Addr, present: bool, ghost was: Links, ghost have: set<Addr>)
      requires netlink.Valid() && (present ==> a in have)
      requires netlink.reliable ==> Live(was, h) && netlink.links == WithAddrs(was, h.name, have)
      modifies netlink`links, netlink`writes
      ensures netlink.Valid()
      ensures netlink.reliable ==> netlink.links == WithAddrs(was, h.name, have + {a})
    {
      if netlink.reliable { WithAddrsTwice(was, h.name, have, have + {a}); }
      if !present { var _ := netlink.AddrAdd(h, a); }
      assert a in have ==> have + {a} == have;
    }

    // Ports are detached and attached according to one listing, taken before either.
    method RestoreBridgePorts(bridge: Handle, snapPorts: seq<string>) returns (ok: bool)
      requires netlink.Valid()
      modifies netlink`links, netlink`writes
      ensures netlink.Valid()
      ensures netlink.reliable && Live(old(netlink.links), bridge) ==>
                && ok && netlink.links.Keys == old(netlink.links.Keys)
                && forall n <- netlink.links :: netlink.links[n] ==
                     old(netlink.links)[n].(master := MasterWithPorts(old(netlink.links), bridge.name, snapPorts, n))
    {
      var listed, current := GetBridgePorts(netlink, bridge.name);
      if !listed { return false; }
      ghost var was := netlink.links;
      forall p ensures p in current <==> p in PortsOf(was, bridge.name) { assert p in current <==> p in Elems(current); }
      ghost var freed := set p | p in current && p !in snapPorts;
      DetachForeignPorts(current, snapPorts);
      AttachListedPorts(bridge, current, snapPorts, was, freed);
      if netlink.reliable && Live(was, bridge) { AllFreedAndAttached(was, bridge.name, current, snapPorts); }
      ok := true;
    }

    method DetachForeignPorts(current: seq<string>, snapPorts: seq<string>)
      requires netlink.Valid() && forall p <- current :: p in netlink.links
      modifies netlink`links, netlink`writes
      ensures netlink.Valid()
      ensures netlink.reliable ==>
                netlink.links == WithFreed(old(netlink.links), set p | p in current && p !in snapPorts)
    {
      ghost var was := netlink.links;
      ghost var freed: set<string> := {};
      for i := 0 to |current|
        invariant netlink.Valid()
        invariant freed == set p | p in current[..i] && p !in snapPorts
        invariant netlink.reliable ==> netlink.links == WithFreed(was, freed)
      {
        assert current[..i + 1] == current[..i] + [current[i]] && current[i] in current;
        if current[i] !in snapPorts {
          DetachPort(current[i], was, freed);
          freed := freed + {current[i]};
        }
      }
      assert current[..|current|] == current;
    }

    method DetachPort(name: string, ghost was: Links, ghost freed: set<string>)
      requires netlink.Valid() && name in was && (netlink.reliable ==> netlink.links == WithFreed(was, freed))
      modifies netlink`links, netlink`writes
      ensures netlink.Valid()
      ensures netlink.reliable ==> netlink.links == WithFreed(was, freed + {name})
    {
      FreeOneMore(was, freed, name);
      var found, port := netlink.LinkByName(name);
      if found { var _ := netlink.LinkSetNoMaster(port); }
    }

    method AttachListedPorts(bridge: Handle, current: seq<string>, snapPorts: seq<string>,
                             ghost was: Links, ghost freed: set<string>)
      requires netlink.Valid() && bridge.name in was
      requires netlink.reliable ==> netlink.links == WithFreed(was, freed)
      requires forall p <- freed :: p in current
      modifies netlink`links, netlink`writes
      ensures netlink.Valid()
      ensures netlink.reliable && Live(was, bridge) ==>
                var added := set p | p in snapPorts && Attachable(was, bridge.name, current, p);
                netlink.links == WithAttached(was, freed, added, bridge.link.index)
    {
      ghost var added: set<string> := {};
      for i := 0 to |snapPorts|
        invariant netlink.Valid()
        invariant added == set p | p in snapPorts[..i] && Attachable(was, bridge.name, current, p)
        invariant netlink.reliable && Live(was, bridge) ==> netlink.links == WithAttached(was, freed, added, bridge.link.index)
      {
        assert snapPorts[..i + 1] == snapPorts[..i] + [snapPorts[i]];
        AttachedKeepsIdentity(was, freed, added, bridge.link.index, snapPorts[i]);
        AttachedKeepsIdentity(was, freed, added, bridge.link.index, bridge.name);
        if snapPorts[i] !in current {
          if Attachable(was, bridge.name, current, snapPorts[i]) {
            AttachOneMore(was, freed, added, bridge.link.index, snapPorts[i]);
            added := added + {snapPorts[i]};
          }
          AttachPort(bridge, snapPorts[i]);
        }
      }
      assert snapPorts[..|snapPorts|] == snapPorts;
    }

    method AttachPort(bridge: Handle, name: string)
      requires netlink.Valid()
      modifies netlink`links, netlink`writes
      ensures netlink.Valid()
      ensures netlink.reliable && Live(old(netlink.links), bridge) ==>
                var was := old(netlink.links);
                netlink.links == if name in was && was[name].kind != Bridge && was[bridge.name].kind == Bridge
                                 then was[name := was[name].(master := bridge.link.index)] else was
    {
      var found, port := netlink.LinkByName(name);
      if found { var _ := netlink.LinkSetMaster(port, bridge); }
    }

    // ----- everything in a scope -----

    method RestoreSnapshot(snap: SystemSnapshot, scope: seq<string>) returns (ok: bool, ghost middle: set<Route>)
      requires netlink.Valid() && WellFormed(snap.interfaces)
      modifies netlink`links, netlink`routes, netlink`forwarding, netlink`writes
      ensures netlink.Valid()
      ensures netlink.reliable ==> ok
      ensures netlink.reliable ==>
                RestoredTo(old(netlink.links), old(netlink.routes), old(netlink.forwarding), snap, scope,
                           middle, netlink.links, netlink.routes, netlink.forwarding)
      ensures netlink.reliable ==>
                netlink.forwarding == if "ipforward" in scope || "all" in scope then snap.forwarding else old(netlink.forwarding)
      ensures netlink.reliable ==>
                netlink.links == if "interfaces" in scope || "all" in scope then RestoredLinks(old(netlink.links), snap.interfaces)
                                 else old(netlink.links)
      ensures netlink.reliable && ("routes" in scope || "all" in scope) ==>
                RoutesRolledBack(old(netlink.links), old(netlink.routes), snap.routes, snap.routes, middle)
      ensures netlink.reliable && "interfaces" !in scope && "all" !in scope ==>
                netlink.routes == middle && ("routes" !in scope ==> netlink.routes == old(netlink.routes))
    {
      ok := true;
      if "routes" in scope || "all" in scope {
        ok := RollbackRoutes(snap.routes);
      }
      middle := netlink.routes;
      if "interfaces" in scope || "all" in scope {
        var done := RollbackInterfaces(snap.interfaces);
        ok := ok && done;
      }
      if "ipforward" in scope || "all" in scope {
        var done := netlink.SetForwarding(snap.forwarding);
        ok := ok && done;
      }
    }
  }
}
