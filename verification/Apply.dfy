// Applying the committed configuration with automatic rollback (daemon/server.go, handleApply and
// executeApplyWithRollback).
module Apply {
  import opened Basics
  import opened Kernel
  import opened Snapshot
  import opened RouteRestore
  import opened SnapshotManager
  import opened PluginHost
  import opened PluginRunner

  // What configuring an interface, a plugin or the routes may ask of the kernel: anything.
  datatype Request =
    | AddLink(name: string, kind: LinkKind, mtu: int)
    | DelLink(name: string)
    | SetState(name: string, up: bool)
    | SetMtu(name: string, mtu: int)
    | SetMaster(name: string, bridge: string)
    | SetNoMaster(name: string)
    | AddAddr(name: string, addr: Addr)
    | DelAddr(name: string, addr: Addr)
    | AddRoute(route: Route)
    | DelRoute(route: Route)

  // One forward step: the requests it makes and whether it reports success.
  datatype Work = Work(requests: seq<Request>, ok: bool)

  datatype Outcome = Applied | CaptureFailed | ForwardingFailed | InterfaceFailed | PluginFailed | RoutesFailed

  // The kernel just before a rollback, and its routes between route and interface rollback.
  datatype Before = Before(links: Links, routes: set<Route>, forwarding: bool, middle: set<Route>)

  // What a rollback of some scope has made of the links that were there before the apply.
  ghost predicate Undone(was: Links, snapshot: SystemSnapshot, scope: seq<string>, before: Before,
                         links: Links, routes: set<Route>, forwarding: bool)
  {
    && ValidLinks(before.links) && ValidRoutes(before.links, before.routes)
    && RestoredTo(before.links, before.routes, before.forwarding, snapshot, scope, before.middle, links, routes, forwarding)
    && forwarding == snapshot.forwarding
    && RolledBackTo(was, links) && PortsRolledBack(was, links)
    && (forall n <- was :: n in before.links ==> n in links)
  }

  // Only failing routes roll back everything.
  function ScopeOf(outcome: Outcome): seq<string> {
    if outcome == RoutesFailed then ["all"] else ["ipforward", "interfaces"]
  }

  predicate NeedsUndo(outcome: Outcome) {
    outcome in {InterfaceFailed, PluginFailed, RoutesFailed}
  }

  class Server {
    const netlink: Kernel
    const snapshots: SnapshotManager
    const plugins: Runner

    constructor (netlink: Kernel, plugins: Runner)
      ensures this.netlink == netlink && snapshots.netlink == netlink && this.plugins == plugins
    {
      this.netlink := netlink;
      this.snapshots := new SnapshotManager(netlink);
      this.plugins := plugins;
    }

    ghost predicate Valid()
      reads this, netlink, plugins, plugins.state, plugins.state.frozen, plugins.state.staged
    {
      snapshots.netlink == netlink && netlink.Valid() && plugins.Valid()
    }

    // Kernel requests do not touch the plugins' side.
    method Perform(requests: seq<Request>)
      requires Valid()
      modifies netlink
      ensures Valid() && netlink.forwarding == old(netlink.forwarding) && plugins.View() == old(plugins.View())
    {
      PerformAll(requests);
    }

    method PerformAll(requests: seq<Request>)
      requires netlink.Valid()
      modifies netlink
      ensures netlink.Valid() && netlink.forwarding == old(netlink.forwarding)
    {
      for i := 0 to |requests|
        invariant netlink.Valid() && netlink.forwarding == old(netlink.forwarding)
      {
        PerformOne(requests[i]);
      }
    }

    method PerformOne(r: Request)
      requires netlink.Valid()
      modifies netlink
      ensures netlink.Valid() && netlink.forwarding == old(netlink.forwarding)
    {
      match r
      case AddLink(name, kind, mtu) => var _ := netlink.LinkAdd(name, kind, mtu);
      case AddRoute(route) => var _ := netlink.RouteAdd(route);
      case DelRoute(route) => var _ := netlink.RouteDel(route);
      case SetMaster(name, bridge) =>
        var found, h := netlink.LinkByName(name);
        if found {
          var known, b := netlink.LinkByName(bridge);
          if known { var _ := netlink.LinkSetMaster(h, b); }
        }
      case _ =>
        var found, h := netlink.LinkByName(r.name);
        if found { PerformOn(h, r); }
    }

    method PerformOn(h: Handle, r: Request)
      requires netlink.Valid()
      modifies netlink
      ensures netlink.Valid() && netlink.forwarding == old(netlink.forwarding)
    {
      match r
      case DelLink(_) => var _ := netlink.LinkDel(h);
      case SetState(_, up) => if up { var _ := netlink.LinkSetUp(h); } else { var _ := netlink.LinkSetDown(h); }
      case SetMtu(_, mtu) => var _ := netlink.LinkSetMTU(h, mtu);
      case SetNoMaster(_) => var _ := netlink.LinkSetNoMaster(h);
      case AddAddr(_, addr) => var _ := netlink.AddrAdd(h, addr);
      case DelAddr(_, addr) => var _ := netlink.AddrDel(h, addr);
      case _ =>
    }

    // The plugin loop: skip what is unchanged, stop at the first plugin that rejects its
    // configuration.  A plugin may change kernel state while it is configured.
    method ApplyPluginConfigs(order: seq<string>, rejects: set<string>, work: map<string, seq<Request>>)
      returns (ok: bool)
      requires Valid() && Registered(plugins.View(), order)
      modifies plugins`running, plugins.state, netlink
      ensures Valid() && netlink.forwarding == old(netlink.forwarding)
      ensures plugins.View() == ApplyPlugins(old(plugins.View()), order, rejects).host
      ensures ok == ApplyPlugins(old(plugins.View()), order, rejects).ok
    {
      ghost var start := ApplyPlugins(plugins.View(), order, rejects);
      for i := 0 to |order|
        invariant Valid() && netlink.forwarding == old(netlink.forwarding)
        invariant plugins.running.Keys == old(plugins.running.Keys)
        invariant ApplyPlugins(plugins.View(), order[i..], rejects).host == start.host
        invariant ApplyPlugins(plugins.View(), order[i..], rejects).ok == start.ok
      {
        var ns := order[i];
        assert order[i..][0] == ns && order[i..][1..] == order[i + 1..];
        ok := ApplyPluginConfig(ns, ns in rejects, if ns in work then work[ns] else []);
        if !ok { return; }
      }
      ok := true;
    }

    // One plugin: nothing, or the call and its record.
    method ApplyPluginConfig(ns: string, refuses: bool, work: seq<Request>) returns (ok: bool)
      requires Valid() && ns in plugins.running
      modifies plugins`running, plugins.state, netlink
      ensures Valid() && netlink.forwarding == old(netlink.forwarding)
      ensures var h := old(plugins.View());
              match Due(h, ns)
              case None => ok && plugins.View() == h
              case Some(c) =>
                ok == !refuses && plugins.View() == if refuses then h.(running := h.running[ns := Broken]) else Noted(h, ns, c)
    {
      var due, config := plugins.DueConfig(ns);
      if !due { return true; }
      Perform(work);
      plugins.Call(ns, config, refuses);
      ok := !refuses;
    }

    // Every registered plugin, in no particular order.
    method RollbackPluginConfigs(refuses: set<string>, work: map<string, seq<Request>>)
      requires Valid()
      modifies plugins`running, netlink
      ensures Valid() && netlink.forwarding == old(netlink.forwarding)
      ensures plugins.View() == RollbackPlugins(old(plugins.View()), refuses)
    {
      ghost var start := plugins.View();
      var todo := plugins.running.Keys;
      while todo != {}
        invariant todo <= start.running.Keys
        invariant Valid() && netlink.forwarding == old(netlink.forwarding)
        invariant plugins.View() == PartlyRolledBack(start, todo, refuses)
        decreases todo
      {
        var ns :| ns in todo;
        RollBackOneMore(start, todo, refuses, ns);
        RollbackPluginConfig(ns, ns in refuses, if ns in work then work[ns] else []);
        todo := todo - {ns};
      }
    }

    method RollbackPluginConfig(ns: string, refuses: bool, work: seq<Request>)
      requires Valid() && ns in plugins.running
      modifies plugins`running, netlink
      ensures Valid() && netlink.forwarding == old(netlink.forwarding)
      ensures var h := old(plugins.View());
              plugins.View() == h.(running := h.running[ns := AfterRollback(h, ns, if refuses then {ns} else {})])
    {
      Perform(work);
      plugins.RollBack(ns, refuses);
    }

    // All but these plugins have been rolled back.
    static ghost function PartlyRolledBack(h: Host, todo: set<string>, refuses: set<string>): Host {
      h.(running := map ns | ns in h.running :: if ns in todo then h.running[ns] else AfterRollback(h, ns, refuses))
    }

    static lemma RollBackOneMore(h: Host, todo: set<string>, refuses: set<string>, ns: string)
      requires ns in todo && ns in h.running
      ensures var p := PartlyRolledBack(h, todo, refuses);
              p.(running := p.running[ns := AfterRollback(p, ns, if ns in refuses then {ns} else {})]) ==
              PartlyRolledBack(h, todo - {ns}, refuses)
    {
    }

    // Steps in order: IP forwarding, interfaces, plugins, routes.  Each failure rolls back the scope
    // the daemon has reached.
    method ExecuteApplyWithRollback(snapshot: SystemSnapshot, interfaces: seq<Work>, order: seq<string>,
                                    rejects: set<string>, refuses: set<string>, pluginWork: map<string, seq<Request>>,
                                    rollbackWork: map<string, seq<Request>>, routes: Option<Work>)
      returns (outcome: Outcome, ghost before: Before)
      requires Valid() && Registered(plugins.View(), order)
      requires Captures(netlink.links, netlink.routes, netlink.forwarding, snapshot)
      modifies plugins`running, plugins.state, netlink
      ensures Valid()
      ensures outcome == Applied ==> netlink.forwarding
      ensures outcome == ForwardingFailed ==>
                netlink.links == old(netlink.links) && netlink.routes == old(netlink.routes) &&
                netlink.forwarding == old(netlink.forwarding)
      ensures NeedsUndo(outcome) && netlink.reliable ==>
                Undone(old(netlink.links), snapshot, ScopeOf(outcome), before, netlink.links, netlink.routes, netlink.forwarding)
      ensures plugins.View() == if outcome in {ForwardingFailed, InterfaceFailed} then old(plugins.View())
                                else ApplyStep(old(plugins.View()), order, rejects, outcome == RoutesFailed, refuses)
      ensures netlink.reliable ==> outcome != ForwardingFailed
      ensures outcome != ForwardingFailed ==>
                (outcome == InterfaceFailed <==> exists w <- interfaces :: !w.ok)
      ensures outcome != ForwardingFailed ==>
                (outcome == PluginFailed <==>
                (forall w <- interfaces :: w.ok) && exists ns <- order :: old(Due(plugins.View(), ns)).Some? && ns in rejects)
      ensures outcome != ForwardingFailed ==>
                (outcome == RoutesFailed <==>
                && (forall w <- interfaces :: w.ok)
                && (forall ns <- order | old(Due(plugins.View(), ns)).Some? :: ns !in rejects)
                && routes.Some? && !routes.value.ok)
      ensures outcome != ForwardingFailed ==>
                (outcome == Applied <==>
                && (forall w <- interfaces :: w.ok)
                && (forall ns <- order | old(Due(plugins.View(), ns)).Some? :: ns !in rejects)
                && (routes.Some? ==> routes.value.ok))
    {
      ghost var was := netlink.links;
      before := Before(netlink.links, netlink.routes, netlink.forwarding, netlink.routes);
      CapturedIsWellFormed(was, snapshot.interfaces);
      var ok := EnableForwarding();
      if !ok { return ForwardingFailed, before; }
      outcome := ApplySteps(interfaces, order, rejects, refuses, pluginWork, rollbackWork, routes);
      if outcome != Applied { before := Undo(snapshot, ScopeOf(outcome), was); }
    }

    method EnableForwarding() returns (ok: bool)
      requires Valid()
      modifies netlink`forwarding, netlink`writes
      ensures Valid() && plugins.View() == old(plugins.View())
      ensures netlink.forwarding == (ok || old(netlink.forwarding)) && (netlink.reliable ==> ok)
    {
      ok := netlink.SetForwarding(true);
    }

    // The steps after IP forwarding, with the plugins rolled back if they or the routes fail.
    method ApplySteps(interfaces: seq<Work>, order: seq<string>, rejects: set<string>, refuses: set<string>,
                      pluginWork: map<string, seq<Request>>, rollbackWork: map<string, seq<Request>>, routes: Option<Work>)
      returns (outcome: Outcome)
      requires Valid() && Registered(plugins.View(), order)
      modifies plugins`running, plugins.state, netlink
      ensures Valid() && netlink.forwarding == old(netlink.forwarding)
      ensures outcome == InterfaceFailed <==> exists w <- interfaces :: !w.ok
      ensures outcome == PluginFailed <==>
                (forall w <- interfaces :: w.ok) && exists ns <- order :: old(Due(plugins.View(), ns)).Some? && ns in rejects
      ensures outcome == RoutesFailed <==>
                && (forall w <- interfaces :: w.ok)
                && (forall ns <- order | old(Due(plugins.View(), ns)).Some? :: ns !in rejects)
                && routes.Some? && !routes.value.ok
      ensures outcome == Applied <==>
                && (forall w <- interfaces :: w.ok)
                && (forall ns <- order | old(Due(plugins.View(), ns)).Some? :: ns !in rejects)
                && (routes.Some? ==> routes.value.ok)
      ensures plugins.View() == if outcome == InterfaceFailed then old(plugins.View())
                                else ApplyStep(old(plugins.View()), order, rejects, outcome == RoutesFailed, refuses)
    {
      var ok := ApplyInterfaces(interfaces);
      if !ok { return InterfaceFailed; }
      ApplyFails(plugins.View(), order, rejects);
      ok := ApplyPluginConfigs(order, rejects, pluginWork);
      if ok {
        if routes.None? { return Applied; }
        Perform(routes.value.requests);
        if routes.value.ok { return Applied; }
      }
      RollbackPluginConfigs(refuses, rollbackWork);
      outcome := if ok then RoutesFailed else PluginFailed;
    }

    // In order, up to the first that fails.
    method ApplyInterfaces(interfaces: seq<Work>) returns (ok: bool)
      requires Valid()
      modifies netlink
      ensures Valid() && netlink.forwarding == old(netlink.forwarding) && plugins.View() == old(plugins.View())
      ensures ok <==> forall w <- interfaces :: w.ok
    {
      for i := 0 to |interfaces|
        invariant Valid() && netlink.forwarding == old(netlink.forwarding) && plugins.View() == old(plugins.View())
        invariant forall j | 0 <= j < i :: interfaces[j].ok
      {
        Perform(interfaces[i].requests);
        if !interfaces[i].ok { return false; }
      }
      ok := true;
    }

    // Restoring the snapshot, and what that means for the links it was taken from.
    method Undo(snapshot: SystemSnapshot, scope: seq<string>, ghost was: Links) returns (ghost before: Before)
      requires Valid() && WellFormed(snapshot.interfaces)
      requires ValidLinks(was) && CapturesLinks(was, snapshot.interfaces)
      requires scope == ["all"] || scope == ["ipforward", "interfaces"]
      modifies netlink
      ensures Valid() && plugins.View() == old(plugins.View())
      ensures before.links == old(netlink.links) && before.routes == old(netlink.routes)
      ensures before.forwarding == old(netlink.forwarding)
      ensures netlink.reliable ==>
                Undone(was, snapshot, scope, before, netlink.links, netlink.routes, netlink.forwarding)
    {
      before := UndoKernel(snapshot, scope, was);
    }

    method UndoKernel(snapshot: SystemSnapshot, scope: seq<string>, ghost was: Links) returns (ghost before: Before)
      requires snapshots.netlink == netlink && netlink.Valid() && WellFormed(snapshot.interfaces)
      requires ValidLinks(was) && CapturesLinks(was, snapshot.interfaces)
      requires scope == ["all"] || scope == ["ipforward", "interfaces"]
      modifies netlink
      ensures netlink.Valid()
      ensures before.links == old(netlink.links) && before.routes == old(netlink.routes)
      ensures before.forwarding == old(netlink.forwarding)
      ensures netlink.reliable ==>
                Undone(was, snapshot, scope, before, netlink.links, netlink.routes, netlink.forwarding)
    {
      before := Before(netlink.links, netlink.routes, netlink.forwarding, netlink.routes);
      var _, middle := snapshots.RestoreSnapshot(snapshot, scope);
      before := before.(middle := middle);
      RestoreUndoesAnything(was, snapshot.interfaces, before.links);
      if netlink.reliable {
        assert "all" in scope || "interfaces" in scope by { assert "all" in ["all"]; assert "interfaces" in ["ipforward", "interfaces"]; }
        assert "all" in scope || "ipforward" in scope by { assert "all" in ["all"]; assert "ipforward" in ["ipforward", "interfaces"]; }
      }
    }

    // A snapshot is captured before anything changes; every failure leads back to it.  The routes come
    // back when the route step fails, exactly if those that are missing can return.
    method HandleApply(interfaces: seq<Work>, order: seq<string>, rejects: set<string>, refuses: set<string>,
                       pluginWork: map<string, seq<Request>>, rollbackWork: map<string, seq<Request>>, routes: Option<Work>)
      returns (outcome: Outcome, ghost before: Before, ghost snap: SystemSnapshot)
      requires Valid() && Registered(plugins.View(), order) && netlink.reliable
      modifies plugins`running, plugins.state, netlink
      ensures Valid()
      ensures outcome == InterfaceFailed <==> exists w <- interfaces :: !w.ok
      ensures outcome == PluginFailed <==>
                (forall w <- interfaces :: w.ok) && exists ns <- order :: old(Due(plugins.View(), ns)).Some? && ns in rejects
      ensures outcome == RoutesFailed <==>
                && (forall w <- interfaces :: w.ok)
                && (forall ns <- order | old(Due(plugins.View(), ns)).Some? :: ns !in rejects)
                && routes.Some? && !routes.value.ok
      ensures outcome == Applied <==>
                && (forall w <- interfaces :: w.ok)
                && (forall ns <- order | old(Due(plugins.View(), ns)).Some? :: ns !in rejects)
                && (routes.Some? ==> routes.value.ok)
      ensures outcome == Applied ==> netlink.forwarding
      ensures outcome != Applied ==>
                && netlink.forwarding == old(netlink.forwarding)
                && (forall n <- old(netlink.links) :: n in before.links ==> n in netlink.links)
      ensures outcome != Applied ==> forall n <- netlink.links | n != "lo" ::
                && n in old(netlink.links)
                && netlink.links[n].mtu == old(netlink.links)[n].mtu
                && netlink.links[n].up == old(netlink.links)[n].up
                && netlink.links[n].addrs == old(netlink.links)[n].addrs
      ensures outcome != Applied ==>
                forall b <- netlink.links | b != "lo" && netlink.links[b].kind == Bridge && b in old(netlink.links)
                                            && old(netlink.links)[b].kind == Bridge && PortsOf(old(netlink.links), b) != {} ::
                  PortsOf(netlink.links, b) ==
                  set p | p in PortsOf(old(netlink.links), b) && p in netlink.links && netlink.links[p].kind != Bridge
      ensures outcome == RoutesFailed ==>
                forall r <- netlink.routes | r.protocol != 2 && r.scope != 253 && r.linkIndex != 0 ::
                  exists q <- old(netlink.routes) :: Key(netlink.links, r) == Key(old(netlink.links), q)
      ensures Captures(old(netlink.links), old(netlink.routes), old(netlink.forwarding), snap)
      ensures outcome == RoutesFailed ==>
                (Keys(netlink.links, netlink.routes) == FullTarget(before.links, before.routes, snap, netlink.links) <==>
                 AllCanReturn(before.links, before.routes, snap.routes))
      ensures outcome in {InterfaceFailed, PluginFailed} ==>
                netlink.routes == WithoutRoutes(before.links, before.routes, Unknown(before.links, snap.interfaces))
      ensures plugins.View() == if outcome == InterfaceFailed then old(plugins.View())
                                else ApplyStep(old(plugins.View()), order, rejects, outcome == RoutesFailed, refuses)
      ensures old(Faithful(plugins.View())) && old(Allowed(plugins.View(), Apply(order, rejects, outcome == RoutesFailed, refuses))) ==>
                Faithful(plugins.View())
    {
      ghost var was := Before(netlink.links, netlink.routes, netlink.forwarding, netlink.routes);
      ApplyKeepsFaithfulIf(plugins.View(), order, rejects, true, refuses);
      ApplyKeepsFaithfulIf(plugins.View(), order, rejects, false, refuses);
      outcome, before, snap := CaptureAndApply(interfaces, order, rejects, refuses, pluginWork, rollbackWork, routes);
      if outcome != Applied {
        UndoneRoutes(was, snap, ScopeOf(outcome), before, netlink.links, netlink.routes, netlink.forwarding);
        UndoneLinkByLink(was.links, netlink.links);
      }
      if outcome == RoutesFailed {
        UndoneRouteByRoute(was, snap, before, netlink.links, netlink.routes, netlink.forwarding);
      }
    }

    method CaptureAndApply(interfaces: seq<Work>, order: seq<string>, rejects: set<string>, refuses: set<string>,
                           pluginWork: map<string, seq<Request>>, rollbackWork: map<string, seq<Request>>, routes: Option<Work>)
      returns (outcome: Outcome, ghost before: Before, ghost snap: SystemSnapshot)
      requires Valid() && Registered(plugins.View(), order) && netlink.reliable
      modifies plugins`running, plugins.state, netlink
      ensures Valid()
      ensures outcome in {InterfaceFailed, PluginFailed, RoutesFailed, Applied}
      ensures outcome == InterfaceFailed <==> exists w <- interfaces :: !w.ok
      ensures outcome == PluginFailed <==>
                (forall w <- interfaces :: w.ok) && exists ns <- order :: old(Due(plugins.View(), ns)).Some? && ns in rejects
      ensures outcome == RoutesFailed <==>
                && (forall w <- interfaces :: w.ok)
                && (forall ns <- order | old(Due(plugins.View(), ns)).Some? :: ns !in rejects)
                && routes.Some? && !routes.value.ok
      ensures outcome == Applied <==>
                && (forall w <- interfaces :: w.ok)
                && (forall ns <- order | old(Due(plugins.View(), ns)).Some? :: ns !in rejects)
                && (routes.Some? ==> routes.value.ok)
      ensures outcome == Applied ==> netlink.forwarding
      ensures Captures(old(netlink.links), old(netlink.routes), old(netlink.forwarding), snap)
      ensures outcome != Applied ==>
                Undone(old(netlink.links), snap, ScopeOf(outcome), before, netlink.links, netlink.routes, netlink.forwarding)
      ensures plugins.View() == if outcome == InterfaceFailed then old(plugins.View())
                                else ApplyStep(old(plugins.View()), order, rejects, outcome == RoutesFailed, refuses)
    {
      ghost var h := plugins.View();
      before := Before(netlink.links, netlink.routes, netlink.forwarding, netlink.routes);
      var ok, snapshot := snapshots.CaptureSystemSnapshot();
      assert plugins.View() == h;
      snap := snapshot;
      outcome := CaptureFailed;
      if ok {
        outcome, before := ExecuteApplyWithRollback(snapshot, interfaces, order, rejects, refuses, pluginWork, rollbackWork, routes);
      }
    }
  }

  lemma UndoneLinkByLink(was: Links, links: Links)
    requires RolledBackTo(was, links) && PortsRolledBack(was, links)
    ensures forall n <- links | n != "lo" ::
              n in was && links[n].mtu == was[n].mtu && links[n].up == was[n].up && links[n].addrs == was[n].addrs
    ensures forall b <- links | b != "lo" && links[b].kind == Bridge && b in was && was[b].kind == Bridge && PortsOf(was, b) != {} ::
              PortsOf(links, b) == set p | p in PortsOf(was, b) && p in links && links[p].kind != Bridge
  {
  }

  // After a full rollback every route through a link is protected or was there before.
  lemma UndoneRouteByRoute(was: Before, snap: SystemSnapshot, before: Before, links: Links, routes: set<Route>, forwarding: bool)
    requires ValidLinks(was.links) && Captures(was.links, was.routes, was.forwarding, snap)
    requires Undone(was.links, snap, ["all"], before, links, routes, forwarding)
    ensures forall r <- routes | r.protocol != 2 && r.scope != 253 && r.linkIndex != 0 ::
              exists q <- was.routes :: Key(links, r) == Key(was.links, q)
  {
    assert "all" in ["all"];
    KeysLeft(before.links, snap.interfaces, before.middle);
    RolledBackRouteByRoute(before.links, before.routes, snap.routes, before.middle);
    forall r | r in routes && r.protocol != 2 && r.scope != 253 && r.linkIndex != 0
      ensures exists q <- was.routes :: Key(links, r) == Key(was.links, q)
    {
      var s := RecordOf(before.links, before.routes, snap.routes, before.middle, r);
      var q :| q in was.routes && s == RouteSnap(Key(was.links, q), q.scope);
    }
  }

  // What a rollback has made of the routes.
  lemma UndoneRoutes(was: Before, snap: SystemSnapshot, scope: seq<string>, before: Before,
                     links: Links, routes: set<Route>, forwarding: bool)
    requires ValidLinks(was.links) && Captures(was.links, was.routes, was.forwarding, snap)
    requires Undone(was.links, snap, scope, before, links, routes, forwarding)
    requires scope == ["all"] || scope == ["ipforward", "interfaces"]
    ensures scope == ["all"] ==>
              (Keys(links, routes) == FullTarget(before.links, before.routes, snap, links) <==>
               AllCanReturn(before.links, before.routes, snap.routes))
    ensures scope != ["all"] ==> routes == WithoutRoutes(before.links, before.routes, Unknown(before.links, snap.interfaces))
  {
    if scope == ["all"] {
      FullRollbackRestoresRoutes(was.links, was.routes, was.forwarding, snap, before.links, before.routes, before.forwarding,
                                 before.middle, links, routes, forwarding);
    } else {
      assert scope[0] == "ipforward" && scope[1] == "interfaces" && "interfaces" in scope;
      assert "all"[0] == 'a' && "routes"[0] == 'r' && "ipforward"[0] == 'i' && "interfaces"[0] == 'i';
      assert "routes" !in scope && "all" !in scope;
    }
  }
}
