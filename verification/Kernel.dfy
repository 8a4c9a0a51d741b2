// The kernel as the daemon sees it through NetlinkClient (system/interfaces.go): links, addresses,
// bridge membership, routes and the IP forwarding switch.  Every request answers whether it
// succeeded.  A reliable kernel refuses a request only for a reason visible in its state; an
// unreliable one may refuse anything.
module Kernel {
  import opened Basics

  datatype LinkKind = Physical | Bridge | Vlan | Wireguard

  datatype Addr = Addr(ip: nat, prefix: nat)

  // `master` is the index of the bridge the link is a port of, 0 for none.
  datatype Link = Link(index: nat, kind: LinkKind, mtu: int, up: bool, addrs: set<Addr>, master: nat)

  type Links = map<string, Link>

  // What a listing or a lookup hands out: a copy of the attributes at that moment.
  datatype Handle = Handle(name: string, link: Link)

  datatype Destination = Default | Net(cidr: string)

  datatype Route = Route(dst: Destination, gw: Option<string>, linkIndex: nat, metric: int, table: int,
                         scope: int, protocol: int)

  const LOOPBACK := "lo"
  const RTPROT_KERNEL := 2
  const SCOPE_LINK := 253

  ghost predicate ValidLinks(links: Links) {
    && "" !in links
    && (forall n <- links :: links[n].index > 0)
    && (forall m, n | m in links && n in links && links[m].index == links[n].index :: m == n)
    && (forall n <- links | links[n].master != 0 ::
          links[n].kind != Bridge && IsBridgeIndex(links, links[n].master))
  }

  ghost predicate HasIndex(links: Links, index: nat) {
    exists n :: n in links && links[n].index == index
  }

  ghost predicate IsBridgeIndex(links: Links, index: nat) {
    exists n :: n in links && links[n].index == index && links[n].kind == Bridge
  }

  ghost predicate ValidRoutes(links: Links, routes: set<Route>) {
    forall r <- routes :: r.linkIndex == 0 || HasIndex(links, r.linkIndex)
  }

  // The handle still denotes a link: the name exists and was not deleted and created anew.
  predicate Live(links: Links, h: Handle) {
    h.name in links && links[h.name].index == h.link.index
  }

  // LinkDel frees the ports of the deleted link...
  function AfterLinkDel(links: Links, name: string): Links
    requires name in links
  {
    map n | n in links && n != name ::
      if links[n].master == links[name].index then links[n].(master := 0) else links[n]
  }

  // ... and drops the routes through it.
  function RoutesAfterLinkDel(routes: set<Route>, index: nat): set<Route> {
    set r | r in routes && r.linkIndex != index
  }

  // Two routes contend for one place in the table: an exclusive add is refused when it is taken.
  predicate SameSlot(a: Route, b: Route) {
    a.dst == b.dst && a.metric == b.metric && a.table == b.table
  }

  ghost predicate UpIndex(links: Links, index: nat) {
    exists n :: n in links && links[n].index == index && links[n].up
  }

  // A route leads through a link that is up, or, naming none, at least to a gateway.
  ghost predicate CanCarry(links: Links, r: Route) {
    if r.linkIndex == 0 then r.gw.Some? else UpIndex(links, r.linkIndex)
  }

  ghost predicate CanAddRoute(links: Links, routes: set<Route>, r: Route) {
    CanCarry(links, r) && forall c <- routes :: !SameSlot(c, r)
  }

  // Only a bridge takes ports, and a bridge is never a port.
  predicate CanEnslave(links: Links, port: Handle, bridge: Handle) {
    Live(links, port) && Live(links, bridge) && links[port.name].kind != Bridge && links[bridge.name].kind == Bridge
  }

  // A deletion, and what it takes for a route to be added and a port to join, in plain terms.
  lemma DeletionInPlainTerms(links: Links, routes: set<Route>, name: string)
    requires name in links
    ensures forall n :: n in AfterLinkDel(links, name) <==> n in links && n != name
    ensures forall n <- AfterLinkDel(links, name) ::
              AfterLinkDel(links, name)[n] ==
              links[n].(master := if links[n].master == links[name].index then 0 else links[n].master)
    ensures forall r :: r in RoutesAfterLinkDel(routes, links[name].index) <==> r in routes && r.linkIndex != links[name].index
  {
  }

  lemma AdditionInPlainTerms(links: Links, routes: set<Route>, r: Route)
    ensures CanAddRoute(links, routes, r) <==>
              && (r.linkIndex == 0 ==> r.gw.Some?)
              && (r.linkIndex != 0 ==> exists n <- links :: links[n].index == r.linkIndex && links[n].up)
              && forall c <- routes :: c.dst != r.dst || c.metric != r.metric || c.table != r.table
  {
  }

  lemma JoiningInPlainTerms(links: Links, port: Handle, bridge: Handle)
    ensures CanEnslave(links, port, bridge) <==>
              && port.name in links && links[port.name].index == port.link.index && links[port.name].kind != Bridge
              && bridge.name in links && links[bridge.name].index == bridge.link.index && links[bridge.name].kind == Bridge
  {
  }

  // A listing names every link once, with its current attributes.
  ghost predicate IsListing(hs: seq<Handle>, links: Links) {
    && (forall i | 0 <= i < |hs| :: hs[i].name in links && hs[i].link == links[hs[i].name])
    && (forall i, j | 0 <= i < j < |hs| :: hs[i].name != hs[j].name)
    && (forall n <- links :: Handle(n, links[n]) in hs)
  }

  class Kernel {
    var links: Links
    var routes: set<Route>
    var forwarding: bool
    var nextIndex: nat
    var writes: nat          // number of write requests made so far
    const reliable: bool

    ghost predicate Valid()
      reads this
    {
      && ValidLinks(links)
      && ValidRoutes(links, routes)
      && nextIndex > 0
      && (forall n <- links :: links[n].index < nextIndex)
    }

    constructor (reliable: bool)
      ensures Valid() && links == map[] && routes == {} && !forwarding && this.reliable == reliable
    {
      links, routes, forwarding, nextIndex, writes := map[], {}, false, 1, 0;
      this.reliable := reliable;
    }

    // Whether an unreliable kernel turns a request down.
    method Refuses() returns (refused: bool)
      ensures reliable ==> !refused
    {
      if reliable {
        refused := false;
      } else {
        refused := *;
      }
    }

    // ----- reading -----

    method LinkList() returns (ok: bool, hs: seq<Handle>)
      requires Valid()
      ensures reliable ==> ok
      ensures ok ==> IsListing(hs, links)
    {
      hs := [];
      var refused := Refuses();
      if refused { return false, hs; }
      var todo := links.Keys;
      while todo != {}
        invariant todo <= links.Keys
        invariant forall i | 0 <= i < |hs| :: hs[i].name in links.Keys - todo && hs[i].link == links[hs[i].name]
        invariant forall i, j | 0 <= i < j < |hs| :: hs[i].name != hs[j].name
        invariant forall n <- links.Keys - todo :: Handle(n, links[n]) in hs
        decreases todo
      {
        var n :| n in todo;
        hs := hs + [Handle(n, links[n])];
        todo := todo - {n};
      }
      ok := true;
    }

    method LinkByName(name: string) returns (ok: bool, h: Handle)
      requires Valid()
      ensures ok ==> name in links && h == Handle(name, links[name])
      ensures reliable ==> (ok <==> name in links)
    {
      h := Handle("", Link(0, Physical, 0, false, {}, 0));
      var refused := Refuses();
      if refused || name !in links { return false, h; }
      return true, Handle(name, links[name]);
    }

    method LinkByIndex(index: nat) returns (ok: bool, h: Handle)
      requires Valid()
      ensures ok ==> h.name in links && h.link == links[h.name] && h.link.index == index
      ensures reliable ==> (ok <==> HasIndex(links, index))
    {
      h := Handle("", Link(0, Physical, 0, false, {}, 0));
      var refused := Refuses();
      if refused { return false, h; }
      var todo := links.Keys;
      while todo != {}
        invariant todo <= links.Keys
        invariant forall n <- links.Keys - todo :: links[n].index != index
        decreases todo
      {
        var n :| n in todo;
        if links[n].index == index { return true, Handle(n, links[n]); }
        todo := todo - {n};
      }
      ok := false;
    }

    method AddrList(h: Handle) returns (ok: bool, addrs: seq<Addr>)
      requires Valid()
      ensures ok ==> Live(links, h) && Lists(addrs, links[h.name].addrs)
      ensures reliable ==> (ok <==> Live(links, h))
    {
      addrs := [];
      var refused := Refuses();
      if refused || !Live(links, h) { return false, addrs; }
      var todo := links[h.name].addrs;
      while todo != {}
        invariant todo <= links[h.name].addrs
        invariant Lists(addrs, links[h.name].addrs - todo)
        decreases todo
      {
        var a :| a in todo;
        ListsSnoc(addrs, links[h.name].addrs - todo, a);
        assert links[h.name].addrs - (todo - {a}) == links[h.name].addrs - todo + {a};
        addrs, todo := addrs + [a], todo - {a};
      }
      ok := true;
    }

    method RouteList() returns (ok: bool, rs: seq<Route>)
      requires Valid()
      ensures reliable ==> ok
      ensures ok ==> Lists(rs, routes)
    {
      rs := [];
      var refused := Refuses();
      if refused { return false, rs; }
      var todo := routes;
      while todo != {}
        invariant todo <= routes
        invariant Lists(rs, routes - todo)
        decreases todo
      {
        var r :| r in todo;
        ListsSnoc(rs, routes - todo, r);
        assert routes - (todo - {r}) == routes - todo + {r};
        rs, todo := rs + [r], todo - {r};
      }
      ok := true;
    }

    // ----- writing -----

    method SetForwarding(on: bool) returns (ok: bool)
      requires Valid()
      modifies this`forwarding, this`writes
      ensures Valid() && writes == old(writes) + 1
      ensures forwarding == if ok then on else old(forwarding)
      ensures reliable ==> ok
    {
      writes := writes + 1;
      var refused := Refuses();
      ok := !refused;
      if ok { forwarding := on; }
    }

    // A new link gets an index never used before.
    method LinkAdd(name: string, kind: LinkKind, mtu: int) returns (ok: bool)
      requires Valid()
      modifies this`links, this`nextIndex, this`writes
      ensures Valid() && writes == old(writes) + 1
      ensures links == if ok then old(links)[name := Link(old(nextIndex), kind, mtu, false, {}, 0)] else old(links)
      ensures ok ==> name !in old(links) && !HasIndex(old(links), old(nextIndex))
      ensures reliable ==> (ok <==> name != "" && name !in old(links))
    {
      writes := writes + 1;
      var refused := Refuses();
      ok := !refused && name != "" && name !in links;
      if ok {
        ghost var before := links;
        links, nextIndex := links[name := Link(nextIndex, kind, mtu, false, {}, 0)], nextIndex + 1;
        KeepsIndices(before, links);
      }
    }

    method LinkDel(h: Handle) returns (ok: bool)
      requires Valid()
      modifies this`links, this`routes, this`writes
      ensures Valid() && writes == old(writes) + 1
      ensures ok ==> Live(old(links), h) && links == AfterLinkDel(old(links), h.name)
      ensures ok ==> routes == RoutesAfterLinkDel(old(routes), h.link.index)
      ensures !ok ==> links == old(links) && routes == old(routes)
      ensures reliable ==> (ok <==> Live(old(links), h))
    {
      writes := writes + 1;
      var refused := Refuses();
      ok := !refused && Live(links, h);
      if ok {
        DeletionKeepsValid(links, routes, h.name);
        routes := RoutesAfterLinkDel(routes, h.link.index);
        links := AfterLinkDel(links, h.name);
      }
    }

    method LinkSetUp(h: Handle) returns (ok: bool)
      requires Valid()
      modifies this`links, this`writes
      ensures Valid() && writes == old(writes) + 1
      ensures ok ==> Live(old(links), h) && links == old(links)[h.name := old(links)[h.name].(up := true)]
      ensures !ok ==> links == old(links)
      ensures reliable ==> (ok <==> Live(old(links), h))
    {
      ok := Update(h, (l: Link) => l.(up := true));
    }

    method LinkSetDown(h: Handle) returns (ok: bool)
      requires Valid()
      modifies this`links, this`writes
      ensures Valid() && writes == old(writes) + 1
      ensures ok ==> Live(old(links), h) && links == old(links)[h.name := old(links)[h.name].(up := false)]
      ensures !ok ==> links == old(links)
      ensures reliable ==> (ok <==> Live(old(links), h))
    {
      ok := Update(h, (l: Link) => l.(up := false));
    }

    method LinkSetMTU(h: Handle, mtu: int) returns (ok: bool)
      requires Valid()
      modifies this`links, this`writes
      ensures Valid() && writes == old(writes) + 1
      ensures ok ==> Live(old(links), h) && links == old(links)[h.name := old(links)[h.name].(mtu := mtu)]
      ensures !ok ==> links == old(links)
      ensures reliable ==> (ok <==> Live(old(links), h))
    {
      ok := Update(h, (l: Link) => l.(mtu := mtu));
    }

    method LinkSetMaster(h: Handle, bridge: Handle) returns (ok: bool)
      requires Valid()
      modifies this`links, this`writes
      ensures Valid() && writes == old(writes) + 1
      ensures ok ==> CanEnslave(old(links), h, bridge)
      ensures ok ==> links == old(links)[h.name := old(links)[h.name].(master := bridge.link.index)]
      ensures !ok ==> links == old(links)
      ensures reliable ==> (ok <==> CanEnslave(old(links), h, bridge))
    {
      if CanEnslave(links, h, bridge) {
        ok := Update(h, (l: Link) => l.(master := bridge.link.index));
      } else {
        writes, ok := writes + 1, false;
      }
    }

    method LinkSetNoMaster(h: Handle) returns (ok: bool)
      requires Valid()
      modifies this`links, this`writes
      ensures Valid() && writes == old(writes) + 1
      ensures ok ==> Live(old(links), h) && links == old(links)[h.name := old(links)[h.name].(master := 0)]
      ensures !ok ==> links == old(links)
      ensures reliable ==> (ok <==> Live(old(links), h))
    {
      ok := Update(h, (l: Link) => l.(master := 0));
    }

    method AddrAdd(h: Handle, a: Addr) returns (ok: bool)
      requires Valid()
      modifies this`links, this`writes
      ensures Valid() && writes == old(writes) + 1
      ensures ok ==> Live(old(links), h) && a !in old(links)[h.name].addrs
      ensures ok ==> links == old(links)[h.name := old(links)[h.name].(addrs := old(links)[h.name].addrs + {a})]
      ensures !ok ==> links == old(links)
      ensures reliable ==> (ok <==> Live(old(links), h) && a !in old(links)[h.name].addrs)
    {
      if Live(links, h) && a !in links[h.name].addrs {
        ok := Update(h, (l: Link) => l.(addrs := l.addrs + {a}));
      } else {
        writes, ok := writes + 1, false;
      }
    }

    method AddrDel(h: Handle, a: Addr) returns (ok: bool)
      requires Valid()
      modifies this`links, this`writes
      ensures Valid() && writes == old(writes) + 1
      ensures ok ==> Live(old(links), h) && a in old(links)[h.name].addrs
      ensures ok ==> links == old(links)[h.name := old(links)[h.name].(addrs := old(links)[h.name].addrs - {a})]
      ensures !ok ==> links == old(links)
      ensures reliable ==> (ok <==> Live(old(links), h) && a in old(links)[h.name].addrs)
    {
      if Live(links, h) && a in links[h.name].addrs {
        ok := Update(h, (l: Link) => l.(addrs := l.addrs - {a}));
      } else {
        writes, ok := writes + 1, false;
      }
    }

    method RouteAdd(r: Route) returns (ok: bool)
      requires Valid()
      modifies this`routes, this`writes
      ensures Valid() && writes == old(writes) + 1
      ensures routes == if ok then old(routes) + {r} else old(routes)
      ensures ok ==> CanAddRoute(links, old(routes), r)
      ensures reliable ==> (ok <==> CanAddRoute(links, old(routes), r))
    {
      writes := writes + 1;
      var refused := Refuses();
      var carried := if r.linkIndex == 0 then r.gw.Some? else (exists n <- links :: links[n].index == r.linkIndex && links[n].up);
      ok := !refused && carried && (forall c <- routes :: !SameSlot(c, r));
      if ok { routes := routes + {r}; }
    }

    method RouteDel(r: Route) returns (ok: bool)
      requires Valid()
      modifies this`routes, this`writes
      ensures Valid() && writes == old(writes) + 1
      ensures routes == if ok then old(routes) - {r} else old(routes)
      ensures ok ==> r in old(routes)
      ensures reliable ==> (ok <==> r in old(routes))
    {
      writes := writes + 1;
      var refused := Refuses();
      ok := !refused && r in routes;
      if ok { routes := routes - {r}; }
    }

    // One attribute change of one live link; index and kind never change.
    method Update(h: Handle, change: Link -> Link) returns (ok: bool)
      requires Valid()
      requires forall l :: change(l).index == l.index && change(l).kind == l.kind
      requires Live(links, h) ==> var m := change(links[h.name]).master;
                 m == 0 || m == links[h.name].master || (links[h.name].kind != Bridge && IsBridgeIndex(links, m))
      modifies this`links, this`writes
      ensures Valid() && writes == old(writes) + 1
      ensures ok ==> Live(old(links), h) && links == old(links)[h.name := change(old(links)[h.name])]
      ensures !ok ==> links == old(links)
      ensures reliable ==> (ok <==> Live(old(links), h))
    {
      writes := writes + 1;
      var refused := Refuses();
      ok := !refused && Live(links, h);
      if ok {
        ghost var before := links;
        links := links[h.name := change(links[h.name])];
        KeepsIndices(before, links);
      }
    }
  }

  lemma DeletionKeepsValid(links: Links, routes: set<Route>, name: string)
    requires ValidLinks(links) && ValidRoutes(links, routes) && name in links
    ensures ValidLinks(AfterLinkDel(links, name))
    ensures ValidRoutes(AfterLinkDel(links, name), RoutesAfterLinkDel(routes, links[name].index))
  {
    var after := AfterLinkDel(links, name);
    forall n | n in after && after[n].master != 0 ensures IsBridgeIndex(after, after[n].master) {
      var b :| b in links && links[b].index == links[n].master && links[b].kind == Bridge;
      assert b in after;
    }
    forall r <- RoutesAfterLinkDel(routes, links[name].index) | r.linkIndex != 0 ensures HasIndex(after, r.linkIndex) {
      var n :| n in links && links[n].index == r.linkIndex;
      assert n in after;
    }
  }

  // Links that survive with index and kind are still found under their index.
  lemma KeepsIndices(before: Links, after: Links)
    requires forall n <- before :: n in after && after[n].index == before[n].index && after[n].kind == before[n].kind
    ensures forall i | HasIndex(before, i) :: HasIndex(after, i)
    ensures forall i | IsBridgeIndex(before, i) :: IsBridgeIndex(after, i)
  {
    forall i | HasIndex(before, i) ensures HasIndex(after, i) {
      var n :| n in before && before[n].index == i;
      assert n in after;
    }
    forall i | IsBridgeIndex(before, i) ensures IsBridgeIndex(after, i) {
      var n :| n in before && before[n].index == i && before[n].kind == Bridge;
      assert n in after;
    }
  }
}
