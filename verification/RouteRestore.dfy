// What rolling back the routing table means (system/snapshot_manager.go, rollbackRoutes), and when
// the table lands exactly on the snapshot.
module RouteRestore {
  import opened Kernel
  import opened Snapshot

  // Kernel and link-scope routes are never deleted.
  predicate Protected(r: Route) {
    r.protocol == RTPROT_KERNEL || r.scope == SCOPE_LINK
  }

  ghost predicate Recorded(links: Links, snaps: seq<RouteSnap>, r: Route) {
    Key(links, r) in SnapKeys(snaps)
  }

  ghost function Kept(links: Links, routes: set<Route>, snaps: seq<RouteSnap>): set<Route> {
    set r | r in routes && (Protected(r) || Recorded(links, snaps, r))
  }

  ghost predicate Missing(links: Links, routes: set<Route>, s: RouteSnap) {
    s.key !in Keys(links, routes)
  }

  function IndexOf(links: Links, device: string): nat {
    if device in links then links[device].index else 0
  }

  // The route a snapshot entry is turned back into; a device that is gone is dropped silently.
  function Rebuilt(links: Links, s: RouteSnap): Route {
    Route(s.key.dst, s.key.gw, IndexOf(links, s.key.device), s.key.metric, s.key.table, s.scope, 0)
  }

  predicate DeviceKnown(links: Links, s: RouteSnap) {
    s.key.device == "" || s.key.device in links
  }

  // Kept routes stay; nothing else is there except rebuilt missing routes that links can carry, each
  // alone in its slot; and such a route is absent only when another occupies its slot.
  ghost predicate RoutesRolledBack(links: Links, was: set<Route>, snaps: seq<RouteSnap>, all: seq<RouteSnap>, now: set<Route>) {
    && Kept(links, was, all) <= now
    && (forall r <- now - Kept(links, was, all) :: exists s <- snaps :: Missing(links, was, s) && r == Rebuilt(links, s))
    && (forall r <- now - Kept(links, was, all) :: CanCarry(links, r))
    && (forall r, c | r in now - Kept(links, was, all) && c in now && SameSlot(c, r) :: c == r)
    && (forall s <- snaps | Missing(links, was, s) && CanCarry(links, Rebuilt(links, s)) ::
          exists r <- now :: SameSlot(r, Rebuilt(links, s)))
  }

  // A route answers to a record: destination, gateway, metric and table, and the device by name.
  lemma KeyOfRecord(links: Links, r: Route, s: RouteSnap)
    requires ValidLinks(links)
    ensures Key(links, r) == s.key <==>
            && s.key.dst == r.dst && s.key.gw == r.gw && s.key.metric == r.metric && s.key.table == r.table
            && (if s.key.device == "" then forall n <- links :: links[n].index != r.linkIndex
                else s.key.device in links && links[s.key.device].index == r.linkIndex)
  {
    if s.key.device in links { DeviceNameIs(links, s.key.device); }
    if n :| n in links && links[n].index == r.linkIndex { DeviceNameIs(links, n); }
  }

  // What stays, what goes and what comes, route by route.  A route without a device may also have come
  // back for a record whose device is gone.
  lemma RolledBackRouteByRoute(links: Links, was: set<Route>, snaps: seq<RouteSnap>, now: set<Route>)
    requires ValidLinks(links) && RoutesRolledBack(links, was, snaps, snaps, now)
    ensures forall r <- was | r.protocol == 2 || r.scope == 253 :: r in now
    ensures forall r <- was | r.protocol != 2 && r.scope != 253 && r.linkIndex != 0 ::
              r in now <==> exists s <- snaps ::
                && s.key.dst == r.dst && s.key.gw == r.gw && s.key.metric == r.metric && s.key.table == r.table
                && (if s.key.device == "" then forall n <- links :: links[n].index != r.linkIndex
                    else s.key.device in links && links[s.key.device].index == r.linkIndex)
    ensures forall r <- was | r.protocol != 2 && r.scope != 253 && r.linkIndex == 0 && r in now :: exists s <- snaps ::
              && s.key.dst == r.dst && s.key.gw == r.gw && s.key.metric == r.metric && s.key.table == r.table
              && (s.key.device == "" || s.key.device !in links)
    ensures forall r <- now | r !in was :: exists s <- snaps ::
              r == Route(s.key.dst, s.key.gw, if s.key.device in links then links[s.key.device].index else 0,
                         s.key.metric, s.key.table, s.scope, 0)
  {
    forall r | r in was && r.protocol != 2 && r.scope != 253 && r in now
      ensures exists s <- snaps :: Key(links, r) == s.key || (r == Rebuilt(links, s) && !DeviceKnown(links, s))
    {
      if r !in Kept(links, was, snaps) {
        assert r in now - Kept(links, was, snaps);
        var s :| s in snaps && Missing(links, was, s) && r == Rebuilt(links, s);
        RebuiltKey(links, s);
      }
    }
    forall r, s | r in was && s in snaps && Key(links, r) == s.key ensures r in now { assert r in Kept(links, was, snaps); }
    forall r, s | r in was && s in snaps {
      KeyOfRecord(links, r, s);
    }
    forall r | r in now && r !in was ensures exists s <- snaps :: r == Rebuilt(links, s) {
      assert r in now - Kept(links, was, snaps);
    }
  }

  lemma RecordOf(links: Links, was: set<Route>, snaps: seq<RouteSnap>, now: set<Route>, r: Route) returns (s: RouteSnap)
    requires ValidLinks(links) && RoutesRolledBack(links, was, snaps, snaps, now)
    requires r in now && r.protocol != 2 && r.scope != 253 && r.linkIndex != 0
    ensures s in snaps && s.key == Key(links, r)
  {
    if r in Kept(links, was, snaps) {
      s :| s in snaps && s.key == Key(links, r);
    } else {
      assert r in now - Kept(links, was, snaps);
      s :| s in snaps && Missing(links, was, s) && r == Rebuilt(links, s);
      RebuiltKey(links, s);
    }
  }

  // One more snapshot entry has been looked at.
  lemma RolledBackStep(links: Links, was: set<Route>, all: seq<RouteSnap>, i: nat, now: set<Route>, next: set<Route>)
    requires i < |all| && RoutesRolledBack(links, was, all[..i], all, now)
    requires !Missing(links, was, all[i]) ==> next == now
    requires Missing(links, was, all[i]) ==>
               if CanAddRoute(links, now, Rebuilt(links, all[i])) then next == now + {Rebuilt(links, all[i])} else next == now
    ensures RoutesRolledBack(links, was, all[..i + 1], all, next)
  {
    assert all[..i + 1] == all[..i] + [all[i]];
    forall r | r in next - Kept(links, was, all)
      ensures exists s <- all[..i + 1] :: Missing(links, was, s) && r == Rebuilt(links, s)
    {
      if r in now {
        assert r in now - Kept(links, was, all);
        var s :| s in all[..i] && Missing(links, was, s) && r == Rebuilt(links, s);
        assert s in all[..i + 1];
      } else {
        assert all[i] in all[..i + 1];
      }
    }
    forall s | s in all[..i + 1] && Missing(links, was, s) && CanCarry(links, Rebuilt(links, s)) ensures exists r <- next :: SameSlot(r, Rebuilt(links, s)) {
      if s in all[..i] {
        var r :| r in now && SameSlot(r, Rebuilt(links, s));
        assert r in next;
      } else if next != now {
        assert Rebuilt(links, s) in next;
      }
    }
  }

  ghost function TargetKeys(links: Links, routes: set<Route>, snaps: seq<RouteSnap>): set<RouteKey> {
    SnapKeys(snaps) + Keys(links, set r | r in routes && Protected(r))
  }

  predicate SameSlotKeys(a: RouteKey, b: RouteKey) {
    a.dst == b.dst && a.metric == b.metric && a.table == b.table
  }

  // Its device is there and up, or, naming none, it names a gateway.
  predicate Carried(links: Links, k: RouteKey) {
    if k.device == "" then k.gw.Some? else k.device in links && links[k.device].up
  }

  // A route that has to be added again: it is carried by the links as they are at this point, and
  // nothing else is wanted in its slot.
  ghost predicate CanReturn(links: Links, routes: set<Route>, snaps: seq<RouteSnap>, s: RouteSnap) {
    Carried(links, s.key) && forall k <- TargetKeys(links, routes, snaps) | SameSlotKeys(k, s.key) :: k == s.key
  }

  ghost predicate AllCanReturn(links: Links, routes: set<Route>, snaps: seq<RouteSnap>) {
    forall s <- snaps | Missing(links, routes, s) :: CanReturn(links, routes, snaps, s)
  }

  lemma DeviceNameIs(links: Links, n: string)
    requires ValidLinks(links) && n in links
    ensures DeviceName(links, links[n].index) == n
  {
    assert HasIndex(links, links[n].index);
  }

  // Whether a route is carried can be read off its key.
  lemma CarriedByKey(links: Links, r: Route)
    requires ValidLinks(links)
    ensures CanCarry(links, r) ==> Carried(links, Key(links, r))
    ensures Carried(links, Key(links, r)) && (r.linkIndex != 0 ==> HasIndex(links, r.linkIndex)) ==> CanCarry(links, r)
  {
    if r.linkIndex != 0 && HasIndex(links, r.linkIndex) {
      var n :| n in links && links[n].index == r.linkIndex;
      DeviceNameIs(links, n);
    }
  }

  lemma RebuiltIsCarried(links: Links, s: RouteSnap)
    requires ValidLinks(links) && Carried(links, s.key)
    ensures DeviceKnown(links, s) && CanCarry(links, Rebuilt(links, s))
  {
    if s.key.device != "" { assert links[s.key.device].up && links[s.key.device].index > 0; }
  }

  lemma RebuiltKey(links: Links, s: RouteSnap)
    requires ValidLinks(links)
    ensures Key(links, Rebuilt(links, s)) == s.key <==> DeviceKnown(links, s)
  {
    if s.key.device in links { DeviceNameIs(links, s.key.device); }
  }

  lemma KeptKeys(links: Links, was: set<Route>, snaps: seq<RouteSnap>, r: Route)
    requires r in Kept(links, was, snaps)
    ensures Key(links, r) in TargetKeys(links, was, snaps)
  {
    if Protected(r) {
      assert r in (set q | q in was && Protected(q));
    }
  }

  // The rolled back table has exactly the keys of the snapshot and of the protected routes if and
  // only if every route that must be added again can return.
  lemma RouteRollbackIsExact(links: Links, was: set<Route>, snaps: seq<RouteSnap>, now: set<Route>)
    requires ValidLinks(links) && RoutesRolledBack(links, was, snaps, snaps, now)
    ensures Keys(links, now) == TargetKeys(links, was, snaps) <==> AllCanReturn(links, was, snaps)
  {
    if AllCanReturn(links, was, snaps) {
      forall k | k in Keys(links, now) ensures k in TargetKeys(links, was, snaps) {
        NothingForeign(links, was, snaps, now, k);
      }
      forall k | k in TargetKeys(links, was, snaps) ensures k in Keys(links, now) {
        NothingLost(links, was, snaps, now, k);
      }
    } else {
      var s :| s in snaps && Missing(links, was, s) && !CanReturn(links, was, snaps, s);
      var k := SomethingLost(links, was, snaps, now, s);
    }
  }

  // What cannot return is lost, or displaces another recorded route.
  lemma SomethingLost(links: Links, was: set<Route>, snaps: seq<RouteSnap>, now: set<Route>, s: RouteSnap) returns (k: RouteKey)
    requires ValidLinks(links) && RoutesRolledBack(links, was, snaps, snaps, now)
    requires s in snaps && Missing(links, was, s) && !CanReturn(links, was, snaps, s)
    ensures k in SnapKeys(snaps) && k !in Keys(links, now)
  {
    k := s.key;
    if !Carried(links, s.key) {
      UncarriedIsLost(links, was, snaps, now, s);
    } else if s.key in Keys(links, now) {
      k :| k in TargetKeys(links, was, snaps) && SameSlotKeys(k, s.key) && k != s.key;
      var r :| r in now && Key(links, r) == s.key;
      assert r !in was;
      forall q | q in now ensures Key(links, q) != k { assert SameSlot(q, r) ==> q == r; }
      forall q | q in was && Protected(q) ensures Key(links, q) in Keys(links, now) {
        assert q in Kept(links, was, snaps);
      }
    }
  }

  lemma NothingForeign(links: Links, was: set<Route>, snaps: seq<RouteSnap>, now: set<Route>, k: RouteKey)
    requires ValidLinks(links) && RoutesRolledBack(links, was, snaps, snaps, now)
    requires AllCanReturn(links, was, snaps) && k in Keys(links, now)
    ensures k in TargetKeys(links, was, snaps)
  {
    var r :| r in now && Key(links, r) == k;
    if r in Kept(links, was, snaps) {
      KeptKeys(links, was, snaps, r);
    } else {
      assert r in now - Kept(links, was, snaps);
      var s :| s in snaps && Missing(links, was, s) && r == Rebuilt(links, s);
      RebuiltIsCarried(links, s);
      RebuiltKey(links, s);
    }
  }

  lemma NothingLost(links: Links, was: set<Route>, snaps: seq<RouteSnap>, now: set<Route>, k: RouteKey)
    requires ValidLinks(links) && RoutesRolledBack(links, was, snaps, snaps, now)
    requires AllCanReturn(links, was, snaps) && k in TargetKeys(links, was, snaps)
    ensures k in Keys(links, now)
  {
    if k in Keys(links, was) {
      var r :| r in was && Key(links, r) == k && (k in SnapKeys(snaps) || Protected(r));
      assert r in Kept(links, was, snaps);
    } else {
      var s :| s in snaps && s.key == k;
      RebuiltIsCarried(links, s);
      var r :| r in now && SameSlot(r, Rebuilt(links, s));
      var q := Key(links, r);
      assert q in Keys(links, now);
      NothingForeign(links, was, snaps, now, q);
      assert q == k;
    }
  }

  // A missing route whose device is gone, or down, does not come back.
  lemma UncarriedIsLost(links: Links, was: set<Route>, snaps: seq<RouteSnap>, now: set<Route>, s: RouteSnap)
    requires ValidLinks(links) && RoutesRolledBack(links, was, snaps, snaps, now)
    requires Missing(links, was, s) && !Carried(links, s.key)
    ensures s.key !in Keys(links, now)
  {
    forall r | r in now ensures Key(links, r) != s.key {
      if r !in was { CarriedByKey(links, r); }
    }
  }

  // A route whose device is gone does not come back under its own key.
  lemma DevicelessIsLost(links: Links, now: set<Route>, s: RouteSnap)
    requires !DeviceKnown(links, s)
    ensures s.key !in Keys(links, now)
  {
  }

  // Rolling back straight after capture changes no route.
  lemma RouteRollbackAfterCaptureIsIdentity(links: Links, was: set<Route>, snaps: seq<RouteSnap>, now: set<Route>)
    requires CapturesRoutes(links, was, snaps) && RoutesRolledBack(links, was, snaps, snaps, now)
    ensures now == was
  {
    forall r | r in was ensures r in now {
      assert RouteSnap(Key(links, r), r.scope).key in SnapKeys(snaps);
      assert r in Kept(links, was, snaps);
    }
    forall s | s in snaps ensures !Missing(links, was, s) {
      var q :| q in was && s == RouteSnap(Key(links, q), q.scope);
    }
    assert now - Kept(links, was, snaps) == {};
    forall r | r in now ensures r in was {
      assert r !in now - Kept(links, was, snaps);
    }
  }

  // What RestoreSnapshot leaves behind: each part inside the scope is restored, each part outside is
  // left alone, and deleting an interface takes the routes through it along.  `middle` is the
  // routing table between the two.
  ghost predicate RestoredTo(links: Links, routes: set<Route>, forwarding: bool, snap: SystemSnapshot, scope: seq<string>,
                             middle: set<Route>, links': Links, routes': set<Route>, forwarding': bool)
  {
    var withRoutes, withLinks := "routes" in scope || "all" in scope, "interfaces" in scope || "all" in scope;
    && forwarding' == (if "ipforward" in scope || "all" in scope then snap.forwarding else forwarding)
    && links' == (if withLinks then RestoredLinks(links, snap.interfaces) else links)
    && (if withRoutes then RoutesRolledBack(links, routes, snap.routes, snap.routes, middle) else middle == routes)
    && routes' == (if withLinks then WithoutRoutes(links, middle, Unknown(links, snap.interfaces)) else middle)
  }

  ghost predicate Through(links: Links, gone: set<string>, r: Route) {
    IndexOfGone(links, gone, r.linkIndex)
  }

  // A surviving link keeps its index, so routes keep their keys.
  lemma KeySurvives(links: Links, snaps: IfaceSnaps, r: Route)
    requires ValidLinks(links) && !Through(links, Unknown(links, snaps), r)
    ensures Key(RestoredLinks(links, snaps), r) == Key(links, r)
  {
    var links' := RestoredLinks(links, snaps);
    RestoredValid(links, snaps);
    var n, n' := DeviceName(links, r.linkIndex), DeviceName(links', r.linkIndex);
    if n != "" {
      assert n !in Unknown(links, snaps);
      RestoredAttributes(links, snaps, n);
      DeviceNameIs(links', n);
    } else if n' != "" {
      RestoredAttributes(links, snaps, n');
      DeviceNameIs(links, n');
    }
  }

  // Equal keys name the same device, so deletion of links takes both routes or neither.
  lemma SameKeySameFate(links: Links, snaps: IfaceSnaps, a: Route, b: Route)
    requires ValidLinks(links) && Key(links, a) == Key(links, b)
    ensures Through(links, Unknown(links, snaps), a) ==> Through(links, Unknown(links, snaps), b)
  {
    if Through(links, Unknown(links, snaps), a) {
      var g :| g in Unknown(links, snaps) && g in links && links[g].index == a.linkIndex;
      DeviceNameIs(links, g);
    }
  }

  // A route of the snapshot does not run through a link created since.
  lemma CapturedAvoidsUnknown(before: Links, routes: set<Route>, forwarding: bool, snap: SystemSnapshot, now: Links, r: Route)
    requires ValidLinks(now) && Captures(before, routes, forwarding, snap) && Key(now, r) in SnapKeys(snap.routes)
    ensures !Through(now, Unknown(now, snap.interfaces), r)
  {
    forall n | n in before ensures Survives(snap.interfaces, n) {
      assert n != LOOPBACK ==> CapturesLink(before, n, snap.interfaces[n]);
    }
    var s :| s in snap.routes && s.key == Key(now, r);
    var q :| q in routes && s == RouteSnap(Key(before, q), q.scope);
    if Through(now, Unknown(now, snap.interfaces), r) {
      var g :| g in Unknown(now, snap.interfaces) && g in now && now[g].index == r.linkIndex;
      DeviceNameIs(now, g);
    }
  }

  ghost function ProtectedLeft(now: Links, routes: set<Route>, snaps: IfaceSnaps): set<Route> {
    set r | r in routes && Protected(r) && !Through(now, Unknown(now, snaps), r)
  }

  ghost function FullTarget(now: Links, routes: set<Route>, snap: SystemSnapshot, links': Links): set<RouteKey> {
    SnapKeys(snap.routes) + Keys(links', ProtectedLeft(now, routes, snap.interfaces))
  }

  // What is left after the interfaces was there before, under the same key.
  lemma KeysLeft(now: Links, snaps: IfaceSnaps, middle: set<Route>)
    requires ValidLinks(now)
    ensures var links', routes' := RestoredLinks(now, snaps), WithoutRoutes(now, middle, Unknown(now, snaps));
            && (forall r <- routes' :: r in middle && Key(links', r) == Key(now, r))
            && Keys(links', routes') <= Keys(now, middle)
  {
    var links', routes' := RestoredLinks(now, snaps), WithoutRoutes(now, middle, Unknown(now, snaps));
    forall r | r in routes' ensures r in middle && Key(links', r) == Key(now, r) { KeySurvives(now, snaps, r); }
    forall k | k in Keys(links', routes') ensures k in Keys(now, middle) {
      var r :| r in routes' && Key(links', r) == k;
      assert r in middle && Key(now, r) == k;
    }
  }

  // A full rollback: whatever happened since the capture, the routing table ends with exactly the
  // captured keys and those of the protected routes whose links are still there, if and only if every
  // route that must be added again can return.
  lemma FullRollbackRestoresRoutes(before: Links, wasRoutes: set<Route>, wasForwarding: bool, snap: SystemSnapshot,
                                   now: Links, routes: set<Route>, forwarding: bool,
                                   middle: set<Route>, links': Links, routes': set<Route>, forwarding': bool)
    requires ValidLinks(before) && Captures(before, wasRoutes, wasForwarding, snap)
    requires ValidLinks(now) && RestoredTo(now, routes, forwarding, snap, ["all"], middle, links', routes', forwarding')
    ensures Keys(links', routes') == FullTarget(now, routes, snap, links') <==> AllCanReturn(now, routes, snap.routes)
  {
    KeysLeft(now, snap.interfaces, middle);
    if AllCanReturn(now, routes, snap.routes) {
      forall k | k in Keys(links', routes') ensures k in FullTarget(now, routes, snap, links') {
        NothingForeignLeft(now, routes, snap, middle, k);
      }
      forall k | k in FullTarget(now, routes, snap, links') ensures k in Keys(links', routes') {
        NothingLostLeft(before, wasRoutes, wasForwarding, snap, now, routes, middle, k);
      }
    } else {
      var s :| s in snap.routes && Missing(now, routes, s) && !CanReturn(now, routes, snap.routes, s);
      var k := SomethingLost(now, routes, snap.routes, middle, s);
    }
  }

  lemma NothingForeignLeft(now: Links, routes: set<Route>, snap: SystemSnapshot, middle: set<Route>, k: RouteKey)
    requires ValidLinks(now) && RoutesRolledBack(now, routes, snap.routes, snap.routes, middle)
    requires AllCanReturn(now, routes, snap.routes)
    requires k in Keys(RestoredLinks(now, snap.interfaces), WithoutRoutes(now, middle, Unknown(now, snap.interfaces)))
    ensures k in FullTarget(now, routes, snap, RestoredLinks(now, snap.interfaces))
  {
    var snaps := snap.interfaces;
    var links', routes' := RestoredLinks(now, snaps), WithoutRoutes(now, middle, Unknown(now, snaps));
    KeysLeft(now, snaps, middle);
    var r :| r in routes' && Key(links', r) == k;
    NothingForeign(now, routes, snap.routes, middle, k);
    if k !in SnapKeys(snap.routes) {
      var p :| p in routes && Protected(p) && Key(now, p) == k;
      SameKeySameFate(now, snaps, p, r);
      assert p in ProtectedLeft(now, routes, snaps);
      KeySurvives(now, snaps, p);
    }
  }

  lemma NothingLostLeft(before: Links, wasRoutes: set<Route>, wasForwarding: bool, snap: SystemSnapshot,
                        now: Links, routes: set<Route>, middle: set<Route>, k: RouteKey)
    requires Captures(before, wasRoutes, wasForwarding, snap)
    requires ValidLinks(now) && RoutesRolledBack(now, routes, snap.routes, snap.routes, middle)
    requires AllCanReturn(now, routes, snap.routes)
    requires k in FullTarget(now, routes, snap, RestoredLinks(now, snap.interfaces))
    ensures k in Keys(RestoredLinks(now, snap.interfaces), WithoutRoutes(now, middle, Unknown(now, snap.interfaces)))
  {
    var snaps := snap.interfaces;
    var links', routes' := RestoredLinks(now, snaps), WithoutRoutes(now, middle, Unknown(now, snaps));
    KeysLeft(now, snaps, middle);
    if k in SnapKeys(snap.routes) {
      NothingLost(now, routes, snap.routes, middle, k);
      var r :| r in middle && Key(now, r) == k;
      CapturedAvoidsUnknown(before, wasRoutes, wasForwarding, snap, now, r);
      assert r in routes';
    } else {
      var p :| p in ProtectedLeft(now, routes, snaps) && Key(links', p) == k;
      assert p in Kept(now, routes, snap.routes);
      assert p in routes';
    }
  }
}
