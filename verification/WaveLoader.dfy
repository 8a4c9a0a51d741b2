// Loading plugins in waves until no further plugin's services are ready (daemon/server.go,
// loadPlugins, canLoadPlugin, loadSinglePlugin).
module WaveLoader {
  import opened Basics
  import opened ServiceRegistry

  // How a plugin behaves: whether its binary can be started, its namespace and services, whether it
  // has any configuration to apply, and whether it takes it.
  datatype Plugin = Plugin(startable: bool, namespace: string, offers: seq<string>, needs: seq<string>,
                           configured: bool, accepts: bool)

  type Plugins = map<string, Plugin>

  // Loading it makes its services ready.  A plugin without configuration loads, but its services
  // never become ready.
  predicate Contributes(p: Plugin) {
    p.startable && p.configured && p.accepts
  }

  // No two plugins share a namespace or a service.
  ghost predicate Distinct(ps: Plugins) {
    && (forall a <- ps :: NoDup(ps[a].offers))
    && (forall a, b | a in ps && b in ps && a != b ::
          ps[a].namespace != ps[b].namespace && Elems(ps[a].offers) !! Elems(ps[b].offers))
  }

  // ----- the least fixpoint -----

  // A set of services closed under loading whatever plugin has its needs met.
  ghost predicate Closed(ps: Plugins, ready: set<string>) {
    forall n | n in ps && Contributes(ps[n]) && Elems(ps[n].needs) <= ready :: Elems(ps[n].offers) <= ready
  }

  ghost predicate Least(ps: Plugins, ready: set<string>) {
    Closed(ps, ready) && forall other | Closed(ps, other) :: ready <= other
  }

  // The services made ready by loading these plugins.
  ghost function Made(ps: Plugins, loaded: seq<string>): set<string>
    requires forall n <- loaded :: n in ps
  {
    set n, s | n in loaded && Contributes(ps[n]) && s in ps[n].offers :: s
  }

  // The services these plugins claim.
  ghost function Claimed(ps: Plugins, loaded: seq<string>): set<string>
    requires forall n <- loaded :: n in ps
  {
    set n, s | n in loaded && s in ps[n].offers :: s
  }

  lemma MadeSnoc(ps: Plugins, loaded: seq<string>, n: string)
    requires n in ps && forall m <- loaded :: m in ps
    ensures Made(ps, loaded + [n]) == Made(ps, loaded) + if Contributes(ps[n]) then Elems(ps[n].offers) else {}
    ensures Claimed(ps, loaded + [n]) == Claimed(ps, loaded) + Elems(ps[n].offers)
  {
    assert n in loaded + [n];
    forall m | m in loaded ensures m in loaded + [n] {}
  }

  // Each plugin was loaded when everything it needs had been made ready by those before it.
  ghost predicate InTime(ps: Plugins, loaded: seq<string>) {
    && (forall n <- loaded :: n in ps)
    && forall i | 0 <= i < |loaded| :: ps[loaded[i]].startable && Elems(ps[loaded[i]].needs) <= Made(ps, loaded[..i])
  }

  lemma InTimeSnoc(ps: Plugins, loaded: seq<string>, n: string)
    requires InTime(ps, loaded) && n in ps && ps[n].startable && Elems(ps[n].needs) <= Made(ps, loaded)
    ensures InTime(ps, loaded + [n])
  {
    var more := loaded + [n];
    forall i | 0 <= i < |more| ensures ps[more[i]].startable && Elems(ps[more[i]].needs) <= Made(ps, more[..i]) {
      assert more[..i] == loaded[..i];
      if i == |loaded| { assert loaded[..i] == loaded; }
    }
  }

  // Nothing is made ready beyond any closed set.
  lemma {:induction false} MadeIsMinimal(ps: Plugins, loaded: seq<string>, other: set<string>)
    requires InTime(ps, loaded) && Closed(ps, other)
    ensures Made(ps, loaded) <= other
  {
    if loaded != [] {
      var front, n := loaded[..|loaded| - 1], loaded[|loaded| - 1];
      assert loaded == front + [n];
      forall i | 0 <= i < |front| ensures ps[front[i]].startable && Elems(ps[front[i]].needs) <= Made(ps, front[..i]) {
        assert loaded[..i] == front[..i] && loaded[i] == front[i];
      }
      MadeIsMinimal(ps, front, other);
      MadeSnoc(ps, front, n);
      assert loaded[..|loaded| - 1] == front;
    }
  }

  predicate CanLoad(p: Plugin, ready: set<string>) {
    p.startable && forall s <- p.needs :: s in ready
  }

  // When every plugin left over is blocked, what has been made ready is the least fixpoint.
  lemma BlockedIsLeast(ps: Plugins, loaded: seq<string>)
    requires InTime(ps, loaded)
    requires forall n <- ps :: n in loaded || !CanLoad(ps[n], Made(ps, loaded))
    ensures Least(ps, Made(ps, loaded))
    ensures forall n <- ps :: n in loaded <==> CanLoad(ps[n], Made(ps, loaded))
  {
    var ready := Made(ps, loaded);
    forall n | n in ps && Contributes(ps[n]) && Elems(ps[n].needs) <= ready ensures Elems(ps[n].offers) <= ready {
      assert CanLoad(ps[n], ready);
      assert n in loaded;
    }
    forall other | Closed(ps, other) ensures ready <= other { MadeIsMinimal(ps, loaded, other); }
    forall n | n in loaded ensures CanLoad(ps[n], ready) {
      var i :| 0 <= i < |loaded| && loaded[i] == n;
      MadeGrows(ps, loaded, i);
    }
  }

  // The order in which plugins are tried does not matter: two complete loads make the same services
  // ready and load the same plugins.
  lemma OrderOfPluginsIsIrrelevant(ps: Plugins, a: seq<string>, b: seq<string>)
    requires InTime(ps, a) && forall n <- ps :: n in a || !CanLoad(ps[n], Made(ps, a))
    requires InTime(ps, b) && forall n <- ps :: n in b || !CanLoad(ps[n], Made(ps, b))
    ensures Made(ps, a) == Made(ps, b) && Elems(a) == Elems(b)
  {
    BlockedIsLeast(ps, a);
    BlockedIsLeast(ps, b);
  }

  lemma MadeGrows(ps: Plugins, loaded: seq<string>, i: nat)
    requires i <= |loaded| && forall n <- loaded :: n in ps
    ensures Made(ps, loaded[..i]) <= Made(ps, loaded)
  {
  }

  // In plain terms: what is ready is what the loaded plugins offer that have a configuration and take
  // it; loaded is what can be started and has its needs ready; and less cannot be ready.
  lemma LoadedInPlainTerms(ps: Plugins, loaded: seq<string>)
    requires InTime(ps, loaded) && forall n <- ps :: n in loaded || !CanLoad(ps[n], Made(ps, loaded))
    ensures forall n <- ps :: n in loaded <==> ps[n].startable && forall s <- ps[n].needs :: s in Made(ps, loaded)
    ensures forall s :: s in Made(ps, loaded) <==>
                        exists n <- loaded :: ps[n].configured && ps[n].accepts && s in ps[n].offers
    ensures forall other: set<string> |
              (forall n <- ps, s <- ps[n].offers | ps[n].startable && ps[n].configured && ps[n].accepts &&
                                                   (forall t <- ps[n].needs :: t in other) :: s in other) ::
              Made(ps, loaded) <= other
  {
    BlockedIsLeast(ps, loaded);
    forall n | n in loaded ensures ps[n].startable { assert CanLoad(ps[n], Made(ps, loaded)); }
    forall other: set<string> |
      (forall n <- ps, s <- ps[n].offers | ps[n].startable && ps[n].configured && ps[n].accepts &&
                                           (forall t <- ps[n].needs :: t in other) :: s in other)
      ensures Made(ps, loaded) <= other
    {
      forall n | n in ps && Contributes(ps[n]) && Elems(ps[n].needs) <= other ensures Elems(ps[n].offers) <= other {
        forall t | t in ps[n].needs ensures t in other { assert t in Elems(ps[n].needs); }
      }
      MadeIsMinimal(ps, loaded, other);
    }
  }

  lemma DistinctInPlainTerms(ps: Plugins)
    ensures Distinct(ps) <==>
              && (forall a, i, j | a in ps && 0 <= i < j < |ps[a].offers| :: ps[a].offers[i] != ps[a].offers[j])
              && (forall a, b | a in ps && b in ps && a != b :: ps[a].namespace != ps[b].namespace)
              && (forall a, b, s | a in ps && b in ps && a != b && s in ps[a].offers :: s !in ps[b].offers)
  {
    forall a, b, s | a in ps && b in ps && a != b && s in ps[a].offers && Distinct(ps) ensures s !in ps[b].offers {
      assert s in Elems(ps[a].offers) && s !in Elems(ps[b].offers);
    }
  }

  // ----- the loader -----

  class Loader {
    const plugins: Plugins            // the enabled plugins
    const services: ServiceRegistry
    var registered: set<string>       // namespaces in the plugin registry

    constructor (plugins: Plugins, services: ServiceRegistry)
      ensures this.plugins == plugins && this.services == services && registered == {}
    {
      this.plugins, this.services, registered := plugins, services, {};
    }

    // The registries hold exactly what the loaded plugins put there, if nobody conflicts.
    ghost predicate Tracks(loaded: seq<string>)
      reads this, services, services.pool
    {
      && services.Valid()
      && (forall n <- loaded :: n in plugins)
      && (Distinct(plugins) ==>
            && services.Ready() == Made(plugins, loaded)
            && services.serviceProviders.Keys == Claimed(plugins, loaded)
            && registered == set n | n in loaded :: plugins[n].namespace)
    }

    method CanLoadPlugin(name: string) returns (can: bool)
      requires name in plugins
      ensures can == CanLoad(plugins[name], services.Ready())
    {
      var p := plugins[name];
      if !p.startable { return false; }
      if p.needs == [] { return true; }
      can := services.AreServicesReady(p.needs);
      assert Elems(p.needs) <= services.Ready() <==> forall s <- p.needs :: s in services.Ready() by {
        assert forall s :: s in Elems(p.needs) <==> s in p.needs;
      }
    }

    // Register the plugin, register its services, apply its configuration, mark its services ready.
    method LoadSinglePlugin(name: string, ghost loaded: seq<string>) returns (ok: bool)
      requires name in plugins && name !in loaded && Tracks(loaded) && plugins[name].startable
      modifies this`registered, services, services.pool
      ensures Tracks(loaded + [name]) && fresh(services.pool - old(services.pool))
      ensures Distinct(plugins) ==> (ok <==> !plugins[name].configured || plugins[name].accepts)
      ensures !ok ==> services.Ready() == old(services.Ready())
    {
      var p := plugins[name];
      MadeSnoc(plugins, loaded, name);
      ok := RegisterEverywhere(name, loaded);
      if ok && p.configured {
        if !p.accepts { return false; }
        MarkAllReady(p.offers);
      }
    }

    // A plugin whose services conflict is taken out of the plugin registry again.
    method RegisterEverywhere(name: string, ghost loaded: seq<string>) returns (ok: bool)
      requires name in plugins && name !in loaded && Tracks(loaded)
      modifies this`registered, services
      ensures services.Valid() && fresh(services.pool - old(services.pool))
      ensures services.Ready() == old(services.Ready())
      ensures ok ==> forall s <- plugins[name].offers :: s in services.serviceProviders
      ensures Distinct(plugins) ==>
                && ok && registered == old(registered) + {plugins[name].namespace}
                && services.serviceProviders.Keys == old(services.serviceProviders.Keys) + Elems(plugins[name].offers)
    {
      var p := plugins[name];
      if p.namespace in registered { return false; }
      registered := registered + {p.namespace};
      ghost var known := services.serviceProviders.Keys;
      ghost var n;
      ok, n := services.RegisterPlugin(p.namespace, p.offers);
      if Distinct(plugins) { ServicesAreNew(loaded, name, known, n); }
      if !ok {
        registered := registered - {p.namespace};
        return;
      }
      assert p.offers[..n] == p.offers;
    }

    lemma ServicesAreNew(loaded: seq<string>, name: string, known: set<string>, n: nat)
      requires Distinct(plugins) && name in plugins && name !in loaded && forall m <- loaded :: m in plugins
      requires known == Claimed(plugins, loaded) && NewUpTo(known, plugins[name].offers, n)
      ensures n == |plugins[name].offers|
    {
      AllNew(known, plugins[name].offers, n);
    }

    method MarkAllReady(names: seq<string>)
      requires services.Valid() && forall s <- names :: s in services.serviceProviders
      modifies services`serviceReady, services.pool
      ensures services.Valid() && services.Ready() == old(services.Ready()) + Elems(names)
    {
      for i := 0 to |names|
        invariant services.Valid() && services.Ready() == old(services.Ready()) + Elems(names[..i])
      {
        ElemsOfPrefix(names, i);
        assert names[i] in names;
        services.MarkServiceReady(names[i]);
      }
      assert names[..|names|] == names;
    }

    // Waves over the enabled plugins in a fixed but arbitrary order, until all are loaded or a wave
    // loads nothing.
    method LoadPlugins(enabledPlugins: seq<string>) returns (ghost loaded: seq<string>, waves: nat)
      requires Lists(enabledPlugins, plugins.Keys) && services.Valid()
      requires services.serviceProviders == map[] && services.Ready() == {} && registered == {}
      modifies this`registered, services, services.pool
      ensures NoDup(loaded) && waves <= |enabledPlugins|
      ensures services.Valid()
      ensures Distinct(plugins) ==>
                && InTime(plugins, loaded)
                && Least(plugins, services.Ready())
                && (forall n <- plugins :: n in loaded <==> CanLoad(plugins[n], services.Ready()))
      ensures Distinct(plugins) ==>
                && (forall n <- plugins :: n in loaded <==> plugins[n].startable && forall s <- plugins[n].needs :: s in services.Ready())
                && (forall s :: s in services.Ready() <==>
                                exists n <- loaded :: n in plugins && plugins[n].configured && plugins[n].accepts && s in plugins[n].offers)
                && (forall other: set<string> |
                      (forall n <- plugins, s <- plugins[n].offers |
                         plugins[n].startable && plugins[n].configured && plugins[n].accepts &&
                         (forall t <- plugins[n].needs :: t in other) :: s in other) ::
                      services.Ready() <= other)
    {
      loaded := [];
      var loadedPlugins: set<string> := {};
      waves := 0;
      NoDupCardinality(enabledPlugins);
      while |loadedPlugins| < |enabledPlugins|
        invariant Lists(loaded, loadedPlugins) && loadedPlugins <= plugins.Keys
        invariant Tracks(loaded) && (Distinct(plugins) ==> InTime(plugins, loaded))
        invariant fresh(services.pool - old(services.pool))
        invariant waves <= |loadedPlugins|
        decreases |enabledPlugins| - |loadedPlugins|
      {
        ghost var had := loadedPlugins;
        var loadedThisWave;
        loaded, loadedPlugins, loadedThisWave := Wave(enabledPlugins, loaded, loadedPlugins);
        waves := waves + 1;
        Grows(had, loadedPlugins);
        if loadedThisWave == 0 && loadedPlugins != plugins.Keys {
          if Distinct(plugins) {
            BlockedIsLeast(plugins, loaded);
            LoadedInPlainTerms(plugins, loaded);
          }
          return;
        }
      }
      SameSize(loadedPlugins, plugins.Keys);
      if Distinct(plugins) {
        forall n | n in plugins ensures n in loaded { assert n in Elems(loaded); }
        BlockedIsLeast(plugins, loaded);
        LoadedInPlainTerms(plugins, loaded);
      }
    }

    // One wave.  If it loads nothing successfully, every plugin left over is blocked.
    method Wave(enabledPlugins: seq<string>, ghost loaded: seq<string>, loadedPlugins: set<string>)
      returns (ghost loaded': seq<string>, loadedPlugins': set<string>, count: nat)
      requires Lists(enabledPlugins, plugins.Keys) && Lists(loaded, loadedPlugins) && loadedPlugins <= plugins.Keys
      requires Tracks(loaded) && (Distinct(plugins) ==> InTime(plugins, loaded))
      modifies this`registered, services, services.pool
      ensures Lists(loaded', loadedPlugins') && loadedPlugins <= loadedPlugins' <= plugins.Keys
      ensures Tracks(loaded') && (Distinct(plugins) ==> InTime(plugins, loaded'))
      ensures fresh(services.pool - old(services.pool))
      ensures count > 0 ==> loadedPlugins < loadedPlugins'
      ensures loadedPlugins' == loadedPlugins ==> loaded' == loaded
      ensures count == 0 && Distinct(plugins) ==>
                forall n <- plugins :: n in loaded' || !CanLoad(plugins[n], Made(plugins, loaded'))
    {
      loaded', loadedPlugins', count := loaded, loadedPlugins, 0;
      for i := 0 to |enabledPlugins|
        invariant Lists(loaded', loadedPlugins') && loadedPlugins <= loadedPlugins' <= plugins.Keys
        invariant Tracks(loaded') && (Distinct(plugins) ==> InTime(plugins, loaded'))
        invariant fresh(services.pool - old(services.pool))
        invariant count > 0 ==> loadedPlugins < loadedPlugins'
        invariant loadedPlugins' == loadedPlugins ==> loaded' == loaded
        invariant count == 0 ==> services.Ready() == old(services.Ready())
        invariant count == 0 ==> forall j | 0 <= j < i ::
                    enabledPlugins[j] in loadedPlugins' || !CanLoad(plugins[enabledPlugins[j]], old(services.Ready()))
      {
        var name := enabledPlugins[i];
        assert name in Elems(enabledPlugins);
        if name in loadedPlugins' { continue; }
        var can := CanLoadPlugin(name);
        if !can { continue; }
        assert name !in Elems(loaded');
        if Distinct(plugins) { InTimeSnoc(plugins, loaded', name); }
        var ok := LoadSinglePlugin(name, loaded');
        ListsSnoc(loaded', loadedPlugins', name);
        loaded', loadedPlugins' := loaded' + [name], loadedPlugins' + {name};
        if ok { count := count + 1; }
      }
      if count == 0 {
        forall n | n in plugins ensures n in loaded' || !CanLoad(plugins[n], old(services.Ready())) {
          assert n in Elems(enabledPlugins);
          var j :| 0 <= j < |enabledPlugins| && enabledPlugins[j] == n;
          assert n in loadedPlugins' ==> n in Elems(loaded');
        }
      }
    }
  }

  lemma Grows(a: set<string>, b: set<string>)
    requires a <= b
    ensures |a| <= |b| && (a < b ==> |a| < |b|)
  {
    if a < b {
      var x :| x in b && x !in a;
      Grows(a, b - {x});
    } else {
      assert a == b;
    }
  }

  lemma SameSize(a: set<string>, b: set<string>)
    requires a <= b && |a| >= |b|
    ensures a == b
  {
    Grows(a, b);
  }
}
