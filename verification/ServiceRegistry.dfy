// Which plugin provides which service, and which services are ready (daemon/service_registry.go).
module ServiceRegistry {
  import opened Basics

  // A ready channel carries no values; closing it wakes whoever waits.
  class Channel {
    var closed: bool

    constructor ()
      ensures !closed
    {
      closed := false;
    }

    // Closing a closed channel panics.
    method Close() returns (panics: bool)
      modifies this
      ensures panics == old(closed) && closed
    {
      panics, closed := closed, true;
    }
  }

  // The first n services are new to the registry and to each other, and the next one, if any, is not.
  ghost predicate NewUpTo(known: set<string>, services: seq<string>, n: nat) {
    && n <= |services| && NoDup(services[..n]) && Elems(services[..n]) !! known
    && (n < |services| ==> services[n] in known + Elems(services[..n]))
  }

  // All services can be registered exactly when they are distinct and new.
  lemma AllNew(known: set<string>, services: seq<string>, n: nat)
    requires NewUpTo(known, services, n)
    ensures n == |services| <==> NoDup(services) && Elems(services) !! known
  {
    if n == |services| {
      assert services[..n] == services;
    } else if services[n] in Elems(services[..n]) {
      var i :| 0 <= i < n && services[i] == services[n];
    } else {
      assert services[n] in Elems(services);
    }
  }

  function ProvidedBy(services: seq<string>, ns: string): map<string, string> {
    map s | s in services :: ns
  }

  // Registering services in plain terms: all are registered if they are new and none is repeated, the
  // registered ones belong to the plugin from then on, and the others to whom they belonged.
  lemma RegisteredInPlainTerms(providers: map<string, string>, services: seq<string>, n: nat, ns: string)
    requires NewUpTo(providers.Keys, services, n)
    ensures n == |services| <==> (forall i, j | 0 <= i < j < |services| :: services[i] != services[j]) &&
                                 forall s <- services :: s !in providers
    ensures var after := providers + ProvidedBy(services[..n], ns);
            && (forall i | 0 <= i < n :: services[i] in after && after[services[i]] == ns)
            && (forall s <- providers :: s in after && after[s] == providers[s])
            && (forall s <- after :: s in providers || s in services[..n])
  {
    AllNew(providers.Keys, services, n);
    forall s ensures s in services <==> s in Elems(services) {}
    forall i | 0 <= i < n ensures services[i] in services[..n] { assert services[..n][i] == services[i]; }
    forall s | s in providers ensures s !in services[..n] { assert s in services[..n] <==> s in Elems(services[..n]); }
  }

  lemma ProvidedStep(providers: map<string, string>, services: seq<string>, i: nat, ns: string)
    requires i < |services|
    ensures (providers + ProvidedBy(services[..i], ns))[services[i] := ns] == providers + ProvidedBy(services[..i + 1], ns)
    ensures (providers + ProvidedBy(services[..i], ns)).Keys == providers.Keys + Elems(services[..i])
    ensures services[..i + 1] == services[..i] + [services[i]]
  {
  }

  lemma NothingProvided(providers: map<string, string>, ns: string)
    ensures providers + ProvidedBy([], ns) == providers
  {
  }

  lemma NewUpToFirstKnown(providers: map<string, string>, services: seq<string>, n: nat, ns: string)
    requires n <= |services| && NoDup(services[..n]) && Elems(services[..n]) !! providers.Keys
    requires n < |services| ==> services[n] in providers + ProvidedBy(services[..n], ns)
    ensures NewUpTo(providers.Keys, services, n)
  {
  }

  function Appended(services: map<string, seq<string>>, ns: string, more: seq<string>): map<string, seq<string>> {
    if more == [] then services else services[ns := Of(services, ns) + more]
  }

  lemma AppendedStep(services: map<string, seq<string>>, ns: string, more: seq<string>, s: string)
    ensures var was := Appended(services, ns, more);
            was[ns := Of(was, ns) + [s]] == Appended(services, ns, more + [s])
  {
    assert Of(services, ns) + (more + [s]) == (Of(services, ns) + more) + [s];
    if more == [] { assert more + [s] == [s]; }
  }

  function NotBy(providers: map<string, string>, ns: string): map<string, string> {
    map s | s in providers && providers[s] != ns :: providers[s]
  }

  function Of(services: map<string, seq<string>>, ns: string): seq<string> {
    if ns in services then services[ns] else []
  }

  ghost function OwnedBy(providers: map<string, string>, ns: string): set<string> {
    set s | s in providers && providers[s] == ns
  }

  // The services of a plugin are the repeat-free inverse of the providers.
  ghost predicate IndexValid(providers: map<string, string>, services: map<string, seq<string>>) {
    && (forall ns <- services :: Lists(services[ns], OwnedBy(providers, ns)))
    && (forall s <- providers :: providers[s] in services)
  }

  lemma OwnedIsListed(providers: map<string, string>, services: map<string, seq<string>>, ns: string)
    requires IndexValid(providers, services)
    ensures Lists(Of(services, ns), OwnedBy(providers, ns))
  {
    if ns !in services { assert OwnedBy(providers, ns) == {}; }
  }

  lemma IndexAdd(providers: map<string, string>, services: map<string, seq<string>>, ns: string, s: string)
    requires IndexValid(providers, services) && s !in providers
    ensures IndexValid(providers[s := ns], services[ns := Of(services, ns) + [s]])
  {
    var p', s' := providers[s := ns], services[ns := Of(services, ns) + [s]];
    OwnedIsListed(providers, services, ns);
    ListsSnoc(Of(services, ns), OwnedBy(providers, ns), s);
    assert OwnedBy(p', ns) == OwnedBy(providers, ns) + {s};
    forall m | m in s' && m != ns ensures Lists(s'[m], OwnedBy(p', m)) {
      assert OwnedBy(p', m) == OwnedBy(providers, m);
    }
  }

  lemma IndexRemove(providers: map<string, string>, services: map<string, seq<string>>, ns: string)
    requires IndexValid(providers, services)
    ensures IndexValid(NotBy(providers, ns), services - {ns})
    ensures providers - Elems(Of(services, ns)) == NotBy(providers, ns)
    ensures NoDup(Of(services, ns)) && forall s <- Of(services, ns) :: s in providers
  {
    OwnedIsListed(providers, services, ns);
    forall m | m in services && m != ns ensures Lists((services - {ns})[m], OwnedBy(NotBy(providers, ns), m)) {
      assert OwnedBy(NotBy(providers, ns), m) == OwnedBy(providers, m);
    }
    forall s | s in Of(services, ns) ensures s in providers { assert s in OwnedBy(providers, ns); }
  }

  // A channel of its own for every service, closed exactly when the service is ready.
  ghost predicate ChannelsAgree(ready: map<string, bool>, channels: map<string, Channel>, pool: set<Channel>)
    reads pool
  {
    && ready.Keys == channels.Keys
    && (forall s <- channels :: channels[s] in pool)
    && (forall s, t | s in channels && t in channels && channels[s] == channels[t] :: s == t)
    && (forall s <- channels :: channels[s].closed == ready[s])
  }

  lemma MinusOneMore<V>(m: map<string, V>, gone: set<string>, s: string)
    ensures m - gone - {s} == m - (gone + {s})
  {
  }

  class ServiceRegistry {
    var serviceProviders: map<string, string>
    var pluginServices: map<string, seq<string>>
    var plugins: set<string>
    var serviceReady: map<string, bool>
    var readyChannels: map<string, Channel>
    ghost var pool: set<Channel>      // every channel ever made

    ghost predicate Valid()
      reads this, pool
    {
      && serviceProviders.Keys == serviceReady.Keys
      && IndexValid(serviceProviders, pluginServices)
      && ChannelsAgree(serviceReady, readyChannels, pool)
    }

    function ServicesOf(ns: string): seq<string>
      reads this
    {
      Of(pluginServices, ns)
    }

    ghost function Ready(): set<string>
      reads this
    {
      set s | s in serviceReady && serviceReady[s]
    }

    constructor ()
      ensures Valid() && serviceProviders == map[] && pluginServices == map[] && plugins == {} && pool == {}
      ensures Ready() == {}
    {
      serviceProviders, pluginServices, plugins, serviceReady, readyChannels := map[], map[], {}, map[], map[];
      pool := {};
    }

    // Registration stops at the first service somebody already provides; what was registered up to
    // there stays.
    method RegisterPlugin(ns: string, services: seq<string>) returns (ok: bool, ghost n: nat)
      requires Valid()
      modifies this
      ensures Valid() && fresh(pool - old(pool))
      ensures NewUpTo(old(serviceProviders.Keys), services, n) && ok == (n == |services|)
      ensures serviceProviders == old(serviceProviders) + ProvidedBy(services[..n], ns)
      ensures pluginServices == Appended(old(pluginServices), ns, services[..n])
      ensures plugins == old(plugins) + {ns} && Ready() == old(Ready())
    {
      plugins := plugins + {ns};
      ghost var provs, svcs := serviceProviders, pluginServices;
      ok, n := RegisterAll(ns, services);
      NewUpToFirstKnown(provs, services, n, ns);
      assert serviceProviders == provs + ProvidedBy(services[..n], ns);
    }

    method RegisterAll(ns: string, services: seq<string>) returns (ok: bool, ghost n: nat)
      requires Valid()
      modifies this
      ensures Valid() && fresh(pool - old(pool)) && plugins == old(plugins) && Ready() == old(Ready())
      ensures ok == (n == |services|)
      ensures n <= |services| && SoFar(old(serviceProviders), old(pluginServices), ns, services, n)
      ensures n < |services| ==> services[n] in serviceProviders
    {
      ghost var provs, svcs := serviceProviders, pluginServices;
      n := 0;
      NothingProvided(provs, ns);
      assert services[..0] == [];
      for i := 0 to |services|
        invariant i == n && Valid() && fresh(pool - old(pool)) && SoFar(provs, svcs, ns, services, i)
        invariant plugins == old(plugins) && Ready() == old(Ready())
      {
        ok := RegisterNext(ns, services, i, provs, svcs);
        if !ok { return; }
        n := n + 1;
      }
      ok := true;
    }

    // The first i services have been registered.
    ghost predicate SoFar(provs: map<string, string>, svcs: map<string, seq<string>>, ns: string, services: seq<string>, i: nat)
      requires i <= |services|
      reads this
    {
      && NoDup(services[..i]) && Elems(services[..i]) !! provs.Keys
      && serviceProviders == provs + ProvidedBy(services[..i], ns)
      && pluginServices == Appended(svcs, ns, services[..i])
    }

    method RegisterNext(ns: string, services: seq<string>, i: nat, ghost provs: map<string, string>, ghost svcs: map<string, seq<string>>)
      returns (ok: bool)
      requires Valid() && i < |services| && SoFar(provs, svcs, ns, services, i)
      modifies this
      ensures Valid() && fresh(pool - old(pool)) && plugins == old(plugins) && Ready() == old(Ready())
      ensures ok == (services[i] !in old(serviceProviders))
      ensures SoFar(provs, svcs, ns, services, if ok then i + 1 else i)
    {
      var s := services[i];
      ProvidedStep(provs, services, i, ns);
      AppendedStep(svcs, ns, services[..i], s);
      if s in serviceProviders { return false; }
      ListsSnoc(services[..i], Elems(services[..i]), s);
      assert services[..i + 1] == services[..i] + [s];
      RegisterService(ns, s);
      ok := true;
    }

    method RegisterService(ns: string, s: string)
      requires Valid() && s !in serviceProviders
      modifies this
      ensures Valid() && fresh(pool - old(pool))
      ensures serviceProviders == old(serviceProviders)[s := ns]
      ensures pluginServices == old(pluginServices)[ns := old(ServicesOf(ns)) + [s]]
      ensures plugins == old(plugins) && Ready() == old(Ready())
    {
      IndexAdd(serviceProviders, pluginServices, ns, s);
      serviceProviders := serviceProviders[s := ns];
      pluginServices := pluginServices[ns := ServicesOf(ns) + [s]];
      AddChannel(s);
    }

    method AddChannel(s: string)
      requires ChannelsAgree(serviceReady, readyChannels, pool) && s !in serviceReady
      modifies this`serviceReady, this`readyChannels, this`pool
      ensures ChannelsAgree(serviceReady, readyChannels, pool)
      ensures fresh(pool - old(pool))
      ensures serviceReady == old(serviceReady)[s := false] && Ready() == old(Ready())
    {
      var ch := new Channel();
      serviceReady := serviceReady[s := false];
      readyChannels := readyChannels[s := ch];
      pool := pool + {ch};
    }

    // Unregistering closes the channel of every service, also of one that is ready and whose channel
    // is therefore closed: the call panics if and only if some service of the plugin is ready.
    method UnregisterPlugin(ns: string) returns (panics: bool)
      requires Valid()
      modifies this, pool
      ensures panics <==> exists s <- old(ServicesOf(ns)) :: s in old(Ready())
      ensures !panics ==>
                && Valid()
                && serviceProviders == NotBy(old(serviceProviders), ns)
                && Ready() == old(Ready()) && plugins == old(plugins) - {ns}
                && pluginServices == old(pluginServices) - {ns}
      ensures !panics ==> forall s :: s in serviceProviders <==> s in old(serviceProviders) && old(serviceProviders)[s] != ns
    {
      var services := ServicesOf(ns);
      IndexRemove(serviceProviders, pluginServices, ns);
      ghost var provs, svcs, was := NotBy(serviceProviders, ns), pluginServices - {ns}, Ready();
      panics := DropServices(services);
      if panics { return; }
      assert serviceProviders == provs && Ready() == was && serviceProviders.Keys == serviceReady.Keys;
      pluginServices := pluginServices - {ns};
      plugins := plugins - {ns};
      assert IndexValid(provs, svcs) && pluginServices == svcs;
      assert ChannelsAgree(serviceReady, readyChannels, pool);
    }

    method DropServices(services: seq<string>) returns (panics: bool)
      requires ChannelsAgree(serviceReady, readyChannels, pool) && NoDup(services)
      requires forall s <- services :: s in serviceReady
      modifies this`serviceProviders, this`serviceReady, this`readyChannels, pool
      ensures panics <==> exists s <- services :: s in old(Ready())
      ensures !panics ==>
                && ChannelsAgree(serviceReady, readyChannels, pool) && Ready() == old(Ready())
                && serviceProviders == old(serviceProviders) - Elems(services)
                && serviceReady == old(serviceReady) - Elems(services)
    {
      ghost var provs, ready := serviceProviders, serviceReady;
      for i := 0 to |services|
        invariant ChannelsAgree(serviceReady, readyChannels, pool)
        invariant serviceProviders == provs - Elems(services[..i]) && serviceReady == ready - Elems(services[..i])
        invariant forall j | 0 <= j < i :: !ready[services[j]]
      {
        var s := services[i];
        assert s in services && s !in Elems(services[..i]);
        ElemsOfPrefix(services, i);
        MinusOneMore(provs, Elems(services[..i]), s);
        MinusOneMore(ready, Elems(services[..i]), s);
        panics := DropService(s);
        if panics { return; }
      }
      assert services[..|services|] == services;
      panics := false;
    }

    method DropService(s: string) returns (panics: bool)
      requires ChannelsAgree(serviceReady, readyChannels, pool) && s in readyChannels
      modifies this`serviceProviders, this`serviceReady, this`readyChannels, readyChannels[s]
      ensures panics == old(serviceReady[s])
      ensures !panics ==>
                && ChannelsAgree(serviceReady, readyChannels, pool)
                && serviceProviders == old(serviceProviders) - {s}
                && serviceReady == old(serviceReady) - {s}
                && readyChannels == old(readyChannels) - {s}
    {
      serviceProviders := serviceProviders - {s};
      serviceReady := serviceReady - {s};
      panics := readyChannels[s].Close();
      if panics { return; }
      readyChannels := readyChannels - {s};
    }

    method MarkServiceReady(s: string)
      requires Valid()
      modifies this`serviceReady, pool
      ensures Valid()
      ensures Ready() == if s in serviceProviders then old(Ready()) + {s} else old(Ready())
      ensures s in serviceProviders ==>
                && serviceReady == old(serviceReady)[s := true]
                && s in readyChannels && readyChannels[s].closed
    {
      if s !in serviceProviders { return; }
      if !serviceReady[s] {
        var panics := CloseReady(s);
      }
    }

    // Only an open channel is ever closed here.
    method CloseReady(s: string) returns (panics: bool)
      requires ChannelsAgree(serviceReady, readyChannels, pool) && s in serviceReady && !serviceReady[s]
      modifies this`serviceReady, pool
      ensures ChannelsAgree(serviceReady, readyChannels, pool) && serviceReady == old(serviceReady)[s := true] && !panics
    {
      serviceReady := serviceReady[s := true];
      panics := readyChannels[s].Close();
    }

    method AreServicesReady(names: seq<string>) returns (ready: bool)
      ensures ready <==> Elems(names) <= Ready()
    {
      for i := 0 to |names|
        invariant Elems(names[..i]) <= Ready()
      {
        assert names[..i + 1] == names[..i] + [names[i]];
        if !(names[i] in serviceReady && serviceReady[names[i]]) {
          assert names[i] in Elems(names);
          return false;
        }
      }
      assert names[..|names|] == names;
      ready := true;
    }
  }
}
