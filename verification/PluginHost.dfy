// Which configuration every plugin runs, and how applying and rolling back move it
// (daemon/server.go, executeApplyWithRollback step 3 and rollbackPlugins; daemon/state.go).
module PluginHost {
  import opened Basics
  import opened ConfigPath
  import opened ConfigStore

  // Broken: the plugin refused a configuration half-way.
  datatype Running = Stopped | Runs(cfg: Cfg) | Broken

  // `running` has a key for every registered namespace; `files` and `defaults` are what
  // configuration files and plugin metadata offer.
  datatype Host = Host(store: PureStore, files: map<string, Cfg>, defaults: map<string, Cfg>, running: map<string, Running>)

  datatype Call = Call(namespace: string, cfg: Cfg)

  function LastApplied(h: Host, ns: string): Option<Cfg> {
    PureEntryOf(h.store, ns).lastApplied
  }

  function FromDisk(h: Host, ns: string): Option<Cfg> {
    if ns in h.files then Some(h.files[ns])
    else if ns in h.defaults then Some(h.defaults[ns])
    else None
  }

  // The configuration to apply: whatever the state registry holds under the namespace, even nothing,
  // wins over the file and the defaults.
  function Resolve(h: Host, ns: string): Option<Cfg> {
    if ns in h.store then
      if h.store[ns].committed.Some? then Some(Json(h.store[ns].committed.value)) else Some(NilMap)
    else
      FromDisk(h, ns)
  }

  // The configuration the plugin is called with, if it is called at all.
  function Due(h: Host, ns: string): Option<Cfg> {
    if Resolve(h, ns) == None || Resolve(h, ns) == LastApplied(h, ns) then None else Resolve(h, ns)
  }

  function Noted(h: Host, ns: string, c: Cfg): Host {
    h.(running := h.running[ns := Runs(c)],
       store := h.store[ns := PureEntryOf(h.store, ns).(lastApplied := Some(c))])
  }

  datatype ApplyResult = ApplyResult(host: Host, ok: bool, calls: seq<Call>)

  // Applying plugins in order up to the first that rejects its configuration.
  function ApplyPlugins(h: Host, order: seq<string>, rejects: set<string>): ApplyResult
    decreases |order|
  {
    if order == [] then ApplyResult(h, true, [])
    else
      var ns := order[0];
      match Due(h, ns)
      case None => ApplyPlugins(h, order[1..], rejects)
      case Some(c) =>
        if ns in rejects then ApplyResult(h.(running := h.running[ns := Broken]), false, [Call(ns, c)])
        else
          var rest := ApplyPlugins(Noted(h, ns, c), order[1..], rejects);
          rest.(calls := [Call(ns, c)] + rest.calls)
  }

  function RestoreTarget(h: Host, ns: string): Option<Cfg> {
    if LastApplied(h, ns).Some? then LastApplied(h, ns)
    else if ns in h.files then Some(h.files[ns])
    else None
  }

  // Every registered plugin is flushed and given its last applied configuration, or its file.
  function AfterRollback(h: Host, ns: string, refuses: set<string>): Running {
    match RestoreTarget(h, ns)
    case None => Stopped
    case Some(c) => if ns in refuses then Broken else Runs(c)
  }

  function RollbackPlugins(h: Host, refuses: set<string>): Host {
    h.(running := map ns | ns in h.running :: AfterRollback(h, ns, refuses))
  }

  // ----- the skip decision is sound -----

  // A plugin with a recorded last applied configuration runs exactly that configuration.
  ghost predicate Faithful(h: Host) {
    forall ns <- h.running | LastApplied(h, ns).Some? :: h.running[ns] == Runs(LastApplied(h, ns).value)
  }

  ghost predicate Registered(h: Host, order: seq<string>) {
    forall ns <- order :: ns in h.running
  }

  // The set of plugins is fixed; apply and rollback never touch what is staged or stored.
  ghost predicate SamePlugins(h: Host, h': Host) {
    h'.running.Keys == h.running.Keys && h'.files == h.files && h'.defaults == h.defaults
  }

  lemma {:induction false} ApplyKeepsFaithful(h: Host, order: seq<string>, rejects: set<string>)
    requires Faithful(h) && Registered(h, order)
    ensures var r := ApplyPlugins(h, order, rejects);
            SamePlugins(h, r.host) && (r.ok ==> Faithful(r.host))
    decreases |order|
  {
    if order != [] {
      var ns := order[0];
      forall m | m in order[1..] ensures m in h.running { assert m in order; }
      match Due(h, ns)
      case None => ApplyKeepsFaithful(h, order[1..], rejects);
      case Some(c) =>
        if ns !in rejects {
          assert ns in order;
          ApplyKeepsFaithful(Noted(h, ns, c), order[1..], rejects);
        }
    }
  }

  // Rolling back makes the record faithful again if and only if no plugin refuses its own last
  // applied configuration.
  lemma RollbackIsFaithful(h: Host, refuses: set<string>)
    ensures Faithful(RollbackPlugins(h, refuses)) <==>
            forall ns <- h.running | LastApplied(h, ns).Some? :: ns !in refuses
  {
    var h' := RollbackPlugins(h, refuses);
    forall ns ensures LastApplied(h', ns) == LastApplied(h, ns) {}
    if Faithful(h') {
      forall ns | ns in h.running && LastApplied(h, ns).Some? ensures ns !in refuses {
        assert h'.running[ns] == Runs(LastApplied(h', ns).value);
      }
    }
  }

  // ----- whole runs -----

  datatype Step =
    | Load(ns: string, cfg: Cfg)
    | Start(ns: string, accepts: bool)
    | Enable(ns: string, accepts: bool)
    | Disable(ns: string)
    | Stage(edit: Edit)
    | Commit
    | Revert
    | Apply(order: seq<string>, rejects: set<string>, routesFail: bool, refuses: set<string>)
    | Rollback(refuses: set<string>)

  function LoadEntry(h: Host, ns: string, c: Cfg): Host {
    h.(store := h.store[ns := PureLoaded(PureEntryOf(h.store, ns), c)])
  }

  // Loading a plugin when the daemon starts: its file, else the defaults, else an empty configuration,
  // becomes the committed one, and is applied unless it is empty.  Nothing is recorded as applied.
  function StartConfig(h: Host, ns: string): Cfg {
    if FromDisk(h, ns).Some? then FromDisk(h, ns).value else Json(map[])
  }

  predicate IsEmpty(c: Cfg) {
    c.Json? ==> c.fields == map[]
  }

  function StartPlugin(h: Host, ns: string, accepts: bool): Host {
    var c := StartConfig(h, ns);
    LoadEntry(h, ns, c).(running := h.running[ns := if IsEmpty(c) then Stopped else if accepts then Runs(c) else Broken])
  }

  // Enabling a plugin in a running daemon applies its file or its defaults, and tells nobody.
  function EnablePlugin(h: Host, ns: string, accepts: bool): Host {
    h.(running := h.running[ns := match FromDisk(h, ns)
                                  case None => Stopped
                                  case Some(c) => if accepts then Runs(c) else Broken])
  }

  // Committing also writes what was pending to its file.
  function CommitAll(h: Host): Host {
    var pending := set ns | ns in h.store && h.store[ns].pending.Some?;
    h.(store := PureCommit(h.store),
       files := map ns | ns in h.files.Keys + pending :: if ns in pending then Json(h.store[ns].pending.value) else h.files[ns])
  }

  // A failing plugin or failing routes roll the plugins back.
  function ApplyStep(h: Host, order: seq<string>, rejects: set<string>, routesFail: bool, refuses: set<string>): Host {
    var r := ApplyPlugins(h, order, rejects);
    if r.ok && !routesFail then r.host else RollbackPlugins(r.host, refuses)
  }

  function Next(h: Host, s: Step): Host {
    match s
    case Load(ns, c) => LoadEntry(h, ns, c)
    case Start(ns, accepts) => StartPlugin(h, ns, accepts)
    case Enable(ns, accepts) => EnablePlugin(h, ns, accepts)
    case Disable(ns) => h.(running := h.running - {ns})
    case Stage(edit) => h.(store := TryEdit(h.store, edit))
    case Commit => CommitAll(h)
    case Revert => h.(store := PureRevert(h.store))
    case Apply(order, rejects, routesFail, refuses) => ApplyStep(h, order, rejects, routesFail, refuses)
    case Rollback(refuses) => RollbackPlugins(h, refuses)
  }

  function Run(h: Host, steps: seq<Step>): Host
    decreases |steps|
  {
    if steps == [] then h else Next(Run(h, steps[..|steps| - 1]), steps[|steps| - 1])
  }

  // Only registered plugins are applied, and a plugin takes a configuration back that it ran before.
  // A plugin starts without a record, or takes from its file what is recorded.
  ghost predicate Allowed(h: Host, s: Step) {
    match s
    case Start(ns, _) => LastApplied(h, ns) == None
    case Enable(ns, accepts) => LastApplied(h, ns) == None || (accepts && FromDisk(h, ns) == LastApplied(h, ns))
    case Apply(order, rejects, _, refuses) =>
      Registered(h, order) &&
      forall ns <- h.running | LastApplied(ApplyPlugins(h, order, rejects).host, ns).Some? :: ns !in refuses
    case Rollback(refuses) => forall ns <- h.running | LastApplied(h, ns).Some? :: ns !in refuses
    case _ => true
  }

  ghost predicate AllowedRun(h: Host, steps: seq<Step>)
    decreases |steps|
  {
    steps == [] ||
    (AllowedRun(h, steps[..|steps| - 1]) && Allowed(Run(h, steps[..|steps| - 1]), steps[|steps| - 1]))
  }

  // In every run the skip decision is sound: a plugin whose configuration equals its last applied
  // one, and is therefore not called, is running it.
  lemma {:induction false} EveryRunIsFaithful(h: Host, steps: seq<Step>)
    requires Faithful(h) && AllowedRun(h, steps)
    ensures Faithful(Run(h, steps)) && Run(h, steps).running.Keys == PluginsAfter(h.running.Keys, steps)
    ensures var h' := Run(h, steps);
            forall ns | ns in h'.running && ns in h'.store && h'.store[ns].lastApplied.Some? ::
              h'.running[ns] == Runs(h'.store[ns].lastApplied.value)
    decreases |steps|
  {
    if steps != [] {
      var before := Run(h, steps[..|steps| - 1]);
      EveryRunIsFaithful(h, steps[..|steps| - 1]);
      StepKeepsFaithful(before, steps[|steps| - 1]);
    }
    var h' := Run(h, steps);
    forall ns | ns in h'.running && ns in h'.store && h'.store[ns].lastApplied.Some?
      ensures h'.running[ns] == Runs(h'.store[ns].lastApplied.value)
    {
      assert LastApplied(h', ns) == h'.store[ns].lastApplied;
    }
  }

  // Which plugins are registered after a step, and after a run.
  function PluginsNext(plugins: set<string>, s: Step): set<string> {
    match s
    case Start(ns, _) => plugins + {ns}
    case Enable(ns, _) => plugins + {ns}
    case Disable(ns) => plugins - {ns}
    case _ => plugins
  }

  function PluginsAfter(plugins: set<string>, steps: seq<Step>): set<string>
    decreases |steps|
  {
    if steps == [] then plugins else PluginsNext(PluginsAfter(plugins, steps[..|steps| - 1]), steps[|steps| - 1])
  }

  lemma StepKeepsFaithful(h: Host, s: Step)
    requires Faithful(h) && Allowed(h, s)
    ensures Faithful(Next(h, s)) && Next(h, s).running.Keys == PluginsNext(h.running.Keys, s)
  {
    match s
    case Start(ns, _) =>
      forall m ensures LastApplied(Next(h, s), m) == LastApplied(h, m) {}
    case Enable(ns, _) =>
    case Disable(ns) =>
    case Load(ns, _) =>
      forall m ensures LastApplied(Next(h, s), m) == LastApplied(h, m) {}
    case Stage(edit) =>
      forall m ensures LastApplied(Next(h, s), m) == LastApplied(h, m) {}
    case Commit =>
      forall m ensures LastApplied(Next(h, s), m) == LastApplied(h, m) {}
    case Revert =>
      forall m ensures LastApplied(Next(h, s), m) == LastApplied(h, m) {}
    case Apply(order, rejects, _, refuses) =>
      ApplyKeepsFaithful(h, order, rejects);
      RollbackIsFaithful(ApplyPlugins(h, order, rejects).host, refuses);
    case Rollback(refuses) =>
      RollbackIsFaithful(h, refuses);
  }

  // Enabling keeps the records true if and only if there is none for the plugin, or the plugin takes
  // from disk what is recorded: a record outlives the plugin that is disabled.
  lemma EnableIsFaithful(h: Host, ns: string, accepts: bool)
    requires Faithful(h)
    ensures Faithful(EnablePlugin(h, ns, accepts)) <==> Allowed(h, Enable(ns, accepts))
  {
    var h' := EnablePlugin(h, ns, accepts);
    if Faithful(h') && LastApplied(h, ns).Some? {
      assert h'.running[ns] == Runs(LastApplied(h', ns).value);
    }
    if Allowed(h, Enable(ns, accepts)) { StepKeepsFaithful(h, Enable(ns, accepts)); }
  }

  lemma {:induction false} RunConcat(h: Host, a: seq<Step>, b: seq<Step>)
    ensures Run(h, a + b) == Run(Run(h, a), b)
    decreases |b|
  {
    if b == [] {
      assert a + b == a;
    } else {
      assert (a + b)[..|a + b| - 1] == a + b[..|b| - 1];
      RunConcat(h, a, b[..|b| - 1]);
    }
  }

  lemma RunOne(h: Host, s: Step)
    ensures Run(h, [s]) == Next(h, s)
  {
    assert [s][..0] == [];
    assert Run(h, [s][..0]) == h;
  }

  lemma RunTwo(h: Host, a: Step, b: Step)
    ensures Run(h, [a, b]) == Next(Next(h, a), b)
  {
    RunOne(h, a);
    RunOne(Next(h, a), b);
    RunConcat(h, [a], [b]);
    assert [a] + [b] == [a, b];
  }

  lemma StagesAll(h: Host, ns: string, c: Fields)
    requires ns in h.store && h.store[ns].committed.Some?
    ensures Next(h, Stage(Edit(ns, [], Obj(c)))) == h.(store := h.store[ns := h.store[ns].(pending := Some(c))])
  {
  }

  lemma CommitsOne(h: Host, ns: string, c: Fields)
    requires ns in h.store && forall m <- h.store :: h.store[m].pending == None
    ensures var staged := h.(store := h.store[ns := h.store[ns].(pending := Some(c))]);
            Next(staged, Commit) == h.(store := h.store[ns := h.store[ns].(committed := Some(c))], files := h.files[ns := Json(c)])
  {
    var staged := h.(store := h.store[ns := h.store[ns].(pending := Some(c))]);
    assert PureCommit(staged.store) == h.store[ns := h.store[ns].(committed := Some(c))];
    assert CommitAll(staged).files == h.files[ns := Json(c)];
  }

  // Setting a whole configuration and committing it, when nothing else is pending.
  function Replaced(h: Host, ns: string, c: Fields): Host
    requires ns in h.store
  {
    h.(store := h.store[ns := h.store[ns].(committed := Some(c))], files := h.files[ns := Json(c)])
  }

  function Replacing(ns: string, c: Fields): seq<Step> {
    [Stage(Edit(ns, [], Obj(c))), Commit]
  }

  lemma Replaces(h: Host, ns: string, c: Fields)
    requires ns in h.store && h.store[ns].committed.Some? && forall m <- h.store :: h.store[m].pending == None
    ensures Run(h, Replacing(ns, c)) == Replaced(h, ns, c)
  {
    RunTwo(h, Stage(Edit(ns, [], Obj(c))), Commit);
    StagesAll(h, ns, c);
    CommitsOne(h, ns, c);
  }

  lemma Renews(h: Host, ns: string)
    requires ns in h.files
    ensures Run(h, [Disable(ns), Enable(ns, true)]) == h.(running := h.running[ns := Runs(h.files[ns])])
  {
    RunTwo(h, Disable(ns), Enable(ns, true));
    assert (h.running - {ns})[ns := Runs(h.files[ns])] == h.running[ns := Runs(h.files[ns])];
  }

  // A configuration is committed and recorded; another one is committed, the plugin is disabled and
  // enabled, and the first one is committed again.  All is as before and nothing is due, but the
  // plugin runs the other configuration.
  lemma SkipCanBeUnsound(h: Host, ns: string, one: Fields, two: Fields)
    requires ns in h.store && h.store[ns] == PureEntry(Some(one), None, Some(Json(one)))
    requires ns in h.files && h.files[ns] == Json(one) && forall m <- h.store :: h.store[m].pending == None
    ensures var h' := Run(h, Replacing(ns, two) + [Disable(ns), Enable(ns, true)] + Replacing(ns, one));
            h' == h.(running := h.running[ns := Runs(Json(two))]) && Due(h', ns) == None
  {
    var renew := [Disable(ns), Enable(ns, true)];
    RunConcat(h, Replacing(ns, two) + renew, Replacing(ns, one));
    RunConcat(h, Replacing(ns, two), renew);
    var h1 := Replaced(h, ns, two);
    Replaces(h, ns, two);
    Renews(h1, ns);
    var h2 := h1.(running := h1.running[ns := Runs(Json(two))]);
    Replaces(h2, ns, one);
    ReplacedBack(h, ns, one, two);
  }

  lemma ReplacedBack(h: Host, ns: string, one: Fields, two: Fields)
    requires ns in h.store && h.store[ns] == PureEntry(Some(one), None, Some(Json(one)))
    requires ns in h.files && h.files[ns] == Json(one)
    ensures var h1 := Replaced(h, ns, two);
            var h' := Replaced(h1.(running := h1.running[ns := Runs(Json(two))]), ns, one);
            h' == h.(running := h.running[ns := Runs(Json(two))]) && Due(h', ns) == None
  {
    var h1 := Replaced(h, ns, two);
    assert h1.store[ns := h1.store[ns].(committed := Some(one))] == h.store && h1.files[ns := Json(one)] == h.files;
  }

  lemma StepKeepsFaithfulIf(h: Host, s: Step)
    requires Allowed(h, s)
    ensures Faithful(h) ==> Faithful(Next(h, s))
  {
    if Faithful(h) { StepKeepsFaithful(h, s); }
  }

  lemma ApplyKeepsFaithfulIf(h: Host, order: seq<string>, rejects: set<string>, routesFail: bool, refuses: set<string>)
    ensures Faithful(h) && Allowed(h, Apply(order, rejects, routesFail, refuses)) ==>
              Faithful(ApplyStep(h, order, rejects, routesFail, refuses))
  {
    if Allowed(h, Apply(order, rejects, routesFail, refuses)) {
      StepKeepsFaithfulIf(h, Apply(order, rejects, routesFail, refuses));
    }
  }

  // ----- applying twice -----

  // A plugin the state registry does not know takes its configuration from disk once; the entry that
  // records it then hides the disk, and the next apply hands it the nil map.
  ghost predicate HidesDisk(h: Host, ns: string) {
    ns !in h.store && FromDisk(h, ns).Some? && FromDisk(h, ns) != Some(NilMap)
  }

  lemma {:induction false} ApplySettlesOthers(h: Host, order: seq<string>, rejects: set<string>, ns: string)
    requires ns !in order
    ensures var r := ApplyPlugins(h, order, rejects);
            PureEntryOf(r.host.store, ns) == PureEntryOf(h.store, ns) && (ns in r.host.store <==> ns in h.store)
    ensures SameSources(h, ApplyPlugins(h, order, rejects).host)
    ensures var h' := ApplyPlugins(h, order, rejects).host;
            ns in h.running ==> ns in h'.running && h'.running[ns] == h.running[ns]
    decreases |order|
  {
    if order != [] {
      var m := order[0];
      match Due(h, m)
      case None => ApplySettlesOthers(h, order[1..], rejects, ns);
      case Some(c) => if m !in rejects { ApplySettlesOthers(Noted(h, m, c), order[1..], rejects, ns); }
    }
  }

  predicate SameSources(h: Host, h': Host) {
    h'.files == h.files && h'.defaults == h.defaults
  }

  // After a successful apply every plugin in the order runs the configuration it resolved to.
  lemma {:induction false} ApplyReachesTargets(h: Host, order: seq<string>, rejects: set<string>, ns: string)
    requires NoDup(order) && Faithful(h) && Registered(h, order) && ns in order
    requires ApplyPlugins(h, order, rejects).ok && Resolve(h, ns).Some?
    ensures var h' := ApplyPlugins(h, order, rejects).host;
            && LastApplied(h', ns) == Resolve(h, ns)
            && ns in h'.running && h'.running[ns] == Runs(Resolve(h, ns).value)
            && ns in h'.store && h'.store[ns].committed == PureEntryOf(h.store, ns).committed
    decreases |order|
  {
    var m := order[0];
    var rest := order[1..];
    forall k | k in rest ensures k in h.running { assert k in order; }
    var h1 := if Due(h, m) == None then h else Noted(h, m, Due(h, m).value);
    assert m in order;
    if m == ns {
      assert ns !in rest;
      ApplySettlesOthers(h1, rest, rejects, ns);
      ApplyKeepsFaithful(h, order, rejects);
    } else {
      assert ns in rest;
      ApplyReachesTargets(h1, rest, rejects, ns);
    }
  }

  // A second apply calls no plugin if and only if the first left no entry that hides the disk.
  lemma SecondApplyCallsNothing(h: Host, order: seq<string>, rejects: set<string>)
    requires NoDup(order) && Faithful(h) && Registered(h, order)
    requires ApplyPlugins(h, order, rejects).ok
    ensures var h' := ApplyPlugins(h, order, rejects).host;
            ApplyPlugins(h', order, rejects).calls == [] <==> forall ns <- order :: !HidesDisk(h, ns)
  {
    var h' := ApplyPlugins(h, order, rejects).host;
    forall ns | ns in order ensures Due(h', ns) == None <==> !HidesDisk(h, ns) {
      DueAfterApply(h, order, rejects, ns);
    }
    CallsNothing(h', order, rejects);
  }

  lemma DueAfterApply(h: Host, order: seq<string>, rejects: set<string>, ns: string)
    requires NoDup(order) && Faithful(h) && Registered(h, order) && ns in order
    requires ApplyPlugins(h, order, rejects).ok
    ensures Due(ApplyPlugins(h, order, rejects).host, ns) == None <==> !HidesDisk(h, ns)
  {
    if Resolve(h, ns).Some? {
      ApplyReachesTargets(h, order, rejects, ns);
    } else {
      UnresolvedStays(h, order, rejects, ns);
    }
  }

  lemma {:induction false} UnresolvedStays(h: Host, order: seq<string>, rejects: set<string>, ns: string)
    requires Resolve(h, ns) == None
    ensures Resolve(ApplyPlugins(h, order, rejects).host, ns) == None
    decreases |order|
  {
    if order != [] {
      var m := order[0];
      match Due(h, m)
      case None => UnresolvedStays(h, order[1..], rejects, ns);
      case Some(c) => if m !in rejects { UnresolvedStays(Noted(h, m, c), order[1..], rejects, ns); }
    }
  }

  lemma {:induction false} CallsNothing(h: Host, order: seq<string>, rejects: set<string>)
    ensures ApplyPlugins(h, order, rejects).calls == [] <==> forall ns <- order :: Due(h, ns) == None
    decreases |order|
  {
    if order != [] {
      assert order == [order[0]] + order[1..];
      match Due(h, order[0])
      case None => CallsNothing(h, order[1..], rejects);
      case Some(c) => assert order[0] in order;
    }
  }

  // ----- what a failed apply leaves running -----

  // The apply comes to a plugin that is due: no plugin up to it is due and refuses.
  ghost predicate Configures(h: Host, order: seq<string>, rejects: set<string>, ns: string) {
    Due(h, ns).Some? && exists i :: ComesTo(h, order, rejects, ns, i)
  }

  ghost predicate ComesTo(h: Host, order: seq<string>, rejects: set<string>, ns: string, i: int) {
    && 0 <= i < |order| && order[i] == ns
    && forall j | 0 <= j <= i && Due(h, order[j]).Some? :: order[j] !in rejects
  }

  // Taking the first plugin off the order.
  lemma ComesToRest(h: Host, h1: Host, order: seq<string>, rejects: set<string>, ns: string, i: nat)
    requires order != [] && (Due(h, order[0]).Some? ==> order[0] !in rejects)
    requires forall m <- order[1..] :: Due(h1, m) == Due(h, m)
    ensures ComesTo(h, order, rejects, ns, i + 1) <==> ComesTo(h1, order[1..], rejects, ns, i)
  {
    var rest := order[1..];
    forall k | 0 <= k < |rest| ensures rest[k] == order[k + 1] && Due(h1, rest[k]) == Due(h, order[k + 1]) {
      assert rest[k] in rest;
    }
    if ComesTo(h1, rest, rejects, ns, i) {
      forall j | 0 <= j <= i + 1 && Due(h, order[j]).Some? ensures order[j] !in rejects {
        if j > 0 { assert rest[j - 1] == order[j]; }
      }
    }
  }

  lemma ConfiguresRest(h: Host, h1: Host, order: seq<string>, rejects: set<string>, ns: string)
    requires NoDup(order) && order != [] && (Due(h, order[0]).Some? ==> order[0] !in rejects)
    requires forall m <- order[1..] :: Due(h1, m) == Due(h, m)
    ensures Configures(h, order, rejects, ns) <==>
            if order[0] == ns then Due(h, ns).Some? else Configures(h1, order[1..], rejects, ns)
  {
    var rest := order[1..];
    if order[0] == ns {
      assert Due(h, ns).Some? ==> ComesTo(h, order, rejects, ns, 0);
    } else {
      forall i: nat ensures ComesTo(h, order, rejects, ns, i + 1) <==> ComesTo(h1, rest, rejects, ns, i) {
        ComesToRest(h, h1, order, rejects, ns, i);
      }
      if i :| ComesTo(h, order, rejects, ns, i) {
        assert ComesTo(h1, rest, rejects, ns, i - 1) && rest[i - 1] in rest;
      }
      if i :| ComesTo(h1, rest, rejects, ns, i) {
        assert ComesTo(h, order, rejects, ns, i + 1) && rest[i] in rest;
      }
    }
  }

  // Which plugins an apply moves can be told beforehand: those it comes to.  Where it fails, their
  // last applied configuration has moved on all the same.
  lemma {:induction false} ApplyMoves(h: Host, order: seq<string>, rejects: set<string>, ns: string)
    requires NoDup(order)
    ensures LastApplied(ApplyPlugins(h, order, rejects).host, ns) ==
            if Configures(h, order, rejects, ns) then Due(h, ns) else LastApplied(h, ns)
    decreases |order|
  {
    if order != [] {
      var m, rest := order[0], order[1..];
      match Due(h, m)
      case None =>
        ConfiguresRest(h, h, order, rejects, ns);
        ApplyMoves(h, rest, rejects, ns);
      case Some(c) =>
        if m !in rejects {
          var h1 := Noted(h, m, c);
          assert forall n <- rest :: n != m && Due(h1, n) == Due(h, n);
          ConfiguresRest(h, h1, order, rejects, ns);
          ApplyMoves(h1, rest, rejects, ns);
          if m == ns { ApplySettlesOthers(h1, rest, rejects, ns); }
        }
    }
  }

  // An apply fails if and only if some plugin is due and refuses.
  lemma {:induction false} ApplyFails(h: Host, order: seq<string>, rejects: set<string>)
    ensures ApplyPlugins(h, order, rejects).ok <==> forall ns <- order | Due(h, ns).Some? :: ns !in rejects
    decreases |order|
  {
    if order != [] {
      var m, rest := order[0], order[1..];
      assert order == [m] + rest;
      match Due(h, m)
      case None => ApplyFails(h, rest, rejects);
      case Some(c) =>
        if m !in rejects {
          var h1 := Noted(h, m, c);
          forall n | n != m ensures Due(h1, n) == Due(h, n) {}
          ApplyFails(h1, rest, rejects);
        } else {
          assert m in order;
        }
    }
  }

  // The calls of a failed apply: those that went through are to the plugins it comes to, and the last
  // one is refused.
  lemma {:induction false} FailedApplyCalls(h: Host, order: seq<string>, rejects: set<string>, ns: string)
    requires !ApplyPlugins(h, order, rejects).ok && NoDup(order)
    ensures var calls := ApplyPlugins(h, order, rejects).calls;
            && calls != [] && calls[|calls| - 1].namespace in rejects
            && (Configures(h, order, rejects, ns) <==> CalledBeforeLast(calls, ns))
    decreases |order|
  {
    var m, rest := order[0], order[1..];
    match Due(h, m)
    case None =>
      ConfiguresRest(h, h, order, rejects, ns);
      FailedApplyCalls(h, rest, rejects, ns);
      if m == ns { NotDueNotCalled(h, rest, rejects, ns); }
    case Some(c) =>
      if m !in rejects {
        var h1 := Noted(h, m, c);
        assert forall n <- rest :: n != m && Due(h1, n) == Due(h, n);
        ConfiguresRest(h, h1, order, rejects, ns);
        FailedApplyCalls(h1, rest, rejects, ns);
        OneCallMore(Call(m, c), ApplyPlugins(h1, rest, rejects).calls, ns);
        if m == ns { NotConfigured(h1, rest, rejects, ns); }
      } else {
        RefusedFirst(h, order, rejects, ns);
      }
  }

  predicate CalledBeforeLast(calls: seq<Call>, ns: string) {
    calls != [] && exists c <- calls[..|calls| - 1] :: c.namespace == ns
  }

  lemma OneCallMore(first: Call, more: seq<Call>, ns: string)
    requires more != []
    ensures CalledBeforeLast([first] + more, ns) <==> first.namespace == ns || CalledBeforeLast(more, ns)
  {
    var calls := [first] + more;
    assert calls[..|calls| - 1] == [first] + more[..|more| - 1];
    if first.namespace == ns { assert first in calls[..|calls| - 1]; }
  }

  lemma NotConfigured(h: Host, order: seq<string>, rejects: set<string>, ns: string)
    requires ns !in order
    ensures !Configures(h, order, rejects, ns)
  {
  }

  lemma RefusedFirst(h: Host, order: seq<string>, rejects: set<string>, ns: string)
    requires order != [] && Due(h, order[0]).Some? && order[0] in rejects
    ensures !Configures(h, order, rejects, ns)
  {
  }

  lemma NotDueNotCalled(h: Host, order: seq<string>, rejects: set<string>, ns: string)
    requires ns !in order
    ensures forall c <- ApplyPlugins(h, order, rejects).calls :: c.namespace != ns
    decreases |order|
  {
    if order != [] {
      match Due(h, order[0])
      case None => NotDueNotCalled(h, order[1..], rejects, ns);
      case Some(c) => if order[0] !in rejects { NotDueNotCalled(Noted(h, order[0], c), order[1..], rejects, ns); }
    }
  }

  // What a plugin runs after a failed apply and its rollback: the configuration that was due, if the
  // apply came to it; else what it is rolled back to, its last applied configuration or its file.
  lemma FailedApplyLeaves(h: Host, order: seq<string>, rejects: set<string>, routesFail: bool, refuses: set<string>, ns: string)
    requires Registered(h, order) && NoDup(order) && (routesFail || !ApplyPlugins(h, order, rejects).ok) && ns in h.running
    ensures var h' := ApplyStep(h, order, rejects, routesFail, refuses);
            && ns in h'.running
            && h'.running[ns] ==
               if !Configures(h, order, rejects, ns) then AfterRollback(h, ns, refuses)
               else if ns in refuses then Broken else Runs(Due(h, ns).value)
  {
    ApplyKeepsKeys(h, order, rejects);
    ApplyMoves(h, order, rejects, ns);
  }

  lemma {:induction false} ApplyKeepsKeys(h: Host, order: seq<string>, rejects: set<string>)
    requires Registered(h, order)
    ensures SamePlugins(h, ApplyPlugins(h, order, rejects).host)
    decreases |order|
  {
    if order != [] {
      var ns := order[0];
      forall m | m in order[1..] ensures m in h.running { assert m in order; }
      match Due(h, ns)
      case None => ApplyKeepsKeys(h, order[1..], rejects);
      case Some(c) =>
        assert ns in order;
        if ns !in rejects { ApplyKeepsKeys(Noted(h, ns, c), order[1..], rejects); }
    }
  }

  // So a plugin is left as it was if and only if: where the apply came to it, nothing was recorded for
  // it and it ran already what was due; where it did not, something was recorded, or it ran what its
  // file says by then.
  lemma FailedApplyLeavesAlone(h: Host, order: seq<string>, rejects: set<string>, routesFail: bool, refuses: set<string>, ns: string)
    requires Faithful(h) && Registered(h, order) && NoDup(order) && (routesFail || !ApplyPlugins(h, order, rejects).ok)
    requires ns in h.running && ns !in refuses
    ensures var h' := ApplyStep(h, order, rejects, routesFail, refuses);
            && ns in h'.running
            && (h'.running[ns] == h.running[ns] <==>
                if Configures(h, order, rejects, ns) then LastApplied(h, ns) == None && h.running[ns] == Runs(Due(h, ns).value)
                else LastApplied(h, ns).Some? || h.running[ns] == AfterRollback(h, ns, {}))
  {
    FailedApplyLeaves(h, order, rejects, routesFail, refuses, ns);
  }

  // After start-up nothing is recorded.  A commit has written the new configurations to the files; the
  // first of two plugins refuses, and the second, which the apply never came to, is rolled forward.
  lemma RollbackCanMoveAnUntouchedPlugin()
    ensures var was, now: Fields := map["mode" := Leaf("old")], map["mode" := Leaf("new")];
            var e := PureEntry(Some(now), None, None);
            var h := Host(map["a" := e, "b" := e], map["a" := Json(now), "b" := Json(now)], map[],
                          map["a" := Runs(Json(was)), "b" := Runs(Json(was))]);
            && was != now && Faithful(h) && !Configures(h, ["a", "b"], {"a"}, "b")
            && ApplyStep(h, ["a", "b"], {"a"}, false, {}).running["b"] == Runs(Json(now))
  {
    var was, now: Fields := map["mode" := Leaf("old")], map["mode" := Leaf("new")];
    var e := PureEntry(Some(now), None, None);
    var h := Host(map["a" := e, "b" := e], map["a" := Json(now), "b" := Json(now)], map[],
                  map["a" := Runs(Json(was)), "b" := Runs(Json(was))]);
    assert was["mode"] != now["mode"];
    RefusedFirst(h, ["a", "b"], {"a"}, "b");
    FailedApplyLeaves(h, ["a", "b"], {"a"}, false, {}, "b");
  }

  // Two plugins, the second failing: the first is not back at the configuration it ran before.
  lemma FailedApplyCanMoveAPlugin()
    ensures var was, now: Fields := map["mode" := Leaf("old")], map["mode" := Leaf("new")];
            var a := PureEntry(Some(now), None, Some(Json(was)));
            var b := PureEntry(Some(now), None, None);
            var h := Host(map["a" := a, "b" := b], map[], map[], map["a" := Runs(Json(was)), "b" := Stopped]);
            && was != now && Faithful(h)
            && ApplyStep(h, ["a", "b"], {"b"}, false, {}).running["a"] == Runs(Json(now))
  {
    var was, now: Fields := map["mode" := Leaf("old")], map["mode" := Leaf("new")];
    var a := PureEntry(Some(now), None, Some(Json(was)));
    var b := PureEntry(Some(now), None, None);
    var h := Host(map["a" := a, "b" := b], map[], map[], map["a" := Runs(Json(was)), "b" := Stopped]);
    assert was["mode"] != now["mode"];
    assert ["a", "b"][1..] == ["b"];
    assert ApplyPlugins(Noted(h, "a", Json(now)), ["b"], {"b"}).host.store["a"].lastApplied == Some(Json(now));
  }

  // A plugin configured only by its file is handed the nil map by the second of two applies.
  lemma SecondApplyCanHandOverNil()
    ensures var h := Host(map[], map["a" := Json(map[])], map[], map["a" := Stopped]);
            var h' := ApplyPlugins(h, ["a"], {}).host;
            h'.running["a"] == Runs(Json(map[])) && ApplyPlugins(h', ["a"], {}).calls == [Call("a", NilMap)]
  {
    var h := Host(map[], map["a" := Json(map[])], map[], map["a" := Stopped]);
    assert ["a"][1..] == [];
    var h' := ApplyPlugins(h, ["a"], {}).host;
    assert h' == Noted(h, "a", Json(map[]));
    assert Due(h', "a") == Some(NilMap);
  }
}
