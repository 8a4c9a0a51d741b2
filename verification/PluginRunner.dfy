// The registry of configurations and the plugins that run them, on the heap: the maps a plugin is
// given are those of the store (daemon/server.go, daemon/state.go).
module PluginRunner {
  import opened Basics
  import opened ConfigPath
  import opened ConfigStore
  import opened PluginHost

  class Runner {
    const state: State
    const defaults: map<string, Cfg>
    var files: map<string, Cfg>
    var running: map<string, Running>

    constructor (files: map<string, Cfg>, defaults: map<string, Cfg>)
      ensures Valid() && fresh(state)
      ensures View() == Host(map[], files, defaults, map[]) && Faithful(View())
    {
      state := new State();
      this.files, this.defaults, running := files, defaults, map[];
    }

    ghost predicate Valid()
      reads this, state, state.frozen, state.staged
    {
      state.Valid()
    }

    ghost function View(): Host
      requires Valid()
      reads this, state, state.frozen, state.staged
    {
      Host(state.View(), files, defaults, running)
    }

    // ----- plugins coming and going -----

    // When the daemon starts: what is on disk becomes the committed configuration and is applied, but
    // not recorded as applied.
    method LoadPlugin(ns: string, accepts: bool) returns (ok: bool)
      requires Valid()
      modifies this`running, state
      ensures Valid() && View() == Next(old(View()), Start(ns, accepts))
      ensures var c := if ns in files then files[ns] else if ns in defaults then defaults[ns] else Json(map[]);
              && ok == (c == NilMap || c == Json(map[]) || accepts)
              && running == old(running)[ns := if c == NilMap || c == Json(map[]) then Stopped else if accepts then Runs(c) else Broken]
              && ns in state.View() && state.View()[ns].pending == None
              && state.View()[ns].committed == (if c.Json? then Some(c.fields) else None)
      ensures old(Faithful(View())) && LastApplied(old(View()), ns) == None ==> Faithful(View())
    {
      StartKeepsFaithful(View(), ns, accepts);
      StartInPlainTerms(View(), ns, accepts);
      ok := StartLoaded(ns, accepts);
    }

    method StartLoaded(ns: string, accepts: bool) returns (ok: bool)
      requires Valid()
      modifies this`running, state
      ensures Valid() && View() == Next(old(View()), Start(ns, accepts))
      ensures ok == (IsEmpty(old(StartConfig(View(), ns))) || accepts)
    {
      ghost var target := Next(View(), Start(ns, accepts));
      var c := if ns in files then files[ns] else if ns in defaults then defaults[ns] else Json(map[]);
      assert c == StartConfig(View(), ns);
      Load(ns, c);
      running := running[ns := if IsEmpty(c) then Stopped else if accepts then Runs(c) else Broken];
      assert View() == target;
      ok := IsEmpty(c) || accepts;
    }

    static lemma StartInPlainTerms(h: Host, ns: string, accepts: bool)
      ensures var c := if ns in h.files then h.files[ns] else if ns in h.defaults then h.defaults[ns] else Json(map[]);
              var h' := Next(h, Start(ns, accepts));
              && IsEmpty(StartConfig(h, ns)) == (c == NilMap || c == Json(map[]))
              && h'.running == h.running[ns := if c == NilMap || c == Json(map[]) then Stopped else if accepts then Runs(c) else Broken]
              && ns in h'.store && h'.store[ns].pending == None
              && h'.store[ns].committed == (if c.Json? then Some(c.fields) else None)
    {
    }

    static lemma StartKeepsFaithful(h: Host, ns: string, accepts: bool)
      ensures Faithful(h) && LastApplied(h, ns) == None ==> Faithful(Next(h, Start(ns, accepts)))
    {
      if LastApplied(h, ns) == None { StepKeepsFaithfulIf(h, Start(ns, accepts)); }
    }

    method Load(ns: string, c: Cfg)
      requires Valid()
      modifies state
      ensures Valid() && View() == LoadEntry(old(View()), ns, c)
    {
      var config := Fresh(c);
      state.LoadCommitted(ns, config);
    }

    // In a running daemon: what is on disk is applied, and the store is not told.
    method EnablePlugin(ns: string, accepts: bool)
      requires Valid()
      modifies this`running
      ensures Valid() && View() == Next(old(View()), Enable(ns, accepts))
      ensures running == old(running)[ns := if ns !in files && ns !in defaults then Stopped
                                            else if accepts then Runs(if ns in files then files[ns] else defaults[ns]) else Broken]
      ensures old(Faithful(View())) ==> (Faithful(View()) <==> old(Allowed(View(), Enable(ns, accepts))))
    {
      EnableMattersAs(View(), ns, accepts);
      EnableInPlainTerms(View(), ns, accepts);
      StartEnabled(ns, accepts);
    }

    static lemma EnableMattersAs(h: Host, ns: string, accepts: bool)
      ensures Faithful(h) ==> (Faithful(Next(h, Enable(ns, accepts))) <==> Allowed(h, Enable(ns, accepts)))
    {
      if Faithful(h) { EnableIsFaithful(h, ns, accepts); }
    }

    static lemma EnableInPlainTerms(h: Host, ns: string, accepts: bool)
      ensures Next(h, Enable(ns, accepts)).running ==
              h.running[ns := if ns !in h.files && ns !in h.defaults then Stopped
                              else if accepts then Runs(if ns in h.files then h.files[ns] else h.defaults[ns]) else Broken]
    {
    }

    method StartEnabled(ns: string, accepts: bool)
      requires Valid()
      modifies this`running
      ensures Valid() && View() == Next(old(View()), Enable(ns, accepts))
    {
      var now := Stopped;
      if ns in files {
        now := if accepts then Runs(files[ns]) else Broken;
      } else if ns in defaults {
        now := if accepts then Runs(defaults[ns]) else Broken;
      }
      running := running[ns := now];
    }

    // The record of what was applied last stays.
    method DisablePlugin(ns: string)
      requires Valid()
      modifies this`running
      ensures Valid() && View() == Next(old(View()), Disable(ns))
      ensures running == old(running) - {ns} && state.View() == old(state.View())
      ensures old(Faithful(View())) ==> Faithful(View())
    {
      running := running - {ns};
    }

    // ----- staging -----

    // Whatever is set, a plugin runs what is recorded for it: staged maps are shared with no
    // committed or last applied configuration.
    method Set(t: string, path: seq<string>, v: HeapValue) returns (ok: bool)
      requires Valid() && ValueValid(v) && ReprOf(v) !! state.frozen + state.staged
      modifies state, state.staged
      ensures Valid() && View() == Next(old(View()), Stage(Edit(t, path, old(ViewOf(v)))))
      ensures old(Faithful(View())) ==> Faithful(View())
    {
      StepKeepsFaithfulIf(View(), Stage(Edit(t, path, ViewOf(v))));
      ok := state.HandleSet(t, path, v);
    }

    method Revert()
      requires Valid()
      modifies state
      ensures Valid() && View() == Next(old(View()), Step.Revert)
      ensures old(Faithful(View())) ==> Faithful(View())
    {
      StepKeepsFaithfulIf(View(), Step.Revert);
      state.RevertPending();
    }

    // Pending maps become committed ones, and are written to their files.
    method Commit()
      requires Valid()
      modifies this`files, state
      ensures Valid() && View() == Next(old(View()), Step.Commit)
      ensures forall t | t in old(state.View()) && old(state.View())[t].pending.Some? ::
                t in files && files[t] == Json(old(state.View())[t].pending.value)
      ensures forall t <- old(files) | t !in old(state.View()) || old(state.View())[t].pending == None ::
                t in files && files[t] == old(files)[t]
      ensures old(Faithful(View())) ==> Faithful(View())
    {
      StepKeepsFaithfulIf(View(), Step.Commit);
      ghost var target := Next(View(), Step.Commit);
      SavedIsCommitted(View());
      CommitAndSave();
      assert View() == target;
    }

    method CommitAndSave()
      requires Valid()
      modifies this`files, state
      ensures Valid() && state.View() == PureCommit(old(state.View()))
      ensures (forall t <- PendingTypes(old(state.View())) :: t in state.View() && state.View()[t].committed.Some?) &&
              files == Saved(old(files), state.View(), PendingTypes(old(state.View())))
    {
      ghost var store := state.View();
      PendingIsCommitted(store);
      var pending := PendingTypesOf();
      var _ := state.CommitPending();
      SaveAll(pending);
    }

    method PendingTypesOf() returns (types: set<string>)
      requires Valid()
      ensures types == PendingTypes(state.View())
    {
      types := set t | t in state.registry && state.registry[t].pending.Some?;
    }

    static lemma PendingIsCommitted(s: PureStore)
      ensures forall t <- PendingTypes(s) :: t in PureCommit(s) && PureCommit(s)[t].committed.Some?
    {
    }

    static lemma SavedIsCommitted(h: Host)
      ensures forall t <- PendingTypes(h.store) :: t in PureCommit(h.store) && PureCommit(h.store)[t].committed.Some?
      ensures Next(h, Step.Commit) ==
              Host(PureCommit(h.store), Saved(h.files, PureCommit(h.store), PendingTypes(h.store)), h.defaults, h.running)
    {
      assert Saved(h.files, PureCommit(h.store), PendingTypes(h.store)) == CommitAll(h).files;
    }

    static ghost function PendingTypes(s: PureStore): set<string> {
      set t | t in s && s[t].pending.Some?
    }

    method SaveAll(types: set<string>)
      requires Valid() && forall t <- types :: t in state.View() && state.View()[t].committed.Some?
      modifies this`files
      ensures files == Saved(old(files), state.View(), types)
    {
      ghost var was, store := files, state.View();
      var todo := types;
      assert files == Saved(was, store, {});
      while todo != {}
        invariant todo <= types && files == Saved(was, store, types - todo)
        decreases todo
      {
        var t :| t in todo;
        Save(t, was, store, types - todo);
        assert types - (todo - {t}) == types - todo + {t};
        todo := todo - {t};
      }
      assert types - {} == types;
    }

    method Save(t: string, ghost was: map<string, Cfg>, ghost store: PureStore, ghost done: set<string>)
      requires Valid() && store == state.View() && forall u <- done + {t} :: u in store && store[u].committed.Some?
      requires files == Saved(was, store, done)
      modifies this`files
      ensures files == Saved(was, store, done + {t})
    {
      var fields := CommittedOf(t);
      SavedOneMore(was, store, done, t);
      files := files[t := Json(fields)];
    }

    static ghost function Saved(files: map<string, Cfg>, store: PureStore, types: set<string>): map<string, Cfg>
      requires forall t <- types :: t in store && store[t].committed.Some?
    {
      map t | t in files.Keys + types :: if t in types then Json(store[t].committed.value) else files[t]
    }

    static lemma SavedOneMore(files: map<string, Cfg>, store: PureStore, types: set<string>, t: string)
      requires forall u <- types + {t} :: u in store && store[u].committed.Some?
      ensures Saved(files, store, types + {t}) == Saved(files, store, types)[t := Json(store[t].committed.value)]
    {
    }

    method CommittedOf(t: string) returns (fields: Fields)
      requires Valid() && t in state.View() && state.View()[t].committed.Some?
      ensures fields == state.View()[t].committed.value
    {
      assert EntryValid(state.registry[t], state.frozen, state.staged);
      fields := state.registry[t].committed.value.Marshal();
    }

    // ----- applying -----

    // A configuration to apply: reachable from nothing staged.
    ghost predicate Usable(config: HeapCfg)
      reads state, if config.Ref? then {config.node} + config.node.Repr else {}
    {
      CfgValid(config) && (config.Ref? ==> config.node.Repr !! state.staged)
    }

    method ResolveConfig(ns: string) returns (found: bool, config: HeapCfg)
      requires Valid()
      ensures Valid() && found == Resolve(View(), ns).Some?
      ensures found ==> Usable(config) && CfgView(config) == Resolve(View(), ns).value
      ensures ns in state.registry ==>
                found && config == if state.registry[ns].committed.Some? then Ref(state.registry[ns].committed.value) else NilRef
      ensures ns !in state.registry ==> found == (ns in files || ns in defaults)
      ensures found && ns !in state.registry ==> CfgView(config) == if ns in files then files[ns] else defaults[ns]
    {
      config := NilRef;
      if ns in state.registry {
        assert EntryValid(state.registry[ns], state.frozen, state.staged);
        if state.registry[ns].committed.Some? { config := Ref(state.registry[ns].committed.value); }
        found := true;
      } else if ns in files {
        found := true;
        config := Fresh(files[ns]);
      } else if ns in defaults {
        found := true;
        config := Fresh(defaults[ns]);
      } else {
        found := false;
      }
    }

    method Fresh(c: Cfg) returns (config: HeapCfg)
      requires Valid()
      ensures Usable(config) && CfgView(config) == c
    {
      match c {
        case NilMap => config := NilRef;
        case Json(fields) =>
          var node := Unmarshal(Obj(fields));
          config := Ref(node);
      }
    }

    // The configuration the plugin has to be called with, unless it is unchanged.
    method DueConfig(ns: string) returns (due: bool, config: HeapCfg)
      requires Valid()
      ensures Valid() && due == Due(View(), ns).Some?
      ensures due ==> Usable(config) && CfgView(config) == Due(View(), ns).value
      ensures due && ns in state.registry ==>
                config == if state.registry[ns].committed.Some? then Ref(state.registry[ns].committed.value) else NilRef
      ensures ns !in state.registry ==> due == (ns in files || ns in defaults)
      ensures due && ns !in state.registry ==> CfgView(config) == if ns in files then files[ns] else defaults[ns]
    {
      due, config := ResolveConfig(ns);
      if !due { return; }
      ghost var c := CfgView(config);
      var same := UnchangedSince(ns, config);
      assert Due(View(), ns) == if same then None else Some(c);
      due := !same;
    }

    method UnchangedSince(ns: string, config: HeapCfg) returns (same: bool)
      requires Valid() && CfgValid(config)
      ensures same <==> LastApplied(View(), ns) == Some(CfgView(config))
    {
      if ns !in state.registry { return false; }
      assert EntryValid(state.registry[ns], state.frozen, state.staged);
      same := ConfigsEqual(Some(config), state.registry[ns].lastApplied);
    }

    // The plugin is sent the JSON text; the map itself is recorded as last applied, and shared.
    method Call(ns: string, config: HeapCfg, refuses: bool)
      requires Valid() && Usable(config) && ns in running
      modifies this`running, state
      ensures Valid() && state.staged == old(state.staged)
      ensures View() == if refuses then old(View()).(running := old(running)[ns := Broken])
                        else Noted(old(View()), ns, old(CfgView(config)))
      ensures running == old(running)[ns := if refuses then Broken else Runs(old(CfgView(config)))]
      ensures state.registry ==
              if refuses then old(state.registry)
              else old(state.registry)[ns := EntryOf(old(state.registry), ns).(lastApplied := Some(config))]
    {
      if refuses {
        running := running[ns := Broken];
      } else {
        var sent := MarshalCfg(config);
        Accept(ns, config, sent);
      }
    }

    method Accept(ns: string, config: HeapCfg, sent: Cfg)
      requires Valid() && Usable(config) && sent == CfgView(config) && ns in running
      modifies this`running, state
      ensures Valid() && state.staged == old(state.staged) && View() == Noted(old(View()), ns, sent)
      ensures running == old(running)[ns := Runs(sent)]
      ensures state.registry == old(state.registry)[ns := EntryOf(old(state.registry), ns).(lastApplied := Some(config))]
    {
      NotedIs(View(), ns, sent);
      running := running[ns := Runs(sent)];
      state.SetLastApplied(ns, config);
    }

    static lemma NotedIs(h: Host, ns: string, c: Cfg)
      ensures Noted(h, ns, c) ==
              Host(h.store[ns := PureEntryOf(h.store, ns).(lastApplied := Some(c))], h.files, h.defaults, h.running[ns := Runs(c)])
    {
    }

    method RollBack(ns: string, refuses: bool)
      requires Valid() && ns in running
      modifies this`running
      ensures Valid()
      ensures running == old(running)[ns := AfterRollback(old(View()), ns, if refuses then {ns} else {})]
      ensures running[ns] ==
                if ns in state.registry && state.registry[ns].lastApplied.Some? then
                  if refuses then Broken else Runs(old(CfgView(state.registry[ns].lastApplied.value)))
                else if ns in files then
                  if refuses then Broken else Runs(files[ns])
                else
                  Stopped
    {
      var target := if ns in files then Some(files[ns]) else None;
      if ns in state.registry && state.registry[ns].lastApplied.Some? {
        assert EntryValid(state.registry[ns], state.frozen, state.staged);
        var last := MarshalCfg(state.registry[ns].lastApplied.value);
        target := Some(last);
      }
      running := running[ns := match target case None => Stopped case Some(c) => if refuses then Broken else Runs(c)];
    }
  }
}
