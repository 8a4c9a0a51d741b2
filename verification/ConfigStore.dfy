// The staged configuration store over shared, mutable, nested maps (daemon/state.go, and handleSet
// and deepCopyGeneric of daemon/server.go).
module ConfigStore {
  import opened Basics
  import opened ConfigPath

  // ----- maps on the heap -----

  datatype HeapValue = HLeaf(text: string) | HMap(node: Node)

  // A Go map[string]interface{}.  Nested maps form a tree: Repr covers the map and everything below,
  // and view is the value it stands for.
  class Node {
    var fields: map<string, HeapValue>
    ghost var Repr: set<Node>
    ghost var view: Fields

    ghost predicate Valid()
      reads this, Repr
      decreases Repr
    {
      && this in Repr
      && fields.Keys == view.Keys
      && (forall k <- fields ::
            match fields[k]
            case HLeaf(text) => view[k] == Leaf(text)
            case HMap(c) => c in Repr && c.Repr < Repr && this !in c.Repr && c.Valid() && view[k] == Obj(c.view))
      && (forall j, k | j in fields && k in fields && j != k && fields[j].HMap? && fields[k].HMap? ::
            fields[j].node.Repr !! fields[k].node.Repr)
    }

    constructor ()
      ensures Valid() && fields == map[] && view == map[] && Repr == {this}
    {
      fields, view, Repr := map[], map[], {this};
    }

    // Storing a value that shares nothing with this map.
    method Put(key: string, v: HeapValue)
      requires Valid() && ValueValid(v) && ReprOf(v) !! Repr
      modifies this
      ensures Valid() && Repr == old(Repr) + ReprOf(v)
      ensures view == old(view)[key := old(ViewOf(v))] && fields == old(fields)[key := v]
    {
      fields := fields[key := v];
      view := view[key := ViewOf(v)];
      Repr := Repr + ReprOf(v);
    }

    // The recursive walk: it changes one map, in place, or fails without changing any.
    method SetGenericValue(path: seq<string>, v: HeapValue) returns (ok: bool)
      requires Valid() && ValueValid(v) && ReprOf(v) !! Repr
      modifies Repr
      decreases |path|, 0
      ensures Valid() && Repr <= old(Repr) + ReprOf(v)
      ensures ok == SetIn(old(view), path, old(ViewOf(v))).Some?
      ensures ok ==> view == SetIn(old(view), path, old(ViewOf(v))).value
      ensures !ok ==> view == old(view) && Repr == old(Repr) && forall n <- Repr :: n.fields == old(n.fields)
    {
      if path == [] { return false; }
      if |path| == 1 {
        Put(path[0], v);
        return true;
      }
      var key := path[0];
      if key !in fields { return false; }
      if fields[key].HLeaf? { return false; }
      ok := SetBelow(key, path[1..], v);
    }

    method SetBelow(key: string, path: seq<string>, v: HeapValue) returns (ok: bool)
      requires Valid() && ValueValid(v) && ReprOf(v) !! Repr && key in fields && fields[key].HMap?
      modifies Repr
      decreases |path|, 1
      ensures Valid() && Repr <= old(Repr) + ReprOf(v)
      ensures var r := old(SetIn(view[key].fields, path, ViewOf(v)));
              ok == r.Some? && view == if ok then old(view)[key := Obj(r.value)] else old(view)
      ensures !ok ==> Repr == old(Repr) && forall n <- Repr :: n.fields == old(n.fields)
    {
      var next := fields[key].node;
      ok := next.SetGenericValue(path, v);
      Refresh(key, next, ReprOf(v));
    }

    // Setting the whole configuration: the map keeps its identity, its entries become the new ones.
    method ReplaceAll(v: Node)
      requires Valid() && v.Valid() && v.Repr !! Repr
      modifies this
      ensures Valid() && Repr == old(Repr) + v.Repr && view == old(v.view)
    {
      var entries: map<string, HeapValue> := map[];
      var todo := v.fields.Keys;
      while todo != {}
        invariant todo <= v.fields.Keys && entries == v.fields - todo
        decreases todo
      {
        var k :| k in todo;
        entries := entries[k := v.fields[k]];
        todo := todo - {k};
      }
      assert entries == v.fields;
      Adopt(v, entries);
    }

    method Adopt(v: Node, entries: map<string, HeapValue>)
      requires Valid() && v.Valid() && v.Repr !! Repr && entries == v.fields
      modifies this
      ensures Valid() && Repr == old(Repr) + v.Repr && view == old(v.view)
    {
      fields := entries;
      view := v.view;
      Repr := Repr + v.Repr;
    }

    // Marshalling to JSON and back: a copy that shares nothing with the original.
    method DeepCopy() returns (copy: Node)
      requires Valid()
      decreases Repr, 1, 1
      ensures copy.Valid() && copy.view == view && fresh(copy.Repr)
    {
      copy := new Node();
      ghost var mine := Repr;
      var todo := fields.Keys;
      while todo != {}
        invariant todo <= fields.Keys && Valid() && Repr == mine
        invariant copy.Valid() && fresh(copy.Repr) && copy.Repr !! mine
        invariant copy.view == view - todo
        decreases todo
      {
        var k :| k in todo;
        CopyInto(copy, k);
        TakenFrom(view, todo, k);
        todo := todo - {k};
      }
      assert view - {} == view;
    }

    method CopyInto(copy: Node, k: string)
      requires Valid() && k in fields && copy.Valid() && copy.Repr !! Repr
      modifies copy
      decreases Repr, 1, 0
      ensures Valid() && view == old(view) && copy.Valid() && fresh(copy.Repr - old(copy.Repr))
      ensures copy.view == old(copy.view)[k := view[k]]
    {
      var v := CopyChild(k);
      copy.Put(k, v);
    }

    method CopyChild(k: string) returns (v: HeapValue)
      requires Valid() && k in fields
      decreases Repr, 0
      ensures ValueValid(v) && ViewOf(v) == view[k] && fresh(ReprOf(v))
    {
      match fields[k]
      case HLeaf(text) => v := HLeaf(text);
      case HMap(c) =>
        var inner := c.DeepCopy();
        v := HMap(inner);
    }

    // The JSON text of the map, as the value it stands for.
    method Marshal() returns (v: Fields)
      requires Valid()
      decreases Repr, 1
      ensures v == view
    {
      v := map[];
      var todo := fields.Keys;
      while todo != {}
        invariant todo <= fields.Keys && v == view - todo
        decreases todo
      {
        var k :| k in todo;
        var x := MarshalChild(k);
        TakenFrom(view, todo, k);
        v, todo := v[k := x], todo - {k};
      }
      assert view - {} == view;
    }

    method MarshalChild(k: string) returns (v: Value)
      requires Valid() && k in fields
      decreases Repr, 0
      ensures v == view[k]
    {
      match fields[k]
      case HLeaf(text) => v := Leaf(text);
      case HMap(c) =>
        var inner := c.Marshal();
        v := Obj(inner);
    }

    // The ghost state of a map after the map under one key has changed.
    ghost method Refresh(key: string, next: Node, more: set<Node>)
      requires this in Repr && next in Repr && key in fields && fields[key] == HMap(next)
      requires fields.Keys == view.Keys && next.Valid()
      requires next.Repr <= Repr + more && this !in next.Repr && this !in more
      requires forall k | k in fields && k != key :: ChildValid(k) && ReprOf(fields[k]) !! next.Repr
      requires forall j, k | j in fields && k in fields && j != k && j != key && k != key && fields[j].HMap? && fields[k].HMap? ::
                 fields[j].node.Repr !! fields[k].node.Repr
      modifies this`view, this`Repr
      ensures Valid() && Repr == old(Repr) + next.Repr && view == old(view)[key := Obj(next.view)]
    {
      view := view[key := Obj(next.view)];
      Repr := Repr + next.Repr;
    }

    ghost predicate ChildValid(k: string)
      requires k in fields && k in view
      reads this, Repr
    {
      match fields[k]
      case HLeaf(text) => view[k] == Leaf(text)
      case HMap(c) => c in Repr && c.Repr < Repr && this !in c.Repr && c.Valid() && view[k] == Obj(c.view)
    }
  }

  ghost predicate ValueValid(v: HeapValue)
    reads if v.HMap? then {v.node} + v.node.Repr else {}
  {
    v.HMap? ==> v.node.Valid()
  }

  ghost function ReprOf(v: HeapValue): set<Node>
    reads if v.HMap? then {v.node} else {}
  {
    if v.HMap? then v.node.Repr else {}
  }

  ghost function ViewOf(v: HeapValue): Value
    reads if v.HMap? then {v.node} else {}
  {
    match v
    case HLeaf(text) => Leaf(text)
    case HMap(c) => Obj(c.view)
  }

  // ----- the store as values -----

  // What a plugin is handed and what is recorded as applied: a configuration, or the nil map when the
  // committed entry holds nothing.
  datatype Cfg = NilMap | Json(fields: Fields)

  datatype PureEntry = PureEntry(committed: Option<Fields>, pending: Option<Fields>, lastApplied: Option<Cfg>)

  type PureStore = map<string, PureEntry>

  function PureEntryOf(s: PureStore, t: string): PureEntry {
    if t in s then s[t] else PureEntry(None, None, None)
  }

  function Current(e: PureEntry): Option<Fields> {
    if e.pending.Some? then e.pending else e.committed
  }

  // The configuration after setting a value at a path below the configuration type.
  function Edited(config: Fields, path: seq<string>, v: Value): Option<Fields> {
    if path == [] then (if v.Obj? then Some(v.fields) else None) else SetIn(config, path, v)
  }

  // Staging a change: only the pending configuration of one type changes, or nothing.
  function PureSet(s: PureStore, t: string, path: seq<string>, v: Value): Option<PureStore> {
    if t !in s || Current(s[t]).None? then None
    else
      var edited := Edited(Current(s[t]).value, path, v);
      if edited.None? then None else Some(s[t := s[t].(pending := edited)])
  }

  function PureCommitEntry(e: PureEntry): PureEntry {
    if e.pending.Some? then e.(committed := e.pending, pending := None) else e
  }

  // A nil map counts as no configuration.
  function PureLoaded(e: PureEntry, c: Cfg): PureEntry {
    e.(committed := if c.Json? then Some(c.fields) else None, pending := None)
  }

  function PureCommit(s: PureStore): PureStore {
    map t | t in s :: PureCommitEntry(s[t])
  }

  function PureRevert(s: PureStore): PureStore {
    map t | t in s :: s[t].(pending := None)
  }

  function PureGet(s: PureStore, t: string, path: seq<string>): Option<Value> {
    if t !in s || Current(s[t]).None? then None else GetIn(Current(s[t]).value, path)
  }

  lemma PutTwice(s: PureStore, bare: PureStore, s': PureStore, t: string, pending: Option<Fields>)
    requires t in s && bare == s[t := s[t].(pending := None)] && s' == bare[t := bare[t].(pending := pending)]
    ensures s' == s[t := s[t].(pending := pending)]
  {
  }

  lemma PutSame(s: PureStore, t: string)
    requires t in s
    ensures s[t := s[t].(pending := s[t].pending)] == s
  {
  }

  // ----- laws of staging -----

  // A set changes the pending configuration of one type, and there a get finds the new value.
  lemma SetStagesOneValue(s: PureStore, t: string, path: seq<string>, v: Value)
    requires PureSet(s, t, path, v).Some?
    ensures var s' := PureSet(s, t, path, v).value;
            && s'.Keys == s.Keys
            && (forall u <- s :: s'[u].committed == s[u].committed && s'[u].lastApplied == s[u].lastApplied)
            && (forall u | u in s && u != t :: s'[u] == s[u])
            && s'[t].pending.Some? && PureGet(s', t, path) == Some(v)
            && forall q | Incomparable(path, q) :: PureGet(s', t, q) == PureGet(s, t, q)
  {
    if path != [] {
      GetAtOrBelowSet(Current(s[t]).value, path, v, []);
      assert path + [] == path;
    }
    forall q | Incomparable(path, q)
      ensures PureGet(PureSet(s, t, path, v).value, t, q) == PureGet(s, t, q)
    {
      assert [] <= q;
      GetBesideSet(Current(s[t]).value, path, v, q);
    }
  }

  // A set succeeds if and only if its type has a configuration, pending or committed, and what the
  // path leads into is a map: the map above its last key, or the value itself where it has no key.
  lemma SetIsPossible(s: PureStore, t: string, path: seq<string>, v: Value)
    ensures PureSet(s, t, path, v).Some? <==>
              && t in s && (s[t].pending.Some? || s[t].committed.Some?)
              && var config := if s[t].pending.Some? then s[t].pending.value else s[t].committed.value;
                 if path == [] then v.Obj?
                 else GetIn(config, path[..|path| - 1]).Some? && GetIn(config, path[..|path| - 1]).value.Obj?
  {
    if t in s && Current(s[t]).Some? { SetSucceeds(Current(s[t]).value, path, v); }
  }

  datatype Edit = Edit(t: string, path: seq<string>, v: Value)

  // A set that fails changes nothing.
  function TryEdit(s: PureStore, e: Edit): PureStore {
    var after := PureSet(s, e.t, e.path, e.v);
    if after.Some? then after.value else s
  }

  // Sets in a row.
  function Edits(s: PureStore, edits: seq<Edit>): PureStore
    decreases |edits|
  {
    if edits == [] then s
    else
      TryEdit(Edits(s, edits[..|edits| - 1]), edits[|edits| - 1])
  }

  // Reverting undoes any number of sets, whatever they were.
  lemma {:induction false} RevertUndoesEdits(s: PureStore, edits: seq<Edit>)
    ensures PureRevert(Edits(s, edits)) == PureRevert(s)
    decreases |edits|
  {
    if edits != [] {
      var before, e := Edits(s, edits[..|edits| - 1]), edits[|edits| - 1];
      RevertUndoesEdits(s, edits[..|edits| - 1]);
      var after := PureSet(before, e.t, e.path, e.v);
      if after.Some? {
        assert PureRevert(after.value) == PureRevert(before);
      }
    }
  }

  // Committing does not change what a get sees, and leaves nothing to revert.
  lemma CommitKeepsCurrent(s: PureStore, t: string, path: seq<string>)
    ensures PureGet(PureCommit(s), t, path) == PureGet(s, t, path)
    ensures PureRevert(PureCommit(s)) == PureCommit(s) && PureCommit(PureCommit(s)) == PureCommit(s)
  {
  }

  // Sets of different types, or at incomparable paths of one type, commute.
  lemma EditsCommute(s: PureStore, a: Edit, b: Edit)
    requires a.t != b.t || Incomparable(a.path, b.path)
    ensures TryEdit(TryEdit(s, a), b) == TryEdit(TryEdit(s, b), a)
  {
    if a.t == b.t && a.t in s && Current(s[a.t]).Some? {
      assert [] <= a.path && [] <= b.path;
      SetsCommute(Current(s[a.t]).value, a.path, a.v, b.path, b.v);
    }
    var xy, yx := TryEdit(TryEdit(s, a), b), TryEdit(TryEdit(s, b), a);
    assert xy.Keys == s.Keys == yx.Keys;
    forall u | u in s ensures xy[u] == yx[u] {}
  }

  // ----- the store on the heap -----

  datatype HeapCfg = NilRef | Ref(node: Node)

  datatype Entry = Entry(committed: Option<Node>, pending: Option<Node>, lastApplied: Option<HeapCfg>)

  function RootOf(c: Option<HeapCfg>): Option<Node> {
    if c.Some? && c.value.Ref? then Some(c.value.node) else None
  }

  ghost function CfgView(c: HeapCfg): Cfg
    reads if c.Ref? then {c.node} else {}
  {
    if c.Ref? then Json(c.node.view) else NilMap
  }

  ghost predicate CfgValid(c: HeapCfg)
    reads if c.Ref? then {c.node} + c.node.Repr else {}
  {
    c.Ref? ==> c.node.Valid()
  }

  method MarshalCfg(c: HeapCfg) returns (v: Cfg)
    requires CfgValid(c)
    ensures v == CfgView(c)
  {
    match c
    case NilRef => v := NilMap;
    case Ref(node) =>
      var fields := node.Marshal();
      v := Json(fields);
  }

  // Configurations are equal when both are absent, or both are there and have the same JSON text.
  method ConfigsEqual(a: Option<HeapCfg>, b: Option<HeapCfg>) returns (same: bool)
    requires (a.Some? ==> CfgValid(a.value)) && (b.Some? ==> CfgValid(b.value))
    ensures same <==> AppliedView(a) == AppliedView(b)
  {
    if a.None? && b.None? { return true; }
    if a.None? || b.None? { return false; }
    var x := MarshalCfg(a.value);
    var y := MarshalCfg(b.value);
    same := x == y;
  }

  // Unmarshalling makes a map nobody else refers to.
  method Unmarshal(v: Value) returns (n: Node)
    requires v.Obj?
    decreases v
    ensures n.Valid() && n.view == v.fields && fresh(n.Repr)
  {
    n := new Node();
    var m := v.fields;
    var todo := m.Keys;
    while todo != {}
      invariant todo <= m.Keys && n.Valid() && fresh(n.Repr) && n.view == m - todo
      decreases todo
    {
      var k :| k in todo;
      TakenFrom(m, todo, k);
      todo := todo - {k};
      match m[k] {
        case Leaf(text) => n.Put(k, HLeaf(text));
        case Obj(_) =>
          var child := Unmarshal(m[k]);
          n.Put(k, HMap(child));
      }
    }
    assert m - {} == m;
  }

  lemma TakenFrom(m: Fields, todo: set<string>, k: string)
    requires k in todo && k in m
    ensures (m - todo)[k := m[k]] == m - (todo - {k})
  {
  }

  ghost function AppliedView(c: Option<HeapCfg>): Option<Cfg>
    reads if RootOf(c).Some? then {RootOf(c).value} else {}
  {
    if c.Some? then Some(CfgView(c.value)) else None
  }

  ghost predicate RootValid(r: Option<Node>, pool: set<Node>)
    reads pool
  {
    r.Some? ==> r.value in pool && r.value.Repr <= pool && r.value.Valid()
  }

  ghost function RootView(r: Option<Node>): Option<Fields>
    reads if r.Some? then {r.value} else {}
  {
    if r.Some? then Some(r.value.view) else None
  }

  // Committed and last applied configurations live among the frozen maps, pending ones among the
  // staged maps.
  ghost predicate EntryValid(e: Entry, frozen: set<Node>, staged: set<Node>)
    reads frozen, staged
  {
    RootValid(e.committed, frozen) && RootValid(RootOf(e.lastApplied), frozen) && RootValid(e.pending, staged)
  }

  ghost predicate PendingApart(a: Entry, b: Entry)
    reads if a.pending.Some? then {a.pending.value} else {}
    reads if b.pending.Some? then {b.pending.value} else {}
  {
    a.pending.Some? && b.pending.Some? ==> a.pending.value.Repr !! b.pending.value.Repr
  }

  ghost function EntryView(e: Entry): PureEntry
    reads if e.committed.Some? then {e.committed.value} else {}
    reads if e.pending.Some? then {e.pending.value} else {}
    reads if RootOf(e.lastApplied).Some? then {RootOf(e.lastApplied).value} else {}
  {
    PureEntry(RootView(e.committed), RootView(e.pending), AppliedView(e.lastApplied))
  }

  function EntryOf(registry: map<string, Entry>, t: string): Entry {
    if t in registry then registry[t] else Entry(None, None, None)
  }

  function CommittedEntry(e: Entry): Entry {
    if e.pending.Some? then Entry(e.pending, None, e.lastApplied) else e
  }

  lemma CommittedEntryValid(e: Entry, frozen: set<Node>, staged: set<Node>)
    requires EntryValid(e, frozen, staged)
    ensures EntryValid(CommittedEntry(e), frozen + staged, {})
    ensures EntryView(CommittedEntry(e)) == PureCommitEntry(EntryView(e))
  {
  }

  lemma RevertedEntryValid(e: Entry, frozen: set<Node>, staged: set<Node>)
    requires EntryValid(e, frozen, staged)
    ensures EntryValid(e.(pending := None), frozen, {})
    ensures EntryView(e.(pending := None)) == EntryView(e).(pending := None)
  {
  }

  // The same for a whole registry.
  ghost predicate RegistryValid(registry: map<string, Entry>, frozen: set<Node>, staged: set<Node>)
    reads frozen, staged
  {
    && frozen !! staged
    && (forall t <- registry :: EntryValid(registry[t], frozen, staged))
    && (forall t, u | t in registry && u in registry && t != u :: PendingApart(registry[t], registry[u]))
  }

  ghost function RegistryView(registry: map<string, Entry>, frozen: set<Node>, staged: set<Node>): PureStore
    requires RegistryValid(registry, frozen, staged)
    reads frozen, staged
  {
    map t | t in registry :: EntryView(registry[t])
  }

  function CommittedRegistry(registry: map<string, Entry>): map<string, Entry> {
    map t | t in registry :: CommittedEntry(registry[t])
  }

  function RevertedRegistry(registry: map<string, Entry>): map<string, Entry> {
    map t | t in registry :: registry[t].(pending := None)
  }

  lemma CommittedRegistryValid(registry: map<string, Entry>, frozen: set<Node>, staged: set<Node>)
    requires RegistryValid(registry, frozen, staged)
    ensures RegistryValid(CommittedRegistry(registry), frozen + staged, {})
    ensures RegistryView(CommittedRegistry(registry), frozen + staged, {}) == PureCommit(RegistryView(registry, frozen, staged))
  {
    forall t | t in registry
      ensures EntryValid(CommittedEntry(registry[t]), frozen + staged, {})
      ensures EntryView(CommittedEntry(registry[t])) == PureCommitEntry(EntryView(registry[t]))
    {
      CommittedEntryValid(registry[t], frozen, staged);
    }
  }

  lemma RevertedRegistryValid(registry: map<string, Entry>, frozen: set<Node>, staged: set<Node>)
    requires RegistryValid(registry, frozen, staged)
    ensures RegistryValid(RevertedRegistry(registry), frozen, {})
    ensures RegistryView(RevertedRegistry(registry), frozen, {}) == PureRevert(RegistryView(registry, frozen, staged))
  {
    forall t | t in registry
      ensures EntryValid(registry[t].(pending := None), frozen, {})
      ensures EntryView(registry[t].(pending := None)) == EntryView(registry[t]).(pending := None)
    {
      RevertedEntryValid(registry[t], frozen, staged);
    }
  }

  // A configuration apart from everything staged joins the frozen ones.
  lemma FrozenRootAdded(registry: map<string, Entry>, frozen: set<Node>, staged: set<Node>, t: string, e: Entry, config: Node)
    requires RegistryValid(registry, frozen, staged) && config.Valid() && config.Repr !! staged
    requires e == EntryOf(registry, t).(committed := Some(config), pending := None)
             || e == EntryOf(registry, t).(lastApplied := Some(Ref(config)))
    ensures RegistryValid(registry[t := e], frozen + config.Repr, staged)
    ensures RegistryView(registry[t := e], frozen + config.Repr, staged) ==
            RegistryView(registry, frozen, staged)[t := EntryView(e)]
    ensures EntryView(EntryOf(registry, t)) == PureEntryOf(RegistryView(registry, frozen, staged), t)
  {
    forall u | u in registry && u != t ensures EntryValid(registry[u], frozen + config.Repr, staged) {
      assert EntryValid(registry[u], frozen, staged);
    }
  }

  // An entry that brings no new map.
  lemma EntryReplaced(registry: map<string, Entry>, frozen: set<Node>, staged: set<Node>, t: string, e: Entry)
    requires RegistryValid(registry, frozen, staged) && EntryValid(e, frozen, staged)
    requires e.pending == None || e.pending == EntryOf(registry, t).pending
    ensures RegistryValid(registry[t := e], frozen, staged)
    ensures RegistryView(registry[t := e], frozen, staged) == RegistryView(registry, frozen, staged)[t := EntryView(e)]
    ensures EntryView(EntryOf(registry, t)) == PureEntryOf(RegistryView(registry, frozen, staged), t)
  {
    forall u | u in registry && u != t ensures PendingApart(e, registry[u]) && PendingApart(registry[u], e) {
      assert t in registry ==> PendingApart(registry[t], registry[u]) && PendingApart(registry[u], registry[t]);
    }
  }

  lemma AppliedAdded(registry: map<string, Entry>, frozen: set<Node>, staged: set<Node>, t: string, c: HeapCfg)
    requires RegistryValid(registry, frozen, staged) && (c.Ref? ==> c.node.Valid() && c.node.Repr !! staged)
    ensures var e, all := EntryOf(registry, t).(lastApplied := Some(c)), frozen + if c.Ref? then c.node.Repr else {};
            && RegistryValid(registry[t := e], all, staged)
            && RegistryView(registry[t := e], all, staged) ==
               (var view := RegistryView(registry, frozen, staged);
                view[t := PureEntryOf(view, t).(lastApplied := Some(CfgView(c)))])
  {
    match c
    case Ref(config) => FrozenRootAdded(registry, frozen, staged, t, EntryOf(registry, t).(lastApplied := Some(c)), config);
    case NilRef =>
      assert frozen + {} == frozen;
      assert t in registry ==> EntryValid(registry[t], frozen, staged);
      EntryReplaced(registry, frozen, staged, t, EntryOf(registry, t).(lastApplied := Some(c)));
  }

  lemma CommittedAdded(registry: map<string, Entry>, frozen: set<Node>, staged: set<Node>, t: string, c: HeapCfg)
    requires RegistryValid(registry, frozen, staged) && (c.Ref? ==> c.node.Valid() && c.node.Repr !! staged)
    ensures var e := EntryOf(registry, t).(committed := RootOf(Some(c)), pending := None);
            var all := frozen + if c.Ref? then c.node.Repr else {};
            && RegistryValid(registry[t := e], all, staged)
            && RegistryView(registry[t := e], all, staged) ==
               (var view := RegistryView(registry, frozen, staged); view[t := PureLoaded(PureEntryOf(view, t), CfgView(c))])
  {
    var e := EntryOf(registry, t).(committed := RootOf(Some(c)), pending := None);
    match c
    case Ref(config) => FrozenRootAdded(registry, frozen, staged, t, e, config);
    case NilRef =>
      assert frozen + {} == frozen;
      assert t in registry ==> EntryValid(registry[t], frozen, staged);
      EntryReplaced(registry, frozen, staged, t, e);
  }

  // Without the pending configuration of one type, the registry does not depend on its maps.
  lemma PendingTakenOut(registry: map<string, Entry>, frozen: set<Node>, staged: set<Node>, t: string)
    requires RegistryValid(registry, frozen, staged) && t in registry && registry[t].pending.Some?
    ensures var bare, rest := registry[t := registry[t].(pending := None)], staged - registry[t].pending.value.Repr;
            && RegistryValid(bare, frozen, rest)
            && RegistryView(bare, frozen, rest) ==
               RegistryView(registry, frozen, staged)[t := RegistryView(registry, frozen, staged)[t].(pending := None)]
  {
    var bare, rest := registry[t := registry[t].(pending := None)], staged - registry[t].pending.value.Repr;
    forall u | u in registry ensures EntryValid(bare[u], frozen, rest) {
      assert EntryValid(registry[u], frozen, staged);
      if u != t {
        assert PendingApart(registry[u], registry[t]);
        if registry[u].pending.Some? { assert registry[u].pending.value in registry[u].pending.value.Repr; }
      }
    }
  }

  // A pending configuration that shares nothing joins the staged ones, or replaces one.
  lemma StagedRootAdded(registry: map<string, Entry>, frozen: set<Node>, staged: set<Node>, t: string, config: Node)
    requires RegistryValid(registry, frozen, staged) && config.Valid() && config.Repr !! frozen + staged
    ensures var e := EntryOf(registry, t).(pending := Some(config));
            && RegistryValid(registry[t := e], frozen, staged + config.Repr)
            && RegistryView(registry[t := e], frozen, staged + config.Repr) ==
               (var view := RegistryView(registry, frozen, staged);
                view[t := PureEntryOf(view, t).(pending := Some(config.view))])
  {
    assert t in registry ==> EntryValid(registry[t], frozen, staged);
    forall u | u in registry ensures EntryValid(registry[u], frozen, staged + config.Repr) {
      assert EntryValid(registry[u], frozen, staged);
    }
  }

  // The pending configuration that was taken out comes back, with whatever value it has by now.
  lemma PendingPutBack(registry: map<string, Entry>, frozen: set<Node>, rest: set<Node>, t: string, config: Node,
                       store: PureStore, bareStore: PureStore)
    requires t in registry && registry[t].pending == Some(config) && t in store
    requires RegistryValid(registry[t := registry[t].(pending := None)], frozen, rest)
    requires config.Valid() && config.Repr !! frozen + rest
    requires bareStore == RegistryView(registry[t := registry[t].(pending := None)], frozen, rest)
    requires bareStore == store[t := store[t].(pending := None)]
    ensures RegistryValid(registry, frozen, rest + config.Repr)
    ensures RegistryView(registry, frozen, rest + config.Repr) == store[t := store[t].(pending := Some(config.view))]
  {
    var bare := registry[t := registry[t].(pending := None)];
    StagedRootAdded(bare, frozen, rest, t, config);
    assert bare[t := bare[t].(pending := Some(config))] == registry;
    PutTwice(store, bareStore, RegistryView(registry, frozen, rest + config.Repr), t, Some(config.view));
  }

  class State {
    var registry: map<string, Entry>
    ghost var frozen: set<Node>       // every map reachable from a committed or last applied configuration
    ghost var staged: set<Node>       // every map reachable from a pending configuration

    // An edit of a pending configuration is seen nowhere else: staged maps are never frozen, and the
    // pending configurations of two types share nothing.
    ghost predicate Valid()
      reads this, frozen, staged
    {
      RegistryValid(registry, frozen, staged)
    }

    // The values the registry stands for.
    ghost function View(): PureStore
      requires Valid()
      reads this, frozen, staged
    {
      RegistryView(registry, frozen, staged)
    }

    constructor ()
      ensures Valid() && View() == map[]
    {
      registry, frozen, staged := map[], {}, {};
    }

    // The ghost state of the registry as it has become.
    ghost method Settle(f: set<Node>, s: set<Node>)
      requires RegistryValid(registry, f, s)
      modifies this`frozen, this`staged
      ensures frozen == f && staged == s && Valid() && View() == old(RegistryView(registry, f, s))
    {
      frozen, staged := f, s;
    }

    method LoadCommitted(t: string, c: HeapCfg)
      requires Valid() && (c.Ref? ==> c.node.Valid() && c.node.Repr !! staged)
      modifies this
      ensures Valid() && staged == old(staged)
      ensures View() == old(View())[t := PureLoaded(PureEntryOf(old(View()), t), CfgView(c))]
      ensures View()[t] == PureEntry(if c.Ref? then Some(c.node.view) else None, None,
                                     if t in old(View()) then old(View())[t].lastApplied else None)
    {
      var e := EntryOf(registry, t).(committed := RootOf(Some(c)), pending := None);
      ghost var more := if c.Ref? then c.node.Repr else {};
      CommittedAdded(registry, frozen, staged, t, c);
      registry := registry[t := e];
      Settle(frozen + more, staged);
    }

    method SetLastApplied(t: string, c: HeapCfg)
      requires Valid() && (c.Ref? ==> c.node.Valid() && c.node.Repr !! staged)
      modifies this
      ensures Valid() && staged == old(staged)
      ensures frozen == old(frozen) + if c.Ref? then c.node.Repr else {}
      ensures registry == old(registry)[t := EntryOf(old(registry), t).(lastApplied := Some(c))]
      ensures View() == old(View())[t := PureEntryOf(old(View()), t).(lastApplied := Some(CfgView(c)))]
      ensures View()[t] == (if t in old(View()) then old(View())[t] else PureEntry(None, None, None)).(
                             lastApplied := Some(if c.Ref? then Json(c.node.view) else NilMap))
    {
      var e := EntryOf(registry, t).(lastApplied := Some(c));
      ghost var more := if c.Ref? then c.node.Repr else {};
      AppliedAdded(registry, frozen, staged, t, c);
      registry := registry[t := e];
      Settle(frozen + more, staged);
    }

    // The pending maps become the committed ones; nothing is copied.
    method CommitPending() returns (ok: bool)
      requires Valid()
      modifies this
      ensures Valid() && View() == PureCommit(old(View())) && staged == {}
      ensures View().Keys == old(View()).Keys && forall t <- old(View()) ::
                && View()[t].committed == (if old(View())[t].pending.Some? then old(View())[t].pending else old(View())[t].committed)
                && View()[t].pending == None && View()[t].lastApplied == old(View())[t].lastApplied
      ensures ok == exists t <- old(registry) :: old(registry)[t].pending.Some?
    {
      CommittedRegistryValid(registry, frozen, staged);
      ghost var next, all, target := CommittedRegistry(registry), frozen + staged, PureCommit(View());
      assert RegistryView(next, all, {}) == target;
      ok := MoveAllPending();
      assert registry == next;
      Settle(all, {});
      assert View() == target;
    }

    method MoveAllPending() returns (ok: bool)
      modifies this`registry
      ensures registry == CommittedRegistry(old(registry))
      ensures ok == exists t <- old(registry) :: old(registry)[t].pending.Some?
    {
      ghost var was := registry;
      ok := false;
      var todo := registry.Keys;
      while todo != {}
        invariant todo <= was.Keys == registry.Keys
        invariant forall t <- was :: registry[t] == if t in todo then was[t] else CommittedEntry(was[t])
        invariant ok == exists t <- was.Keys - todo :: was[t].pending.Some?
        decreases todo
      {
        var t :| t in todo;
        var e := registry[t];
        if e.pending.Some? {
          ok := true;
          registry := registry[t := Entry(e.pending, None, e.lastApplied)];
        }
        assert was.Keys - (todo - {t}) == was.Keys - todo + {t};
        todo := todo - {t};
      }
      assert was.Keys - {} == was.Keys;
    }

    method RevertPending()
      requires Valid()
      modifies this
      ensures Valid() && View() == PureRevert(old(View())) && staged == {}
      ensures View().Keys == old(View()).Keys && forall t <- old(View()) :: View()[t] == old(View())[t].(pending := None)
    {
      RevertedRegistryValid(registry, frozen, staged);
      DropAllPending();
      Settle(frozen, {});
    }

    method DropAllPending()
      modifies this`registry
      ensures registry == RevertedRegistry(old(registry))
    {
      ghost var was := registry;
      var todo := registry.Keys;
      while todo != {}
        invariant todo <= was.Keys == registry.Keys
        invariant forall t <- was :: registry[t] == if t in todo then was[t] else was[t].(pending := None)
        decreases todo
      {
        var t :| t in todo;
        registry := registry[t := registry[t].(pending := None)];
        todo := todo - {t};
      }
    }

    // Setting a value: copy the committed configuration once, then edit the copy in place.  The
    // value comes from a request and shares nothing with the store.
    method HandleSet(t: string, path: seq<string>, v: HeapValue) returns (ok: bool)
      requires Valid() && ValueValid(v) && ReprOf(v) !! frozen + staged
      modifies this, staged
      ensures Valid() && frozen == old(frozen)
      ensures ok <==>
                && t in old(View()) && (old(View())[t].pending.Some? || old(View())[t].committed.Some?)
                && var config := if old(View())[t].pending.Some? then old(View())[t].pending.value else old(View())[t].committed.value;
                   if path == [] then old(ViewOf(v)).Obj?
                   else GetIn(config, path[..|path| - 1]).Some? && GetIn(config, path[..|path| - 1]).value.Obj?
      ensures ok == PureSet(old(View()), t, path, old(ViewOf(v))).Some?
      ensures View() == if ok then PureSet(old(View()), t, path, old(ViewOf(v))).value else old(View())
      ensures !ok ==> registry == old(registry) && forall n <- old(staged) :: n.fields == old(n.fields)
    {
      SetIsPossible(View(), t, path, ViewOf(v));
      if t !in registry { return false; }
      assert EntryValid(registry[t], frozen, staged);
      var e := registry[t];
      if e.pending.Some? {
        ok := EditPending(t, path, v);
      } else if e.committed.None? {
        ok := false;
      } else {
        ok := EditCopy(t, path, v);
      }
    }

    method EditPending(t: string, path: seq<string>, v: HeapValue) returns (ok: bool)
      requires Valid() && ValueValid(v) && ReprOf(v) !! frozen + staged
      requires t in registry && registry[t].pending.Some?
      modifies this`frozen, this`staged, staged
      ensures Valid() && frozen == old(frozen)
      ensures var edited := old(Edited(registry[t].pending.value.view, path, ViewOf(v)));
              && ok == edited.Some?
              && View() == if ok then old(View())[t := old(View())[t].(pending := edited)] else old(View())
      ensures !ok ==> forall n <- old(staged) :: n.fields == old(n.fields)
    {
      ghost var now;
      ok, now := EditInPlace(t, registry[t].pending.value, path, v, registry, frozen, staged);
      Settle(frozen, now);
    }

    // The copy of the committed configuration is thrown away if the edit fails.
    method EditCopy(t: string, path: seq<string>, v: HeapValue) returns (ok: bool)
      requires Valid() && ValueValid(v) && ReprOf(v) !! frozen + staged
      requires t in registry && registry[t].pending.None? && registry[t].committed.Some?
      modifies this
      ensures Valid() && frozen == old(frozen)
      ensures var edited := old(Edited(registry[t].committed.value.view, path, ViewOf(v)));
              && ok == edited.Some?
              && View() == if ok then old(View())[t := old(View())[t].(pending := edited)] else old(View())
      ensures !ok ==> registry == old(registry)
    {
      assert EntryValid(registry[t], frozen, staged);
      var config;
      ghost var store := View();
      ok, config := CopyAndSet(registry[t].committed.value, path, v);
      assert View() == store;
      if ok { SetPending(t, config); }
    }

    // The configuration is the pending one already, or shares nothing with the store.
    method SetPending(t: string, config: Node)
      requires Valid() && config.Valid()
      requires config.Repr !! frozen + staged || EntryOf(registry, t).pending == Some(config)
      modifies this
      ensures Valid() && frozen == old(frozen)
      ensures View() == old(View())[t := PureEntryOf(old(View()), t).(pending := Some(config.view))]
    {
      if EntryOf(registry, t).pending == Some(config) {
        assert EntryValid(registry[t], frozen, staged);
        PutSame(View(), t);
        return;
      }
      StagedRootAdded(registry, frozen, staged, t, config);
      registry := registry[t := EntryOf(registry, t).(pending := Some(config))];
      Settle(frozen, staged + config.Repr);
    }
  }

  // Setting a value leaves a registry that shares nothing with the configuration as it was.
  method SetBeside(config: Node, path: seq<string>, v: HeapValue,
                   ghost registry: map<string, Entry>, ghost frozen: set<Node>, ghost staged: set<Node>) returns (ok: bool)
    requires config.Valid() && ValueValid(v) && ReprOf(v) !! config.Repr
    requires RegistryValid(registry, frozen, staged) && config.Repr + ReprOf(v) !! frozen + staged
    modifies config.Repr
    ensures RegistryValid(registry, frozen, staged)
    ensures RegistryView(registry, frozen, staged) == old(RegistryView(registry, frozen, staged))
    ensures config.Valid() && config.Repr !! frozen + staged
    ensures ok == Edited(old(config.view), path, old(ViewOf(v))).Some?
    ensures config.view == if ok then Edited(old(config.view), path, old(ViewOf(v))).value else old(config.view)
    ensures !ok ==> config.Repr == old(config.Repr) && forall n <- config.Repr :: n.fields == old(n.fields)
  {
    ok := SetValue(config, path, v);
  }

  // Editing a pending configuration of the registry changes that value only; `now` is what is staged then.
  method EditInPlace(t: string, config: Node, path: seq<string>, v: HeapValue,
                     ghost registry: map<string, Entry>, ghost frozen: set<Node>, ghost staged: set<Node>)
    returns (ok: bool, ghost now: set<Node>)
    requires RegistryValid(registry, frozen, staged) && ValueValid(v) && ReprOf(v) !! frozen + staged
    requires t in registry && registry[t].pending == Some(config)
    modifies staged
    ensures RegistryValid(registry, frozen, now)
    ensures var was := old(RegistryView(registry, frozen, staged));
            var edited := old(Edited(registry[t].pending.value.view, path, ViewOf(v)));
            && ok == edited.Some?
            && RegistryView(registry, frozen, now) == if ok then was[t := was[t].(pending := edited)] else was
    ensures !ok ==> forall n <- staged :: n.fields == old(n.fields)
  {
    assert EntryValid(registry[t], frozen, staged);
    ghost var bare, rest := registry[t := registry[t].(pending := None)], staged - config.Repr;
    ghost var store := RegistryView(registry, frozen, staged);
    PendingTakenOut(registry, frozen, staged, t);
    ghost var bareStore := RegistryView(bare, frozen, rest);
    ok := SetBeside(config, path, v, bare, frozen, rest);
    now := rest + config.Repr;
    PendingPutBack(registry, frozen, rest, t, config, store, bareStore);
    PutSame(store, t);
  }

  // Copying a configuration and setting a value in the copy, which shares nothing but that value.
  method CopyAndSet(committed: Node, path: seq<string>, v: HeapValue) returns (ok: bool, config: Node)
    requires committed.Valid() && ValueValid(v)
    ensures config.Valid() && fresh(config.Repr - old(ReprOf(v)))
    ensures var edited := old(Edited(committed.view, path, ViewOf(v)));
            ok == edited.Some? && (ok ==> config.view == edited.value)
  {
    config := committed.DeepCopy();
    ok := SetValue(config, path, v);
  }

  // The path is what follows the configuration type; an empty one replaces the whole configuration.
  method SetValue(config: Node, path: seq<string>, v: HeapValue) returns (ok: bool)
    requires config.Valid() && ValueValid(v) && ReprOf(v) !! config.Repr
    modifies config.Repr
    ensures config.Valid() && config.Repr <= old(config.Repr) + old(ReprOf(v))
    ensures ok == Edited(old(config.view), path, old(ViewOf(v))).Some?
    ensures ok ==> config.view == Edited(old(config.view), path, old(ViewOf(v))).value
    ensures !ok ==> config.view == old(config.view) && config.Repr == old(config.Repr)
    ensures !ok ==> forall n <- config.Repr :: n.fields == old(n.fields)
  {
    if path == [] {
      if v.HLeaf? { return false; }
      config.ReplaceAll(v.node);
      ok := true;
    } else {
      ok := config.SetGenericValue(path, v);
    }
  }
}
