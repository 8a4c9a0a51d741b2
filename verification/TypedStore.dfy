// Staging the typed configurations, interfaces and routes: maps of structs that are copied one level
// deep, while the slices in the structs stay shared (daemon/path.go, daemon/navigator.go, and
// handleSet, deepCopyInterfaces and deepCopyRoutes of daemon/server.go).
module TypedStore {
  import opened Basics

  datatype Kind = Interfaces | Routes

  // ----- getting and setting, for fields of any sort -----

  type Struct<F> = map<string, F>
  type Structs<F> = map<string, Struct<F>>

  // A value to set, as far as it converts to a map of structs, to one struct, and to the named field.
  datatype Input<F> = Input(whole: Option<Structs<F>>, one: Option<Struct<F>>, field: Option<F>)

  // The fields of a struct, and the struct with zero in all of them.
  datatype Schema<F> = Schema(kind: Kind, fields: set<string>, zero: Struct<F>)

  // Which struct and which field a longer path means.  Below the field, interfaces refuse the path and
  // routes ignore it; the name of a route cannot be set; a route is created when a field of it is set.
  predicate SettablePath<F>(s: Schema<F>, m: Structs<F>, path: seq<string>)
    requires |path| >= 2
  {
    && path[1] in s.fields
    && (s.kind == Interfaces ==> path[0] in m && |path| == 2)
    && (s.kind == Routes ==> path[1] != "name")
  }

  function SetTyped<F>(s: Schema<F>, m: Structs<F>, path: seq<string>, v: Input<F>): Option<Structs<F>> {
    if path == [] then v.whole
    else if |path| == 1 then
      if v.one.Some? then Some(m[path[0] := v.one.value]) else None
    else if !SettablePath(s, m, path) || v.field.None? then None
    else
      var was := if path[0] in m then m[path[0]] else s.zero;
      Some(m[path[0] := was[path[1] := v.field.value]])
  }

  datatype Got<F> = Whole(structs: Structs<F>) | One(struct: Struct<F>) | Field(field: F)

  function GetTyped<F>(s: Schema<F>, m: Structs<F>, path: seq<string>): Option<Got<F>> {
    if path == [] then Some(Whole(m))
    else if path[0] !in m then None
    else if |path| == 1 then Some(One(m[path[0]]))
    else if path[1] !in m[path[0]] || (s.kind == Interfaces && |path| > 2) then None
    else Some(Field(m[path[0]][path[1]]))
  }

  // A get at the path of a set finds what was set.
  lemma GetAfterSet<F>(s: Schema<F>, m: Structs<F>, path: seq<string>, v: Input<F>)
    requires SetTyped(s, m, path, v).Some?
    ensures GetTyped(s, SetTyped(s, m, path, v).value, path) ==
            Some(if path == [] then Whole(v.whole.value) else if |path| == 1 then One(v.one.value) else Field(v.field.value))
  {
  }

  // A get elsewhere finds what it found before: in another struct, or in another field of a struct
  // that was there.
  lemma GetElsewhere<F>(s: Schema<F>, m: Structs<F>, path: seq<string>, v: Input<F>, q: seq<string>)
    requires SetTyped(s, m, path, v).Some? && path != [] && q != []
    requires q[0] != path[0] || (|q| >= 2 && |path| >= 2 && q[1] != path[1] && path[0] in m)
    ensures GetTyped(s, SetTyped(s, m, path, v).value, q) == GetTyped(s, m, q)
  {
  }

  // When a set and a get lead anywhere: an interface and its field have to be there, nothing lies below
  // a field of an interface, and the name of a route cannot be set.
  lemma PathsThatLead<F>(s: Schema<F>, m: Structs<F>, path: seq<string>, v: Input<F>)
    ensures SetTyped(s, m, path, v).Some? <==>
              if |path| == 0 then v.whole.Some?
              else if |path| == 1 then v.one.Some?
              else
                && v.field.Some? && path[1] in s.fields
                && (s.kind == Interfaces ==> |path| == 2 && path[0] in m)
                && (s.kind == Routes ==> path[1] != "name")
    ensures GetTyped(s, m, path).Some? <==>
              && (|path| > 0 ==> path[0] in m)
              && (|path| > 1 ==> path[1] in m[path[0]])
              && (|path| > 2 ==> s.kind == Routes)
  {
  }

  // Of the path of a route only the name and the field count.
  lemma LongRoutePathsAreCut<F>(s: Schema<F>, m: Structs<F>, path: seq<string>, v: Input<F>)
    requires s.kind == Routes && |path| >= 2
    ensures SetTyped(s, m, path, v) == SetTyped(s, m, path[..2], v) && GetTyped(s, m, path) == GetTyped(s, m, path[..2])
  {
  }

  // ----- structs on the heap -----

  // A slice is a reference; everything else in a struct is copied with it.
  datatype HeapField = Scalar(text: string) | Slice(items: array<string>)

  datatype PlainField = PlainScalar(text: string) | PlainSlice(items: seq<string>)

  type Contents = map<array<string>, seq<string>>

  // What the slices hold at this moment.
  ghost function Snapshot(slices: set<array<string>>): Contents
    reads slices
  {
    map a | a in slices :: a[..]
  }

  ghost function FieldIn(f: HeapField, c: Contents): PlainField {
    match f
    case Scalar(text) => PlainScalar(text)
    case Slice(items) => PlainSlice(if items in c then c[items] else [])
  }

  ghost function StructIn(r: Struct<HeapField>, c: Contents): Struct<PlainField> {
    map f | f in r :: FieldIn(r[f], c)
  }

  ghost function StructsIn(m: Structs<HeapField>, c: Contents): Structs<PlainField> {
    map n | n in m :: StructIn(m[n], c)
  }

  ghost function InputIn(v: Input<HeapField>, c: Contents): Input<PlainField> {
    Input(if v.whole.Some? then Some(StructsIn(v.whole.value, c)) else None,
          if v.one.Some? then Some(StructIn(v.one.value, c)) else None,
          if v.field.Some? then Some(FieldIn(v.field.value, c)) else None)
  }

  ghost function SchemaIn(s: Schema<HeapField>, c: Contents): Schema<PlainField> {
    Schema(s.kind, s.fields, StructIn(s.zero, c))
  }

  ghost predicate SlicesWithin(m: Structs<HeapField>, slices: set<array<string>>) {
    forall n, f | n in m && f in m[n] && m[n][f].Slice? :: m[n][f].items in slices
  }

  // Slices that are not in a configuration do not matter to it.
  lemma MoreSlices(m: Structs<HeapField>, slices: set<array<string>>, c: Contents, d: Contents)
    requires SlicesWithin(m, slices) && forall a <- slices :: a in c && a in d && c[a] == d[a]
    ensures StructsIn(m, c) == StructsIn(m, d)
  {
    forall n | n in m ensures StructIn(m[n], c) == StructIn(m[n], d) {
      MoreSlicesOne(m[n], slices, c, d);
    }
  }

  lemma MoreSlicesOne(r: Struct<HeapField>, slices: set<array<string>>, c: Contents, d: Contents)
    requires forall f <- r | r[f].Slice? :: r[f].items in slices
    requires forall a <- slices :: a in c && a in d && c[a] == d[a]
    ensures StructIn(r, c) == StructIn(r, d)
  {
  }

  lemma PutStruct(m: Structs<HeapField>, n: string, r: Struct<HeapField>, c: Contents)
    ensures StructsIn(m[n := r], c) == StructsIn(m, c)[n := StructIn(r, c)]
  {
  }

  lemma PutField(r: Struct<HeapField>, f: string, x: HeapField, c: Contents)
    ensures StructIn(r[f := x], c) == StructIn(r, c)[f := FieldIn(x, c)]
  {
  }

  // Setting in the structs means setting in what they stand for.
  lemma SetViews(s: Schema<HeapField>, m: Structs<HeapField>, path: seq<string>, v: Input<HeapField>, c: Contents)
    ensures SetTyped(SchemaIn(s, c), StructsIn(m, c), path, InputIn(v, c)) ==
            var r := SetTyped(s, m, path, v); if r.Some? then Some(StructsIn(r.value, c)) else None
  {
    if |path| == 1 && v.one.Some? {
      PutStruct(m, path[0], v.one.value, c);
    } else if |path| >= 2 {
      assert SettablePath(SchemaIn(s, c), StructsIn(m, c), path) == SettablePath(s, m, path);
      if SettablePath(s, m, path) && v.field.Some? {
        var was := if path[0] in m then m[path[0]] else s.zero;
        PutField(was, path[1], v.field.value, c);
        PutStruct(m, path[0], was[path[1] := v.field.value], c);
      }
    }
  }

  // The slices of a value to set.
  ghost predicate InputWithin(v: Input<HeapField>, slices: set<array<string>>) {
    && (v.whole.Some? ==> SlicesWithin(v.whole.value, slices))
    && (v.one.Some? ==> forall f <- v.one.value | v.one.value[f].Slice? :: v.one.value[f].items in slices)
    && (v.field.Some? && v.field.value.Slice? ==> v.field.value.items in slices)
  }

  lemma SetStaysWithin(s: Schema<HeapField>, m: Structs<HeapField>, path: seq<string>, v: Input<HeapField>, slices: set<array<string>>)
    requires SlicesWithin(m, slices) && InputWithin(v, slices) && forall f <- s.zero :: s.zero[f].Scalar?
    ensures var r := SetTyped(s, m, path, v); r.Some? ==> SlicesWithin(r.value, slices)
  {
  }

  // ----- the store -----

  class Config {
    var structs: Structs<HeapField>

    constructor (structs: Structs<HeapField>)
      ensures this.structs == structs
    {
      this.structs := structs;
    }

    // One level: the structs are copied, the slices in them are not.
    method DeepCopy() returns (copy: Config)
      ensures fresh(copy) && copy.structs == structs
    {
      copy := new Config(map[]);
      var todo := structs.Keys;
      while todo != {}
        invariant todo <= structs.Keys && copy.structs == structs - todo
        decreases todo
      {
        var n :| n in todo;
        assert (structs - todo)[n := structs[n]] == structs - (todo - {n});
        copy.structs := copy.structs[n := structs[n]];
        todo := todo - {n};
      }
      assert structs - {} == structs;
    }

    method SetValue(s: Schema<HeapField>, path: seq<string>, v: Input<HeapField>) returns (ok: bool)
      modifies this
      ensures ok <==>
                if |path| == 0 then v.whole.Some?
                else if |path| == 1 then v.one.Some?
                else
                  && v.field.Some? && path[1] in s.fields
                  && (s.kind == Interfaces ==> |path| == 2 && path[0] in old(structs))
                  && (s.kind == Routes ==> path[1] != "name")
      ensures ok == SetTyped(s, old(structs), path, v).Some?
      ensures structs == if ok then SetTyped(s, old(structs), path, v).value else old(structs)
    {
      if path == [] {
        if v.whole.None? { return false; }
        structs := v.whole.value;
        return true;
      }
      var name := path[0];
      if |path| == 1 {
        if v.one.None? { return false; }
        structs := structs[name := v.one.value];
        return true;
      }
      if s.kind == Interfaces && name !in structs { return false; }
      var struct := if name in structs then structs[name] else s.zero;
      if s.kind == Interfaces && |path| > 2 { return false; }
      if s.kind == Routes && path[1] == "name" { return false; }
      if path[1] !in s.fields || v.field.None? { return false; }
      struct := struct[path[1] := v.field.value];
      structs := structs[name := struct];
      ok := true;
    }
  }

  class TypedState {
    const schema: Schema<HeapField>
    var committed: Option<Config>
    var pending: Option<Config>
    ghost var slices: set<array<string>>      // every slice a configuration has held

    constructor (schema: Schema<HeapField>, committed: Option<Config>)
      requires forall f <- schema.zero :: schema.zero[f].Scalar?
      ensures Valid() && this.schema == schema && this.committed == committed && pending == None
    {
      this.schema, this.committed, pending := schema, committed, None;
      slices := if committed.Some?
        then set n, f | n in committed.value.structs && f in committed.value.structs[n] && committed.value.structs[n][f].Slice? ::
          committed.value.structs[n][f].items
        else {};
    }

    // The pending configuration is an object of its own; its slices may be those of the committed one.
    ghost predicate Valid()
      reads this, if committed.Some? then {committed.value} else {}, if pending.Some? then {pending.value} else {}
    {
      && (committed.Some? && pending.Some? ==> committed.value != pending.value)
      && (committed.Some? ==> SlicesWithin(committed.value.structs, slices))
      && (pending.Some? ==> SlicesWithin(pending.value.structs, slices))
      && (forall f <- schema.zero :: schema.zero[f].Scalar?)
    }

    ghost function ViewOf(config: Option<Config>): Option<Structs<PlainField>>
      reads this, if config.Some? then {config.value} else {}, slices
    {
      if config.Some? then Some(StructsIn(config.value.structs, Snapshot(slices))) else None
    }

    ghost function Current(): Option<Config>
      reads this
    {
      if pending.Some? then pending else committed
    }

    // A set changes what is pending and nothing else, although the copy shares its slices with the
    // committed configuration: no slice is ever written to.  A failing set changes nothing.
    method HandleSet(path: seq<string>, v: Input<HeapField>, ghost more: set<array<string>>) returns (ok: bool)
      requires Valid() && InputWithin(v, more)
      modifies this`pending, this`slices, if pending.Some? then {pending.value} else {}
      ensures Valid() && slices == old(slices) + more && ViewOf(committed) == old(ViewOf(committed))
      ensures var c := old(Snapshot(slices + more));
              var current := old(ViewOf(Current()));
              var edited := if current.None? then None else SetTyped(SchemaIn(schema, c), current.value, path, InputIn(v, c));
              ok == edited.Some? && ViewOf(pending) == if ok then edited else old(ViewOf(pending))
      ensures !ok ==> pending == old(pending)
      ensures ok <==>
                && old(pending.Some? || committed.Some?)
                && if |path| == 0 then v.whole.Some?
                   else if |path| == 1 then v.one.Some?
                   else
                     && v.field.Some? && path[1] in schema.fields
                     && (schema.kind == Interfaces ==>
                           |path| == 2 && path[0] in old(if pending.Some? then pending.value.structs else committed.value.structs))
                     && (schema.kind == Routes ==> path[1] != "name")
    {
      ghost var d := Snapshot(slices + more);
      Admit(more);
      if pending.None? && committed.None? { return false; }
      var config := PendingOrCopy();
      ghost var m := config.structs;
      PathsThatLead(schema, m, path, v);
      SetViews(schema, m, path, v, d);
      SetStaysWithin(schema, m, path, v, slices);
      ok := Change(config, path, v);
      if ok { Stage(config); }
    }

    method Stage(config: Config)
      modifies this`pending
      ensures pending == Some(config) && ViewOf(pending) == old(ViewOf(Some(config)))
      ensures ViewOf(committed) == old(ViewOf(committed))
    {
      ghost var c := Snapshot(slices);
      pending := Some(config);
      assert Snapshot(slices) == c;
    }

    method Change(config: Config, path: seq<string>, v: Input<HeapField>) returns (ok: bool)
      requires committed != Some(config)
      modifies config
      ensures Snapshot(slices) == old(Snapshot(slices)) && ViewOf(committed) == old(ViewOf(committed))
      ensures ok == SetTyped(schema, old(config.structs), path, v).Some?
      ensures config.structs == if ok then SetTyped(schema, old(config.structs), path, v).value else old(config.structs)
    {
      ok := config.SetValue(schema, path, v);
    }

    method PendingOrCopy() returns (config: Config)
      requires Valid() && Current().Some?
      ensures config.structs == Current().value.structs
      ensures if pending.Some? then config == pending.value else fresh(config)
    {
      if pending.Some? {
        config := pending.value;
      } else {
        config := committed.value.DeepCopy();
      }
    }

    // Slices that come with a request.
    ghost method Admit(more: set<array<string>>)
      requires Valid()
      modifies this`slices
      ensures Valid() && slices == old(slices) + more
      ensures ViewOf(committed) == old(ViewOf(committed)) && ViewOf(pending) == old(ViewOf(pending))
    {
      var c, d := Snapshot(slices), Snapshot(slices + more);
      if committed.Some? { MoreSlices(committed.value.structs, slices, c, d); }
      if pending.Some? { MoreSlices(pending.value.structs, slices, c, d); }
      slices := slices + more;
      assert Snapshot(slices) == d;
    }

    method Commit()
      requires Valid()
      modifies this`committed, this`pending
      ensures Valid() && pending == None && committed == old(Current()) && ViewOf(committed) == old(ViewOf(Current()))
    {
      ghost var c := Snapshot(slices);
      if pending.Some? {
        committed := pending;
        pending := None;
      }
      assert Snapshot(slices) == c;
    }

    method Revert()
      requires Valid()
      modifies this`pending
      ensures Valid() && pending == None && ViewOf(committed) == old(ViewOf(committed))
    {
      ghost var c := Snapshot(slices);
      pending := None;
      assert Snapshot(slices) == c;
    }
  }
}
