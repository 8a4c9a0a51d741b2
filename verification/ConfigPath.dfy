// Getting and setting values along a path in nested configuration maps, as values
// (daemon/path.go, getGenericValue and setGenericValue).
module ConfigPath {
  import opened Basics

  // A decoded JSON value: a map of fields, or anything else, which paths never enter.
  datatype Value = Leaf(text: string) | Obj(fields: Fields)

  type Fields = map<string, Value>

  // Every key on the way but the last must exist and hold a map.
  function SetIn(m: Fields, path: seq<string>, v: Value): Option<Fields>
    decreases |path|
  {
    if path == [] then None
    else if |path| == 1 then Some(m[path[0] := v])
    else if path[0] !in m || m[path[0]].Leaf? then None
    else
      var r := SetIn(m[path[0]].fields, path[1..], v);
      if r.None? then None else Some(m[path[0] := Obj(r.value)])
  }

  // A path that runs into something other than a map yields what it ran into.
  function GetIn(m: Fields, path: seq<string>): Option<Value>
    decreases |path|
  {
    if path == [] then Some(Obj(m))
    else if path[0] !in m then None
    else if |path| == 1 || m[path[0]].Leaf? then Some(m[path[0]])
    else GetIn(m[path[0]].fields, path[1..])
  }

  // A get goes one key further at a time: into a map by its key, and no further than any other value.
  lemma {:induction false} GetGoesOn(m: Fields, p: seq<string>, key: string)
    ensures GetIn(m, []) == Some(Obj(m))
    ensures GetIn(m, p + [key]) ==
            match GetIn(m, p)
            case None => None
            case Some(Leaf(text)) => Some(Leaf(text))
            case Some(Obj(fields)) => if key in fields then Some(fields[key]) else None
    decreases |p|
  {
    if p != [] {
      assert (p + [key])[0] == p[0] && (p + [key])[1..] == p[1..] + [key];
      if p[0] in m && m[p[0]].Obj? { GetGoesOn(m[p[0]].fields, p[1..], key); }
      if |p| == 1 { assert p[1..] == []; }
    }
  }

  ghost predicate Incomparable(p: seq<string>, q: seq<string>) {
    !(p <= q) && !(q <= p)
  }

  function Inside(v: Value, path: seq<string>): Option<Value> {
    match v
    case Leaf(_) => Some(v)
    case Obj(fields) => GetIn(fields, path)
  }

  // A set succeeds exactly when its path is not empty and everything above it is a map.
  lemma {:induction false} SetSucceeds(m: Fields, p: seq<string>, v: Value)
    ensures SetIn(m, p, v).Some? <==> p != [] && GetIn(m, p[..|p| - 1]).Some? && GetIn(m, p[..|p| - 1]).value.Obj?
    decreases |p|
  {
    if |p| >= 2 {
      assert p[..|p| - 1][1..] == p[1..][..|p[1..]| - 1];
      if p[0] in m && m[p[0]].Obj? { SetSucceeds(m[p[0]].fields, p[1..], v); }
    }
  }

  // After a set at p, a get at p or below finds the new value, or what is inside it.
  lemma {:induction false} GetAtOrBelowSet(m: Fields, p: seq<string>, v: Value, q: seq<string>)
    requires SetIn(m, p, v).Some?
    ensures GetIn(SetIn(m, p, v).value, p + q) == if q == [] then Some(v) else Inside(v, q)
    decreases |p|
  {
    assert (p + q)[0] == p[0] && (p + q)[1..] == p[1..] + q;
    if |p| == 1 {
      assert p[1..] + q == q;
    } else {
      GetAtOrBelowSet(m[p[0]].fields, p[1..], v, q);
    }
  }

  // A get at a path incomparable with p is not affected.
  lemma {:induction false} GetBesideSet(m: Fields, p: seq<string>, v: Value, q: seq<string>)
    requires SetIn(m, p, v).Some? && Incomparable(p, q)
    ensures GetIn(SetIn(m, p, v).value, q) == GetIn(m, q)
    decreases |p|
  {
    assert [] <= p && [] <= q;
    assert p == [p[0]] + p[1..] && q == [q[0]] + q[1..];
    if q[0] == p[0] {
      assert |p| > 1 && |q| > 1;
      GetBesideSet(m[p[0]].fields, p[1..], v, q[1..]);
    }
  }

  // A get above p finds the old map with the same set made further down.
  lemma {:induction false} GetAboveSet(m: Fields, q: seq<string>, rest: seq<string>, v: Value)
    requires SetIn(m, q + rest, v).Some? && rest != []
    ensures GetIn(m, q).Some? && GetIn(m, q).value.Obj? && SetIn(GetIn(m, q).value.fields, rest, v).Some?
    ensures GetIn(SetIn(m, q + rest, v).value, q) == Some(Obj(SetIn(GetIn(m, q).value.fields, rest, v).value))
    decreases |q|
  {
    if q == [] {
      assert q + rest == rest;
    } else {
      assert (q + rest)[0] == q[0] && (q + rest)[1..] == q[1..] + rest;
      GetAboveSet(m[q[0]].fields, q[1..], rest, v);
    }
  }

  // What a set puts under the first key.
  function NewHead(m: Fields, p: seq<string>, v: Value): Value
    requires SetIn(m, p, v).Some?
  {
    if |p| == 1 then v else Obj(SetIn(m[p[0]].fields, p[1..], v).value)
  }

  // Setting the same path again overwrites.
  lemma {:induction false} SetOverwrites(m: Fields, p: seq<string>, v: Value, w: Value)
    requires SetIn(m, p, v).Some?
    ensures SetIn(SetIn(m, p, v).value, p, w) == SetIn(m, p, w)
    decreases |p|
  {
    SetSucceeds(m, p, v);
    SetSucceeds(m, p, w);
    var a := SetIn(m, p, v).value;
    assert a == m[p[0] := NewHead(m, p, v)];
    if |p| > 1 { SetOverwrites(m[p[0]].fields, p[1..], v, w); }
    assert a[p[0] := NewHead(m, p, w)] == m[p[0] := NewHead(m, p, w)];
  }

  lemma SetElsewhere(m: Fields, p: seq<string>, v: Value, key: string, x: Value)
    requires SetIn(m, p, v).Some? && p[0] != key
    ensures SetIn(m[key := x], p, v) == Some(m[key := x][p[0] := NewHead(m, p, v)])
  {
  }

  lemma SetUnder(m: Fields, p: seq<string>, v: Value, x: Fields)
    requires |p| > 1 && SetIn(x, p[1..], v).Some?
    ensures SetIn(m[p[0] := Obj(x)], p, v) == Some(m[p[0] := Obj(SetIn(x, p[1..], v).value)])
  {
    var r := SetIn(x, p[1..], v).value;
    assert m[p[0] := Obj(x)][p[0] := Obj(r)] == m[p[0] := Obj(r)];
  }

  lemma SetsCommuteApart(m: Fields, p: seq<string>, v: Value, q: seq<string>, w: Value)
    requires SetIn(m, p, v).Some? && SetIn(m, q, w).Some? && p[0] != q[0]
    ensures SetIn(SetIn(m, p, v).value, q, w).Some?
    ensures SetIn(SetIn(m, p, v).value, q, w) == SetIn(SetIn(m, q, w).value, p, v)
  {
    var x, y := NewHead(m, p, v), NewHead(m, q, w);
    assert SetIn(m, p, v).value == m[p[0] := x] && SetIn(m, q, w).value == m[q[0] := y];
    SetElsewhere(m, q, w, p[0], x);
    SetElsewhere(m, p, v, q[0], y);
    assert m[p[0] := x][q[0] := y] == m[q[0] := y][p[0] := x];
  }

  lemma {:induction false} BothSetsCommute(m: Fields, p: seq<string>, v: Value, q: seq<string>, w: Value)
    requires SetIn(m, p, v).Some? && SetIn(m, q, w).Some? && Incomparable(p, q)
    ensures SetIn(SetIn(m, p, v).value, q, w).Some?
    ensures SetIn(SetIn(m, p, v).value, q, w) == SetIn(SetIn(m, q, w).value, p, v)
    decreases |p|
  {
    if p[0] != q[0] {
      SetsCommuteApart(m, p, v, q, w);
    } else {
      assert p == [p[0]] + p[1..] && q == [q[0]] + q[1..];
      assert |p| > 1 && |q| > 1;
      var inner := m[p[0]].fields;
      BothSetsCommute(inner, p[1..], v, q[1..], w);
      SetUnder(m, q, w, SetIn(inner, p[1..], v).value);
      SetUnder(m, p, v, SetIn(inner, q[1..], w).value);
    }
  }

  // A set at an incomparable path does not decide whether another succeeds.
  lemma {:induction false} SuccessUnaffected(m: Fields, p: seq<string>, v: Value, q: seq<string>, w: Value)
    requires SetIn(m, q, w).Some? && Incomparable(p, q)
    ensures SetIn(SetIn(m, q, w).value, p, v).Some? <==> SetIn(m, p, v).Some?
    decreases |p|
  {
    if p[0] == q[0] {
      assert p == [p[0]] + p[1..] && q == [q[0]] + q[1..];
      assert |p| > 1 && |q| > 1;
      SuccessUnaffected(m[p[0]].fields, p[1..], v, q[1..], w);
    }
  }

  // A set that fails changes nothing.
  function Tried(m: Fields, p: seq<string>, v: Value): Fields {
    if SetIn(m, p, v).Some? then SetIn(m, p, v).value else m
  }

  // Sets at incomparable paths commute, failures included.
  lemma SetsCommute(m: Fields, p: seq<string>, v: Value, q: seq<string>, w: Value)
    requires Incomparable(p, q)
    ensures SetIn(Tried(m, q, w), p, v).Some? <==> SetIn(m, p, v).Some?
    ensures SetIn(Tried(m, p, v), q, w).Some? <==> SetIn(m, q, w).Some?
    ensures Tried(Tried(m, p, v), q, w) == Tried(Tried(m, q, w), p, v)
  {
    if SetIn(m, q, w).Some? { SuccessUnaffected(m, p, v, q, w); }
    if SetIn(m, p, v).Some? { SuccessUnaffected(m, q, w, p, v); }
    if SetIn(m, p, v).Some? && SetIn(m, q, w).Some? { BothSetsCommute(m, p, v, q, w); }
  }
}
