// Listing what changed between two interface configurations (daemon/diff.go).
module Diff {
  import opened Basics

  // The fields of types.Interface, in declaration order.
  datatype Field =
    | IPv6 | Gateway | Comment | MAC | Type | Device | DeviceName | Protocol | IPAddr | WGPrivateKey | Netmask
    | BridgePorts | DNS | WGPeers
    | Metric | MTU | BridgeForwardDelay | VLANId | WGListenPort
    | Enabled | BridgeSTP

  const FIELDS: seq<Field> :=
    [IPv6, Gateway, Comment, MAC, Type, Device, DeviceName, Protocol, IPAddr, WGPrivateKey, Netmask,
     BridgePorts, DNS, WGPeers, Metric, MTU, BridgeForwardDelay, VLANId, WGListenPort, Enabled, BridgeSTP]

  function Position(f: Field): nat {
    match f
    case IPv6 => 0
    case Gateway => 1
    case Comment => 2
    case MAC => 3
    case Type => 4
    case Device => 5
    case DeviceName => 6
    case Protocol => 7
    case IPAddr => 8
    case WGPrivateKey => 9
    case Netmask => 10
    case BridgePorts => 11
    case DNS => 12
    case WGPeers => 13
    case Metric => 14
    case MTU => 15
    case BridgeForwardDelay => 16
    case VLANId => 17
    case WGListenPort => 18
    case Enabled => 19
    case BridgeSTP => 20
  }

  lemma FieldIsListed(f: Field)
    ensures FIELDS[Position(f)] == f
  {
  }

  lemma PositionOfListed(k: nat)
    requires k < |FIELDS|
    ensures Position(FIELDS[k]) == k
  {
  }

  lemma FieldsAreListed()
    ensures NoDup(FIELDS) && forall f: Field :: f in FIELDS
  {
    forall f: Field ensures f in FIELDS { FieldIsListed(f); }
    forall i, j | 0 <= i < j < |FIELDS| ensures FIELDS[i] != FIELDS[j] {
      PositionOfListed(i);
      PositionOfListed(j);
    }
  }

  // A nil slice and an empty one are different values.  What a pointer or a slice element holds is
  // compared as a whole.
  datatype FieldValue =
    | Text(text: string)
    | Number(number: int)
    | Flag(flag: bool)
    | Slice(items: Option<seq<string>>)
    | Pointer(target: Option<string>)

  predicate WellTypedField(f: Field, v: FieldValue) {
    match f
    case IPv6 => v.Pointer?
    case Metric | MTU | BridgeForwardDelay | VLANId | WGListenPort => v.Number?
    case BridgePorts | DNS | WGPeers => v.Slice?
    case Enabled | BridgeSTP => v.Flag?
    case _ => v.Text?
  }

  type Interface = map<Field, FieldValue>

  type Interfaces = map<string, Interface>

  ghost predicate WellTyped(i: Interface) {
    forall f: Field :: f in i && WellTypedField(f, i[f])
  }

  ghost predicate WellTypedAll(c: Interfaces) {
    forall n <- c :: WellTyped(c[n])
  }

  predicate IsZeroValue(v: FieldValue) {
    match v
    case Text(t) => |t| == 0
    case Number(n) => n == 0
    case Flag(b) => !b
    case Slice(items) => items.None? || |items.value| == 0
    case Pointer(p) => p.None?
  }

  // Equal, or both empty.
  predicate Same(v: FieldValue, w: FieldValue) {
    v == w || (IsZeroValue(v) && IsZeroValue(w))
  }

  // In one field, values that count as the same differ at most in a slice being nil or empty.
  lemma SameUpToNil(f: Field, v: FieldValue, w: FieldValue)
    requires WellTypedField(f, v) && WellTypedField(f, w)
    ensures Same(v, w) <==> v == w || (v.Slice? && {v.items, w.items} == {None, Some([])})
  {
    if v.Slice? && IsZeroValue(v) && IsZeroValue(w) {
      assert v.items == None || v.items == Some([]);
      assert w.items == None || w.items == Some([]);
    }
  }

  ghost predicate SameInterface(i: Interface, j: Interface) {
    forall f: Field :: f in i && f in j && Same(i[f], j[f])
  }

  ghost predicate SameInterfaces(c: Interfaces, p: Interfaces) {
    c.Keys == p.Keys && forall n <- c :: SameInterface(c[n], p[n])
  }

  // ----- entries -----

  datatype Entry =
    | Added(name: string, iface: Interface)
    | Removed(name: string, iface: Interface)
    | Modified(name: string, field: Field, was: FieldValue, becomes: FieldValue)

  // The entries from one configuration to another.
  ghost predicate IsEntry(c: Interfaces, p: Interfaces, e: Entry) {
    match e
    case Added(n, i) => n !in c && n in p && i == p[n]
    case Removed(n, i) => n in c && n !in p && i == c[n]
    case Modified(n, f, v, w) =>
      n in c && n in p && f in c[n] && f in p[n] && v == c[n][f] && w == p[n][f] && !Same(v, w)
  }

  // Each of them once, in any order.
  ghost predicate IsDiff(c: Interfaces, p: Interfaces, ds: seq<Entry>) {
    NoDup(ds) && forall e :: e in ds <==> IsEntry(c, p, e)
  }

  // ----- the algorithm -----

  method DiffStructs(name: string, i: Interface, j: Interface) returns (ds: seq<Entry>)
    requires WellTyped(i) && WellTyped(j)
    ensures NoDup(ds) && forall e :: e in ds <==> IsFieldEntry(name, i, j, e)
  {
    ds := [];
    FieldsAreListed();
    for k := 0 to |FIELDS|
      invariant NoDup(ds)
      invariant forall e :: e in ds <==> IsFieldEntry(name, i, j, e) && e.field in FIELDS[..k]
    {
      var f := FIELDS[k];
      assert FIELDS[..k + 1] == FIELDS[..k] + [f] && f !in FIELDS[..k];
      var more := DiffField(name, i, j, f);
      Joined(ds, more);
      ds := ds + more;
    }
    assert FIELDS[..|FIELDS|] == FIELDS;
  }

  ghost predicate IsFieldEntry(name: string, i: Interface, j: Interface, e: Entry)
    requires WellTyped(i) && WellTyped(j)
  {
    e.Modified? && e.name == name && e.was == i[e.field] && e.becomes == j[e.field] && !Same(e.was, e.becomes)
  }

  method DiffField(name: string, i: Interface, j: Interface, f: Field) returns (ds: seq<Entry>)
    requires WellTyped(i) && WellTyped(j)
    ensures NoDup(ds) && forall e :: e in ds <==> IsFieldEntry(name, i, j, e) && e.field == f
  {
    if i[f] == j[f] || (IsZeroValue(i[f]) && IsZeroValue(j[f])) { return []; }
    ds := [Modified(name, f, i[f], j[f])];
  }

  method DiffInterfaces(committed: Interfaces, pending: Interfaces) returns (ds: seq<Entry>)
    requires WellTypedAll(committed) && WellTypedAll(pending)
    ensures IsDiff(committed, pending, ds)
  {
    ds := [];
    var todo := pending.Keys;
    while todo != {}
      invariant todo <= pending.Keys && NoDup(ds)
      invariant forall e :: e in ds <==> IsEntry(committed, pending, e) && e.name in pending.Keys - todo
      decreases todo
    {
      var n :| n in todo;
      todo := todo - {n};
      var more := DiffInterface(committed, pending, n);
      Joined(ds, more);
      ds := ds + more;
    }
    var left := committed.Keys;
    while left != {}
      invariant left <= committed.Keys && NoDup(ds)
      invariant forall e :: e in ds <==> IsEntry(committed, pending, e) && (e.Removed? ==> e.name !in left)
      decreases left
    {
      var n :| n in left;
      left := left - {n};
      if n !in pending {
        Joined(ds, [Removed(n, committed[n])]);
        ds := ds + [Removed(n, committed[n])];
      }
    }
  }

  method DiffInterface(committed: Interfaces, pending: Interfaces, n: string) returns (ds: seq<Entry>)
    requires WellTypedAll(committed) && WellTypedAll(pending) && n in pending
    ensures NoDup(ds) && forall e :: e in ds <==> IsEntry(committed, pending, e) && e.name == n
  {
    if n !in committed { return [Added(n, pending[n])]; }
    ds := DiffStructs(n, committed[n], pending[n]);
  }

  lemma Joined(ds: seq<Entry>, more: seq<Entry>)
    requires NoDup(ds) && NoDup(more) && forall e <- more :: e !in ds
    ensures NoDup(ds + more) && forall e :: e in ds + more <==> e in ds || e in more
  {
    forall i, j | 0 <= i < |ds| <= j < |ds + more| ensures (ds + more)[i] != (ds + more)[j] {
      assert more[j - |ds|] in more;
    }
  }

  // ----- what a list of entries does -----

  function Patch(c: Interfaces, e: Entry): Interfaces {
    match e
    case Added(n, i) => c[n := i]
    case Removed(n, _) => c - {n}
    case Modified(n, f, _, w) => if n in c then c[n := c[n][f := w]] else c
  }

  function Patched(c: Interfaces, ds: seq<Entry>): Interfaces
    decreases |ds|
  {
    if ds == [] then c else Patch(Patched(c, ds[..|ds| - 1]), ds[|ds| - 1])
  }

  // Part of the way from c to p: only the entries in `done` have been replayed.
  ghost function Partway(c: Interfaces, p: Interfaces, done: seq<Entry>): Interfaces {
    map n | n in c.Keys + p.Keys && Present(c, p, done, n) :: if n in c then PartwayInterface(c, p, done, n) else p[n]
  }

  ghost predicate Present(c: Interfaces, p: Interfaces, done: seq<Entry>, n: string)
    requires n in c || n in p
  {
    if n in c then Removed(n, c[n]) !in done else Added(n, p[n]) in done
  }

  ghost function PartwayInterface(c: Interfaces, p: Interfaces, done: seq<Entry>, n: string): Interface
    requires n in c
  {
    map f | f in c[n] :: if n in p && f in p[n] && Modified(n, f, c[n][f], p[n][f]) in done then p[n][f] else c[n][f]
  }

  lemma {:induction false} PatchedIsPartway(c: Interfaces, p: Interfaces, ds: seq<Entry>)
    requires NoDup(ds) && forall e <- ds :: IsEntry(c, p, e)
    ensures Patched(c, ds) == Partway(c, p, ds)
    decreases |ds|
  {
    if ds == [] {
      assert forall n <- c :: PartwayInterface(c, p, ds, n) == c[n];
    } else {
      var front, last := ds[..|ds| - 1], ds[|ds| - 1];
      assert forall e :: e in ds <==> e in front || e == last;
      PatchedIsPartway(c, p, front);
      PartwayStep(c, p, front, last, ds);
    }
  }

  lemma PartwayStep(c: Interfaces, p: Interfaces, done: seq<Entry>, e: Entry, more: seq<Entry>)
    requires IsEntry(c, p, e) && (forall d <- done :: IsEntry(c, p, d)) && forall d :: d in more <==> d in done || d == e
    ensures Patch(Partway(c, p, done), e) == Partway(c, p, more)
  {
    var before, after := Partway(c, p, done), Partway(c, p, more);
    forall n ensures n in after <==> n in Patch(before, e) { PresentStep(c, p, done, e, more, n); }
    forall n | n in after ensures n in Patch(before, e) && after[n] == Patch(before, e)[n] {
      ValueStep(c, p, done, e, more, n);
    }
  }

  lemma ValueStep(c: Interfaces, p: Interfaces, done: seq<Entry>, e: Entry, more: seq<Entry>, n: string)
    requires IsEntry(c, p, e) && (forall d <- done :: IsEntry(c, p, d)) && forall d :: d in more <==> d in done || d == e
    requires n in Partway(c, p, more)
    ensures var patched := Patch(Partway(c, p, done), e); n in patched && Partway(c, p, more)[n] == patched[n]
  {
    PresentStep(c, p, done, e, more, n);
    if n in c { PartwayInterfaceStep(c, p, done, e, more, n); }
  }

  lemma PresentStep(c: Interfaces, p: Interfaces, done: seq<Entry>, e: Entry, more: seq<Entry>, n: string)
    requires IsEntry(c, p, e) && (forall d <- done :: IsEntry(c, p, d)) && forall d :: d in more <==> d in done || d == e
    ensures n in Partway(c, p, more) <==>
            if e.Removed? && n == e.name then false else (e.Added? && n == e.name) || n in Partway(c, p, done)
    ensures n in Patch(Partway(c, p, done), e) <==>
            if e.Removed? && n == e.name then false else (e.Added? && n == e.name) || n in Partway(c, p, done)
  {
  }

  ghost function StepInterface(c: Interfaces, p: Interfaces, done: seq<Entry>, e: Entry, n: string): Interface
    requires n in c
  {
    if e.Modified? && e.name == n then PartwayInterface(c, p, done, n)[e.field := e.becomes] else PartwayInterface(c, p, done, n)
  }

  lemma PartwayInterfaceStep(c: Interfaces, p: Interfaces, done: seq<Entry>, e: Entry, more: seq<Entry>, n: string)
    requires IsEntry(c, p, e) && (forall d :: d in more <==> d in done || d == e) && n in c
    ensures PartwayInterface(c, p, more, n) == StepInterface(c, p, done, e, n)
  {
  }

  // Replaying a diff on the committed configuration, in any order, yields the pending one up to
  // nil and empty slices.
  lemma DiffThenPatch(c: Interfaces, p: Interfaces, ds: seq<Entry>)
    requires WellTypedAll(c) && WellTypedAll(p) && IsDiff(c, p, ds)
    ensures SameInterfaces(Patched(c, ds), p)
  {
    PatchedIsPartway(c, p, ds);
    var r := Partway(c, p, ds);
    forall n | n in c && n !in p ensures n !in r { assert IsEntry(c, p, Removed(n, c[n])); }
    forall n | n !in c && n in p ensures n in r && r[n] == p[n] { assert IsEntry(c, p, Added(n, p[n])); }
    forall n | n in c && n in p ensures n in r && SameInterface(r[n], p[n]) {
      forall f: Field ensures Same(r[n][f], p[n][f]) {
        if !Same(c[n][f], p[n][f]) { assert IsEntry(c, p, Modified(n, f, c[n][f], p[n][f])); }
      }
    }
  }

  // There is nothing to list exactly when the two count as the same.
  lemma EmptyDiffIffSame(c: Interfaces, p: Interfaces, ds: seq<Entry>)
    requires WellTypedAll(c) && WellTypedAll(p) && IsDiff(c, p, ds)
    ensures ds == [] <==> SameInterfaces(c, p)
  {
    if ds == [] {
      DiffThenPatch(c, p, ds);
    } else {
      assert IsEntry(c, p, ds[0]);
    }
  }

  // ----- taking a diff back -----

  function Inverse(e: Entry): Entry {
    match e
    case Added(n, i) => Removed(n, i)
    case Removed(n, i) => Added(n, i)
    case Modified(n, f, v, w) => Modified(n, f, w, v)
  }

  function Inverses(ds: seq<Entry>): seq<Entry> {
    seq(|ds|, k requires 0 <= k < |ds| => Inverse(ds[k]))
  }

  // The inverted entries are the diff the other way round, so they lead back.
  lemma InverseDiffLeadsBack(c: Interfaces, p: Interfaces, ds: seq<Entry>)
    requires WellTypedAll(c) && WellTypedAll(p) && IsDiff(c, p, ds)
    ensures IsDiff(p, c, Inverses(ds)) && SameInterfaces(Patched(p, Inverses(ds)), c)
  {
    var back := Inverses(ds);
    forall e ensures e in back <==> IsEntry(p, c, e) {
      assert Inverse(Inverse(e)) == e && (IsEntry(p, c, e) <==> IsEntry(c, p, Inverse(e)));
      if e in back {
        var k :| 0 <= k < |back| && back[k] == e;
        assert Inverse(ds[k]) == e;
      }
      if Inverse(e) in ds {
        var k :| 0 <= k < |ds| && ds[k] == Inverse(e);
        assert back[k] == e;
      }
    }
    forall i, j | 0 <= i < j < |back| ensures back[i] != back[j] {
      assert Inverse(back[i]) == ds[i] && Inverse(back[j]) == ds[j];
    }
    DiffThenPatch(p, c, back);
  }
}
