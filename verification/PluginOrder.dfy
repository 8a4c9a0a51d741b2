// Ordering plugins by their dependencies, cycles included (daemon/server.go,
// orderPluginsByDependencies).
module PluginOrder {
  import opened Basics

  type Deps = map<string, seq<string>>

  // u depends on v, and both are enabled.
  predicate Edge(deps: Deps, enabled: set<string>, u: string, v: string) {
    u in enabled && v in enabled && u in deps && v in deps[u]
  }

  ghost predicate IsPath(deps: Deps, enabled: set<string>, path: seq<string>, u: string, v: string) {
    && path != [] && path[0] == u && path[|path| - 1] == v
    && forall i | 0 <= i < |path| - 1 :: Edge(deps, enabled, path[i], path[i + 1])
  }

  ghost predicate Reaches(deps: Deps, enabled: set<string>, u: string, v: string) {
    exists path :: IsPath(deps, enabled, path, u, v)
  }

  lemma ReachesSelf(deps: Deps, enabled: set<string>, u: string)
    ensures Reaches(deps, enabled, u, u)
  {
    assert IsPath(deps, enabled, [u], u, u);
  }

  lemma ReachesStep(deps: Deps, enabled: set<string>, u: string, v: string, w: string)
    requires Reaches(deps, enabled, u, v) && Edge(deps, enabled, v, w)
    ensures Reaches(deps, enabled, u, w)
  {
    var path :| IsPath(deps, enabled, path, u, v);
    assert IsPath(deps, enabled, path + [w], u, w);
  }

  // A directed cycle: a path of at least one edge from a plugin to itself.
  ghost predicate OnCycle(deps: Deps, enabled: set<string>, u: string) {
    exists v :: Edge(deps, enabled, u, v) && Reaches(deps, enabled, v, u)
  }

  ghost predicate Acyclic(deps: Deps, enabled: set<string>) {
    forall u :: !OnCycle(deps, enabled, u)
  }

  ghost predicate Before(order: seq<string>, v: string, u: string) {
    exists i, j :: 0 <= i < j < |order| && order[i] == v && order[j] == u
  }

  // Every dependency comes first, except one that itself leads back to the dependent.
  ghost predicate OrderedUpToCycles(deps: Deps, enabled: set<string>, order: seq<string>) {
    forall u, v | u in order && Edge(deps, enabled, u, v) :: Before(order, v, u) || Reaches(deps, enabled, v, u)
  }

  ghost predicate Topological(deps: Deps, enabled: set<string>, order: seq<string>) {
    forall u, v | Edge(deps, enabled, u, v) :: Before(order, v, u)
  }

  // ----- the depth-first search -----

  // The variables the recursive closure shares with its caller.
  class Sorter {
    const deps: Deps
    const enabledPlugins: seq<string>
    var temp: set<string>
    var visited: set<string>
    var sorted: seq<string>

    constructor (deps: Deps, enabledPlugins: seq<string>)
      ensures this.deps == deps && this.enabledPlugins == enabledPlugins
      ensures temp == {} && visited == {} && sorted == []
    {
      this.deps, this.enabledPlugins := deps, enabledPlugins;
      temp, visited, sorted := {}, {}, [];
    }

    ghost function Enabled(): set<string> {
      Elems(enabledPlugins)
    }

    // What is sorted is visited, once each, and in order up to cycles; the plugins on the stack are
    // not visited yet.
    ghost predicate Valid()
      reads this
    {
      && Lists(sorted, visited) && visited <= Enabled() && temp <= Enabled() && temp !! visited
      && OrderedUpToCycles(deps, Enabled(), sorted)
    }

    // Every plugin on the stack leads to this one.
    ghost predicate StackLeadsTo(name: string)
      reads this
    {
      forall t <- temp :: Reaches(deps, Enabled(), t, name)
    }

    method IsEnabled(dep: string) returns (found: bool)
      ensures found <==> dep in Enabled()
    {
      for i := 0 to |enabledPlugins|
        invariant dep !in enabledPlugins[..i]
      {
        assert enabledPlugins[..i + 1] == enabledPlugins[..i] + [enabledPlugins[i]];
        if enabledPlugins[i] == dep { return true; }
      }
      assert enabledPlugins[..|enabledPlugins|] == enabledPlugins;
      found := false;
    }

    method Visit(name: string) returns (ok: bool)
      requires Valid() && name in Enabled() && StackLeadsTo(name)
      modifies this
      decreases |Enabled() - temp - visited|, 1
      ensures Valid() && temp == old(temp)
      ensures ok == (name !in temp)
      ensures ok ==> name in visited
      ensures old(sorted) <= sorted && old(visited) <= visited
    {
      if name in temp { return false; }
      if name in visited { return true; }
      ghost var before := Enabled() - temp - visited;
      temp := temp + {name};
      assert Enabled() - temp - visited == before - {name};
      ReachesSelf(deps, Enabled(), name);
      VisitDependencies(name, if name in deps then deps[name] else []);
      Append(name);
      ok := true;
    }

    // Visiting the enabled dependencies: each ends up sorted, unless it is on the stack.
    method VisitDependencies(name: string, ds: seq<string>)
      requires Valid() && name in temp && StackLeadsTo(name)
      requires ds == if name in deps then deps[name] else []
      modifies this
      decreases |Enabled() - temp - visited|, 3
      ensures Valid() && temp == old(temp)
      ensures old(sorted) <= sorted && old(visited) <= visited
      ensures forall v | Edge(deps, Enabled(), name, v) :: v in visited || v in temp
    {
      for i := 0 to |ds|
        invariant Valid() && temp == old(temp)
        invariant old(sorted) <= sorted && old(visited) <= visited
        invariant Elems(ds[..i]) * Enabled() <= visited + temp
      {
        Shrinks(Enabled() - temp - visited, Enabled() - old(temp) - old(visited));
        ElemsOfPrefix(ds, i);
        VisitDependency(name, ds[i]);
      }
      assert ds[..|ds|] == ds;
      forall v | Edge(deps, Enabled(), name, v) ensures v in visited || v in temp {
        assert v in Elems(ds) * Enabled();
      }
    }

    method VisitDependency(name: string, dep: string)
      requires Valid() && name in temp && StackLeadsTo(name) && name in deps && dep in deps[name]
      modifies this
      decreases |Enabled() - temp - visited|, 2
      ensures Valid() && temp == old(temp)
      ensures old(sorted) <= sorted && old(visited) <= visited
      ensures dep in Enabled() ==> dep in visited || dep in temp
    {
      var depEnabled := IsEnabled(dep);
      if depEnabled {
        forall t | t in temp ensures Reaches(deps, Enabled(), t, dep) {
          ReachesStep(deps, Enabled(), t, name, dep);
        }
        var _ := Visit(dep);
      }
    }

    // Finishing a plugin: it leaves the stack and joins the order.
    method Append(name: string)
      requires Valid() && name in temp && StackLeadsTo(name)
      requires forall v | Edge(deps, Enabled(), name, v) :: v in visited || v in temp
      modifies this
      ensures Valid() && temp == old(temp) - {name}
      ensures sorted == old(sorted) + [name] && visited == old(visited) + {name}
    {
      ListsSnoc(sorted, visited, name);
      AppendKeepsOrder(deps, Enabled(), sorted, name, visited, temp);
      temp := temp - {name};
      visited := visited + {name};
      sorted := sorted + [name];
    }
  }

  lemma Shrinks(a: set<string>, b: set<string>)
    requires a <= b
    ensures |a| <= |b|
  {
    if a < b {
      var x :| x in b && x !in a;
      Shrinks(a, b - {x});
    } else {
      assert a == b;
    }
  }

  lemma BeforeStays(order: seq<string>, more: seq<string>, v: string, u: string)
    requires Before(order, v, u)
    ensures Before(order + more, v, u)
  {
    var i, j :| 0 <= i < j < |order| && order[i] == v && order[j] == u;
    assert (order + more)[i] == v && (order + more)[j] == u;
  }

  lemma AppendKeepsOrder(deps: Deps, enabled: set<string>, order: seq<string>, name: string, visited: set<string>, temp: set<string>)
    requires OrderedUpToCycles(deps, enabled, order) && Lists(order, visited)
    requires forall v | Edge(deps, enabled, name, v) :: v in visited || v in temp
    requires forall t <- temp :: Reaches(deps, enabled, t, name)
    ensures OrderedUpToCycles(deps, enabled, order + [name])
  {
    forall u, v | u in order + [name] && Edge(deps, enabled, u, v)
      ensures Before(order + [name], v, u) || Reaches(deps, enabled, v, u)
    {
      if u in order {
        if Before(order, v, u) { BeforeStays(order, [name], v, u); }
      } else if v in visited {
        assert v in Elems(order);
        var i :| 0 <= i < |order| && order[i] == v;
        assert (order + [name])[i] == v && (order + [name])[|order|] == name;
      }
    }
  }

  // A chain of dependencies among the enabled plugins.
  ghost predicate LeadsBack(deps: Deps, enabledPlugins: seq<string>, path: seq<string>) {
    path != [] && path[0] in enabledPlugins && forall i | 0 < i < |path| :: ComesNext(deps, enabledPlugins, path, i)
  }

  predicate ComesNext(deps: Deps, enabledPlugins: seq<string>, path: seq<string>, i: int)
    requires 0 < i < |path|
  {
    path[i - 1] in deps && path[i] in deps[path[i - 1]] && path[i] in enabledPlugins
  }

  lemma OrderInPlainTerms(deps: Deps, enabledPlugins: seq<string>, order: seq<string>)
    requires NoDup(enabledPlugins) && Lists(order, Elems(enabledPlugins))
    requires OrderedUpToCycles(deps, Elems(enabledPlugins), order)
    ensures |order| == |enabledPlugins| && forall n :: n in order <==> n in enabledPlugins
    ensures forall u, v | u in enabledPlugins && v in enabledPlugins && u in deps && v in deps[u] ::
              || (exists i, j :: 0 <= i < j < |order| && order[i] == v && order[j] == u)
              || (exists path :: LeadsBack(deps, enabledPlugins, path) && path[0] == v && path[|path| - 1] == u)
  {
    NoDupCardinality(order);
    NoDupCardinality(enabledPlugins);
    forall n ensures n in order <==> n in enabledPlugins {
      assert n in Elems(order) <==> n in order;
    }
    forall u, v | u in enabledPlugins && v in enabledPlugins && u in deps && v in deps[u] && !Before(order, v, u)
      ensures exists path :: LeadsBack(deps, enabledPlugins, path) && path[0] == v && path[|path| - 1] == u
    {
      assert Edge(deps, Elems(enabledPlugins), u, v);
      var path :| IsPath(deps, Elems(enabledPlugins), path, v, u);
      forall i | 0 < i < |path| ensures ComesNext(deps, enabledPlugins, path, i) {
        assert Edge(deps, Elems(enabledPlugins), path[i - 1], path[i - 1 + 1]);
      }
      assert path[0] in enabledPlugins;
      assert LeadsBack(deps, enabledPlugins, path);
    }
  }

  // The plugins are visited in whatever order the map of plugins yields them.
  method OrderPlugins(deps: Deps, enabledPlugins: seq<string>) returns (order: seq<string>)
    requires NoDup(enabledPlugins)
    ensures |order| == |enabledPlugins| && forall n :: n in order <==> n in enabledPlugins
    ensures forall u, v | u in enabledPlugins && v in enabledPlugins && u in deps && v in deps[u] ::
              || (exists i, j :: 0 <= i < j < |order| && order[i] == v && order[j] == u)
              || (exists path :: LeadsBack(deps, enabledPlugins, path) && path[0] == v && path[|path| - 1] == u)
    ensures Lists(order, Elems(enabledPlugins))
    ensures OrderedUpToCycles(deps, Elems(enabledPlugins), order)
    ensures Topological(deps, Elems(enabledPlugins), order) <==> Acyclic(deps, Elems(enabledPlugins))
  {
    var s := new Sorter(deps, enabledPlugins);
    for i := 0 to |enabledPlugins|
      invariant s.Valid() && s.temp == {} && s.deps == deps && s.enabledPlugins == enabledPlugins
      invariant Elems(enabledPlugins[..i]) <= s.visited
    {
      assert enabledPlugins[..i + 1] == enabledPlugins[..i] + [enabledPlugins[i]];
      if enabledPlugins[i] !in s.visited {
        var _ := s.Visit(enabledPlugins[i]);
      }
    }
    assert enabledPlugins[..|enabledPlugins|] == enabledPlugins;
    order := s.sorted;
    TopologicalIffAcyclic(deps, Elems(enabledPlugins), order);
    OrderInPlainTerms(deps, enabledPlugins, order);
  }

  // ----- what the order is worth -----

  lemma {:induction false} PathFollowsOrder(deps: Deps, enabled: set<string>, order: seq<string>, path: seq<string>, u: string, v: string) returns (i: nat, j: nat)
    requires Topological(deps, enabled, order) && NoDup(order) && IsPath(deps, enabled, path, u, v) && u in order
    ensures 0 <= i <= j < |order| && order[i] == v && order[j] == u
    decreases |path|
  {
    if |path| == 1 {
      j :| 0 <= j < |order| && order[j] == u;
      i := j;
    } else {
      var w := path[1];
      assert Edge(deps, enabled, path[0], path[1]);
      var a, b :| 0 <= a < b < |order| && order[a] == w && order[b] == u;
      assert IsPath(deps, enabled, path[1..], w, v);
      var c: nat;
      i, c := PathFollowsOrder(deps, enabled, order, path[1..], w, v);
      assert c == a;
      j := b;
    }
  }

  // An order that respects every dependency exists only without cycles, so the sorter fails to
  // produce one exactly when nobody could.
  lemma TopologicalIffAcyclic(deps: Deps, enabled: set<string>, order: seq<string>)
    requires Lists(order, enabled) && OrderedUpToCycles(deps, enabled, order)
    ensures Topological(deps, enabled, order) <==> Acyclic(deps, enabled)
  {
    if Acyclic(deps, enabled) {
      forall u, v | Edge(deps, enabled, u, v) ensures Before(order, v, u) {
        assert u in Elems(order);
        assert !OnCycle(deps, enabled, u);
      }
    }
    if Topological(deps, enabled, order) {
      TopologicalMeansAcyclic(deps, enabled, order);
    }
  }

  lemma TopologicalMeansAcyclic(deps: Deps, enabled: set<string>, order: seq<string>)
    requires Lists(order, enabled) && Topological(deps, enabled, order)
    ensures Acyclic(deps, enabled)
  {
    forall u, v | Edge(deps, enabled, u, v) ensures !Reaches(deps, enabled, v, u) {
      var a, b :| 0 <= a < b < |order| && order[a] == v && order[b] == u;
      forall path ensures !IsPath(deps, enabled, path, v, u) {
        if IsPath(deps, enabled, path, v, u) {
          var i, j := PathFollowsOrder(deps, enabled, order, path, v, u);
        }
      }
    }
  }
}
