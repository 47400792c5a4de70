// The package graph and its two closure walks: the per-package walk behind the
// dependency hash (engine/l0.go) and the walk that finds the dependencies of
// the packages being analysed (engine/dep_override.go).

module DepClosure {
  import opened Reachability

  type PackageID = string

  datatype Package = Package(
    id: PackageID,
    pkgPath: string,
    forTest: string,
    compiledGoFiles: seq<string>,
    goFiles: seq<string>,
    depsByPkgPath: map<string, PackageID>)

  type Graph = map<PackageID, Package>

  /** newL0Context files every package under its own ID. */
  ghost predicate WellKeyed(g: Graph)
  {
    forall id :: id in g ==> g[id].id == id
  }

  ghost function Edges(g: Graph): map<PackageID, set<PackageID>>
  {
    map id | id in g :: g[id].depsByPkgPath.Values
  }

  /** The dependency closure of id, itself included. */
  ghost function Closure(g: Graph, id: PackageID): set<PackageID>
  {
    set x | x in g && Reaches(Edges(g), id, x)
  }

  class ClosureWalk {
    var closure: set<PackageID>
    var visiting: set<PackageID>

    constructor ()
      ensures closure == {} && visiting == {}
    {
      closure, visiting := {}, {};
    }

    /**
     * collectClosure.  The result is always true, and the in-progress set never
     * decides anything because it is contained in the visited set.
     */
    method CollectClosure(g: Graph, mp: Package) returns (ok: bool)
      requires WellKeyed(g) && mp.id in g && g[mp.id] == mp
      requires visiting <= closure <= g.Keys
      modifies this
      ensures ok && visiting == old(visiting)
      ensures old(closure) <= closure <= g.Keys && mp.id in closure
      ensures forall x :: x in closure - old(closure) ==> Reaches(Edges(g), mp.id, x)
      ensures forall x, y :: x in closure - old(closure) && y in Edges(g)[x] && y in g ==> y in closure
      decreases g.Keys - closure
    {
      if mp.id in closure { return true; }
      if mp.id in visiting { return true; }
      visiting := visiting + {mp.id};
      closure := closure + {mp.id};
      ReachesSelf(Edges(g), mp.id);
      var todo := mp.depsByPkgPath.Keys;
      while todo != {}
        invariant todo <= mp.depsByPkgPath.Keys
        invariant visiting == old(visiting) + {mp.id} && visiting <= closure
        invariant old(closure) + {mp.id} <= closure <= g.Keys
        invariant forall x :: x in closure - old(closure) ==> Reaches(Edges(g), mp.id, x)
        invariant forall x, y :: x in closure - old(closure) - {mp.id} && y in Edges(g)[x] && y in g ==> y in closure
        invariant forall k :: k in mp.depsByPkgPath && k !in todo && mp.depsByPkgPath[k] in g ==> mp.depsByPkgPath[k] in closure
        decreases todo
      {
        var k :| k in todo;
        todo := todo - {k};
        var depID := mp.depsByPkgPath[k];
        if depID !in g { continue; }
        ghost var before := closure;
        ok := CollectClosure(g, g[depID]);
        forall x | x in closure - old(closure) ensures Reaches(Edges(g), mp.id, x) {
          if x !in before { ReachesPrepend(Edges(g), mp.id, depID, x); }
        }
        if !ok { return false; }
      }
      visiting := visiting - {mp.id};
      ok := true;
    }
  }

  /** The walk of depHashOf: exactly the packages reachable from mp. */
  method ClosureOf(g: Graph, mp: Package) returns (ok: bool, closure: set<PackageID>)
    requires WellKeyed(g) && mp.id in g && g[mp.id] == mp
    ensures ok && closure == Closure(g, mp.id)
  {
    var w := new ClosureWalk();
    ok := w.CollectClosure(g, mp);
    closure := w.closure;
    forall x | x in Closure(g, mp.id) ensures x in closure {
      ClosedHoldsReachable(Edges(g), closure, mp.id, x);
    }
  }

  // ---- dependencies of a set of roots ----

  /** x lies in the closure of one of the roots. */
  ghost predicate InSomeClosure(g: Graph, roots: set<PackageID>, x: PackageID)
  {
    exists r :: r in roots && r in g && x in Closure(g, r)
  }

  /** What the roots' closures hold beyond the roots themselves. */
  ghost function DepsOf(g: Graph, roots: set<PackageID>): set<PackageID>
  {
    set x | x in g && x !in roots && InSomeClosure(g, roots, x)
  }

  class DepWalk {
    var out: set<PackageID>
    var visited: set<PackageID>

    constructor ()
      ensures out == {} && visited == {}
    {
      out, visited := {}, {};
    }

    ghost predicate Valid(g: Graph, roots: set<PackageID>)
      reads this
    {
      out == set x | x in visited && x in g && x !in roots
    }

    /** The recursive visit of collectDepClosure. */
    method Visit(g: Graph, ghost all: set<PackageID>, roots: set<PackageID>, id: PackageID)
      requires Valid(g, roots)
      requires visited <= all && id in all
      requires forall x, y :: x in g && y in Edges(g)[x] ==> y in all
      modifies this
      ensures Valid(g, roots)
      ensures old(visited) <= visited <= all && id in visited
      ensures forall x :: x in visited - old(visited) && x in g ==> id in g && Reaches(Edges(g), id, x)
      ensures forall x, y :: x in visited - old(visited) && x in g && y in Edges(g)[x] ==> y in visited
      decreases all - visited
    {
      if id in visited { return; }
      visited := visited + {id};
      if id !in g { return; }
      ReachesSelf(Edges(g), id);
      var mp := g[id];
      if id !in roots { out := out + {id}; }
      var todo := mp.depsByPkgPath.Keys;
      while todo != {}
        invariant todo <= mp.depsByPkgPath.Keys
        invariant Valid(g, roots)
        invariant old(visited) + {id} <= visited <= all
        invariant forall x :: x in visited - old(visited) && x in g ==> Reaches(Edges(g), id, x)
        invariant forall x, y :: x in visited - old(visited) - {id} && x in g && y in Edges(g)[x] ==> y in visited
        invariant forall k :: k in mp.depsByPkgPath && k !in todo ==> mp.depsByPkgPath[k] in visited
        decreases todo
      {
        var k :| k in todo;
        todo := todo - {k};
        ghost var before := visited;
        assert mp.depsByPkgPath[k] in Edges(g)[id];
        Visit(g, all, roots, mp.depsByPkgPath[k]);
        forall x | x in visited - old(visited) && x in g ensures Reaches(Edges(g), id, x) {
          if x !in before { ReachesPrepend(Edges(g), id, mp.depsByPkgPath[k], x); }
        }
      }
    }
  }

  lemma WalkFindsDeps(g: Graph, roots: set<PackageID>, visited: set<PackageID>)
    requires roots <= visited
    requires forall x :: x in visited && x in g ==> InSomeClosure(g, roots, x)
    requires Closed(Edges(g), visited)
    ensures (set x | x in visited && x in g && x !in roots) == DepsOf(g, roots)
  {
    forall x | x in DepsOf(g, roots) ensures x in visited {
      var r :| r in roots && r in g && x in Closure(g, r);
      ClosedHoldsReachable(Edges(g), visited, r, x);
    }
  }

  /** collectDepClosure, for roots taken in any order, inside the graph or not. */
  method CollectDepClosure(g: Graph, roots: set<PackageID>) returns (deps: set<PackageID>)
    ensures deps == DepsOf(g, roots)
  {
    ghost var all := g.Keys + roots + set x, y | x in g && y in Edges(g)[x] :: y;
    var w := new DepWalk();
    var todo := roots;
    while todo != {}
      invariant todo <= roots
      invariant w.Valid(g, roots) && w.visited <= all
      invariant roots - todo <= w.visited
      invariant forall x :: x in w.visited && x in g ==> InSomeClosure(g, roots, x)
      invariant forall x, y :: x in w.visited && x in g && y in Edges(g)[x] ==> y in w.visited
      decreases todo
    {
      var id :| id in todo;
      todo := todo - {id};
      ghost var before := w.visited;
      w.Visit(g, all, roots, id);
      forall x | x in w.visited && x in g ensures InSomeClosure(g, roots, x) {
        if x !in before { assert x in Closure(g, id); }
      }
    }
    deps := w.out;
    WalkFindsDeps(g, roots, w.visited);
  }
}
