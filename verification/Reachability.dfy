// Reachability in a finite, possibly cyclic graph whose edges may dangle.

module Reachability {

  /** A walk along edges that stays inside the graph's own nodes. */
  ghost predicate IsPath<N>(g: map<N, set<N>>, p: seq<N>)
  {
    && p != []
    && (forall i :: 0 <= i < |p| ==> p[i] in g)
    && (forall i :: 0 <= i < |p| - 1 ==> p[i + 1] in g[p[i]])
  }

  ghost predicate Leads<N>(g: map<N, set<N>>, p: seq<N>, a: N, b: N)
  {
    IsPath(g, p) && p[0] == a && p[|p| - 1] == b
  }

  ghost predicate Reaches<N(!new)>(g: map<N, set<N>>, a: N, b: N)
  {
    exists p :: Leads(g, p, a, b)
  }

  /** Edges out of s either stay in s or leave the graph. */
  ghost predicate Closed<N>(g: map<N, set<N>>, s: set<N>)
  {
    forall x, y :: x in s && x in g && y in g[x] && y in g ==> y in s
  }

  lemma ReachesSelf<N(!new)>(g: map<N, set<N>>, a: N)
    requires a in g
    ensures Reaches(g, a, a)
  {
    assert Leads(g, [a], a, a);
  }

  lemma ReachesPrepend<N(!new)>(g: map<N, set<N>>, a: N, b: N, c: N)
    requires a in g && b in g[a] && Reaches(g, b, c)
    ensures Reaches(g, a, c)
  {
    var p :| Leads(g, p, b, c);
    var q := [a] + p;
    forall i | 0 <= i < |q| - 1 ensures q[i + 1] in g[q[i]] {
      if i > 0 { assert q[i] == p[i - 1] && q[i + 1] == p[i]; }
    }
    assert Leads(g, q, a, c);
  }

  lemma {:induction false} PathStays<N>(g: map<N, set<N>>, s: set<N>, p: seq<N>)
    requires IsPath(g, p) && p[0] in s && Closed(g, s)
    ensures p[|p| - 1] in s
    decreases |p|
  {
    if |p| > 1 {
      var q := p[1..];
      assert p[1] in g[p[0]];
      assert IsPath(g, q) by {
        forall i | 0 <= i < |q| - 1 ensures q[i + 1] in g[q[i]] {
          assert p[i + 2] in g[p[i + 1]];
        }
      }
      PathStays(g, s, q);
    }
  }

  /** A closed set holding a holds everything a reaches. */
  lemma ClosedHoldsReachable<N(!new)>(g: map<N, set<N>>, s: set<N>, a: N, b: N)
    requires Closed(g, s) && a in s && Reaches(g, a, b)
    ensures b in s
  {
    var p :| Leads(g, p, a, b);
    PathStays(g, s, p);
  }
}
