// Which analyzers need the SSA form built (internal/analyzers/bundled_staticcheck.go).

module RequiresIR {
  import opened Strings
  import opened Reachability

  /** An analyzer is known by its pointer; a nil pointer may be listed. */
  type Pointer = nat

  datatype Analyzer = Analyzer(name: string, needs: seq<Option<Pointer>>)

  type Heap = map<Pointer, Analyzer>

  /** Every pointer listed points to an analyzer. */
  ghost predicate NoDangling(h: Heap)
  {
    forall x, r :: x in h && r in h[x].needs && r.Some? ==> r.value in h
  }

  ghost function Needs(h: Heap): map<Pointer, set<Pointer>>
  {
    map x | x in h :: set r | r in h[x].needs && r.Some? :: r.value
  }

  predicate IsProducer(name: string)
  {
    name == "buildir" || name == "buildssa"
  }

  ghost predicate ReachesProducer(h: Heap, a: Pointer)
  {
    exists b :: Reaches(Needs(h), a, b) && IsProducer(h[b].name)
  }

  class Search {
    var seen: set<Pointer>

    constructor ()
      ensures seen == {}
    {
      seen := {};
    }

    /** The recursive walk, which stops at the first producer. */
    method Walk(h: Heap, x: Option<Pointer>) returns (found: bool)
      requires NoDangling(h) && seen <= h.Keys && (x.Some? ==> x.value in h)
      modifies this
      ensures old(seen) <= seen <= h.Keys
      ensures found ==> x.Some? && ReachesProducer(h, x.value)
      ensures !found && x.Some? ==> x.value in seen
      ensures !found ==> forall y :: y in seen - old(seen) ==> !IsProducer(h[y].name) && Needs(h)[y] <= seen
      decreases h.Keys - seen
    {
      if x.None? || x.value in seen { return false; }
      var id := x.value;
      seen := seen + {id};
      if IsProducer(h[id].name) {
        ReachesSelf(Needs(h), id);
        return true;
      }
      var needs := h[id].needs;
      for i := 0 to |needs|
        invariant old(seen) + {id} <= seen <= h.Keys
        invariant forall j :: 0 <= j < i && needs[j].Some? ==> needs[j].value in seen
        invariant forall y :: y in seen - old(seen) - {id} ==> !IsProducer(h[y].name) && Needs(h)[y] <= seen
      {
        assert needs[i] in needs;
        var hit := Walk(h, needs[i]);
        if hit {
          ghost var b :| Reaches(Needs(h), needs[i].value, b) && IsProducer(h[b].name);
          ReachesPrepend(Needs(h), id, needs[i].value, b);
          return true;
        }
      }
      return false;
    }
  }

  /** AnalyzerRequiresIR is true exactly when a producer is reachable through Requires. */
  method AnalyzerRequiresIR(h: Heap, a: Option<Pointer>) returns (needed: bool)
    requires NoDangling(h) && (a.Some? ==> a.value in h)
    ensures needed <==> a.Some? && ReachesProducer(h, a.value)
  {
    if a.None? { return false; }
    if IsProducer(h[a.value].name) {
      ReachesSelf(Needs(h), a.value);
      return true;
    }
    var s := new Search();
    needed := s.Walk(h, a);
    if !needed {
      NothingReached(h, a.value, s.seen);
    }
  }

  lemma NothingReached(h: Heap, a: Pointer, seen: set<Pointer>)
    requires NoDangling(h) && a in seen && seen <= h.Keys
    requires forall y :: y in seen ==> !IsProducer(h[y].name) && Needs(h)[y] <= seen
    ensures !ReachesProducer(h, a)
  {
    forall b | Reaches(Needs(h), a, b)
      ensures b in seen
    {
      ClosedHoldsReachable(Needs(h), seen, a, b);
    }
  }
}
