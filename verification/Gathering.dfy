// Sums of per-package diagnostic lists, as multisets, over a set of packages
// visited in no particular order.

module Gathering {
  import opened Diagnostics

  ghost function Gather(ids: set<string>, f: string -> seq<Diagnostic>): multiset<Diagnostic>
  {
    if ids == {} then multiset{}
    else
      var x :| x in ids;
      multiset(f(x)) + Gather(ids - {x}, f)
  }

  /** Any element may be taken out first. */
  lemma {:induction false} GatherTake(ids: set<string>, f: string -> seq<Diagnostic>, x: string)
    requires x in ids
    ensures Gather(ids, f) == multiset(f(x)) + Gather(ids - {x}, f)
    decreases ids
  {
    var y :| y in ids && Gather(ids, f) == multiset(f(y)) + Gather(ids - {y}, f);
    if y != x {
      GatherTake(ids - {y}, f, x);
      GatherTake(ids - {x}, f, y);
      assert ids - {y} - {x} == ids - {x} - {y};
    }
  }

  lemma {:induction false} GatherUnion(a: set<string>, b: set<string>, f: string -> seq<Diagnostic>)
    requires a !! b
    ensures Gather(a + b, f) == Gather(a, f) + Gather(b, f)
    decreases a
  {
    if a == {} {
      assert a + b == b;
    } else {
      var x :| x in a;
      GatherTake(a, f, x);
      GatherTake(a + b, f, x);
      assert a + b - {x} == (a - {x}) + b;
      GatherUnion(a - {x}, b, f);
    }
  }

  lemma {:induction false} GatherSame(ids: set<string>, f: string -> seq<Diagnostic>, g: string -> seq<Diagnostic>)
    requires forall x :: x in ids ==> multiset(f(x)) == multiset(g(x))
    ensures Gather(ids, f) == Gather(ids, g)
    decreases ids
  {
    if ids != {} {
      var x :| x in ids;
      GatherTake(ids, f, x);
      GatherTake(ids, g, x);
      GatherSame(ids - {x}, f, g);
    }
  }

  lemma {:induction false} GatherEmpty(ids: set<string>, f: string -> seq<Diagnostic>)
    ensures Gather(ids, f) == multiset{} <==> forall x :: x in ids ==> f(x) == []
    decreases ids
  {
    if ids != {} {
      var x :| x in ids;
      GatherTake(ids, f, x);
      GatherEmpty(ids - {x}, f);
      assert |multiset(f(x))| == |f(x)|;
      if Gather(ids, f) == multiset{} {
        assert |multiset(f(x))| <= |Gather(ids, f)|;
      }
    }
  }

  lemma {:induction false} GatherMember(ids: set<string>, f: string -> seq<Diagnostic>, d: Diagnostic)
    ensures d in Gather(ids, f) <==> exists x :: x in ids && d in f(x)
    decreases ids
  {
    if ids != {} {
      var y :| y in ids;
      GatherTake(ids, f, y);
      GatherMember(ids - {y}, f, d);
      assert d in multiset(f(y)) <==> d in f(y);
      if x :| x in ids && d in f(x) {
        assert x == y || x in ids - {y};
      }
    }
  }

  // ---- a list and its classes ----

  function ClassFn(ds: seq<Diagnostic>, bucket: string -> string): string -> seq<Diagnostic>
  {
    (id: string) => InClass(ds, file => bucket(file) == id)
  }

  lemma {:induction false} InClassSplit(ds: seq<Diagnostic>, c: string -> bool, e: string -> bool, both: string -> bool)
    requires forall d :: d in ds ==> (both(d.pos.filename) <==> c(d.pos.filename) || e(d.pos.filename))
    requires forall d :: d in ds ==> !(c(d.pos.filename) && e(d.pos.filename))
    ensures multiset(InClass(ds, both)) == multiset(InClass(ds, c)) + multiset(InClass(ds, e))
  {
    if ds != [] {
      assert ds[0] in ds;
      InClassSplit(ds[1..], c, e, both);
    }
  }

  /** The buckets in ids together hold exactly the diagnostics whose bucket is in ids. */
  lemma {:induction false} GatherClasses(ids: set<string>, ds: seq<Diagnostic>, bucket: string -> string)
    ensures Gather(ids, ClassFn(ds, bucket)) == multiset(InClass(ds, file => bucket(file) in ids))
    decreases ids
  {
    if ids == {} {
      assert InClass(ds, file => bucket(file) in ids) == [] by {
        var r := InClass(ds, file => bucket(file) in ids);
        HeadIn(r);
      }
    } else {
      var x :| x in ids;
      GatherTake(ids, ClassFn(ds, bucket), x);
      GatherClasses(ids - {x}, ds, bucket);
      InClassSplit(ds, file => bucket(file) == x, file => bucket(file) in ids - {x}, file => bucket(file) in ids);
    }
  }
}
