// What an L0 key says about a module, in terms of its package graph, its files
// and its settings alone (internal/engine/l0.go).

module KeyLaws {
  import opened Strings
  import opened Framing
  import opened Paths
  import opened Sorting
  import opened Reachability
  import opened DepClosure
  import opened L0Keys

  // ---- the elements of a list under one key ----

  function Select<T>(key: T -> string, s: seq<T>, k: string): seq<T>
  {
    if s == [] then [] else (if key(s[0]) == k then [s[0]] else []) + Select(key, s[1..], k)
  }

  lemma {:induction false} SelectAppend<T>(key: T -> string, a: seq<T>, b: seq<T>, k: string)
    ensures Select(key, a + b, k) == Select(key, a, k) + Select(key, b, k)
  {
    if a == [] {
      assert a + b == b;
    } else {
      SelectAppend(key, a[1..], b, k);
      var first := if key(a[0]) == k then [a[0]] else [];
      Regroup(first, Select(key, a[1..], k), Select(key, b, k));
      assert (a + b)[0] == a[0] && (a + b)[1..] == a[1..] + b;
    }
  }

  lemma Regroup<T>(a: seq<T>, b: seq<T>, c: seq<T>)
    ensures a + b + c == a + (b + c)
  {
  }

  lemma SelectOne<T>(key: T -> string, s: seq<T>, k: string)
    requires |s| <= 1
    ensures Select(key, s, k) == if s != [] && key(s[0]) == k then s else []
  {
    assert s != [] ==> s[1..] == [] && s == [s[0]];
  }

  lemma SelectCons<T>(key: T -> string, x: T, s: seq<T>, k: string)
    ensures Select(key, [x] + s, k) == (if key(x) == k then [x] else []) + Select(key, s, k)
  {
    assert ([x] + s)[1..] == s;
  }

  lemma Passed<T>(key: T -> string, x: T, y: T, rest: seq<T>, r: seq<T>, k: string)
    requires key(x) != key(y) && Select(key, r, k) == (if key(x) == k then [x] else []) + Select(key, rest, k)
    ensures Select(key, [y] + r, k) == (if key(x) == k then [x] else []) + Select(key, [y] + rest, k)
  {
    SelectCons(key, y, r, k);
    SelectCons(key, y, rest, k);
  }

  /** Inserting puts an element before those of the same key. */
  lemma {:induction false} SelectInsert<T(!new)>(key: T -> string, x: T, s: seq<T>, k: string)
    ensures Select(key, Insert(key, x, s), k) == (if key(x) == k then [x] else []) + Select(key, s, k)
  {
    if s != [] && Less(key(s[0]), key(x)) {
      SelectInsert(key, x, s[1..], k);
      LessIrreflexive(key(x));
      Passed(key, x, s[0], s[1..], Insert(key, x, s[1..]), k);
      assert s == [s[0]] + s[1..];
    } else {
      SelectCons(key, x, s, k);
    }
  }

  /** Sorting keeps the order within a key. */
  lemma {:induction false} SelectSort<T(!new)>(key: T -> string, s: seq<T>, k: string)
    ensures Select(key, Sort(key, s), k) == Select(key, s, k)
  {
    if s != [] {
      SelectSort(key, s[1..], k);
      SelectInsert(key, s[0], Sort(key, s[1..]), k);
    }
  }

  lemma {:induction false} SelectFinds<T>(key: T -> string, s: seq<T>, k: string)
    requires Select(key, s, k) != []
    ensures exists i :: 0 <= i < |s| && key(s[i]) == k
  {
    if key(s[0]) != k {
      SelectFinds(key, s[1..], k);
      var i :| 0 <= i < |s[1..]| && key(s[1..][i]) == k;
      assert key(s[i + 1]) == k;
    }
  }

  lemma LeastKey<T(!new)>(key: T -> string, a: seq<T>, b: seq<T>)
    requires SortedBy(key, b) && a != [] && Select(key, b, key(a[0])) != []
    ensures b != [] && Leq(key(b[0]), key(a[0]))
  {
    SelectFinds(key, b, key(a[0]));
    var i :| 0 <= i < |b| && key(b[i]) == key(a[0]);
    assert i > 0 ==> Leq(key(b[0]), key(b[i]));
  }

  lemma SameFirst<T(!new)>(key: T -> string, a: seq<T>, b: seq<T>)
    requires SortedBy(key, a) && SortedBy(key, b) && a != [] && b != []
    requires forall k :: Select(key, a, k) == Select(key, b, k)
    ensures a[0] == b[0]
  {
    assert Select(key, a, key(a[0])) != [] && Select(key, b, key(b[0])) != [];
    LeastKey(key, a, b);
    LeastKey(key, b, a);
    LeqAntisymmetric(key(a[0]), key(b[0]));
    assert Select(key, a, key(a[0]))[0] == a[0] && Select(key, b, key(b[0]))[0] == b[0];
  }

  lemma SameRest<T(!new)>(key: T -> string, a: seq<T>, b: seq<T>, k: string)
    requires a != [] && b != [] && a[0] == b[0] && Select(key, a, k) == Select(key, b, k)
    ensures Select(key, a[1..], k) == Select(key, b[1..], k)
  {
    var h := if key(a[0]) == k then [a[0]] else [];
    assert Select(key, a, k)[|h|..] == Select(key, a[1..], k);
    assert Select(key, b, k)[|h|..] == Select(key, b[1..], k);
  }

  ghost predicate Agree<T(!new)>(key: T -> string, a: seq<T>, b: seq<T>)
  {
    forall k :: Select(key, a, k) == Select(key, b, k)
  }

  lemma NothingSelected<T(!new)>(key: T -> string, a: seq<T>, b: seq<T>)
    requires Agree(key, a, b) && a == []
    ensures b == []
  {
    if b != [] {
      SelectsFirst(key, b);
    }
  }

  lemma SelectsFirst<T>(key: T -> string, b: seq<T>)
    requires b != []
    ensures Select(key, b, key(b[0])) != [] && Select(key, b, key(b[0]))[0] == b[0]
  {
  }

  lemma RestAgrees<T(!new)>(key: T -> string, a: seq<T>, b: seq<T>)
    requires a != [] && b != [] && a[0] == b[0] && Agree(key, a, b)
    ensures Agree(key, a[1..], b[1..])
  {
    forall k
      ensures Select(key, a[1..], k) == Select(key, b[1..], k)
    {
      SameRest(key, a, b, k);
    }
  }

  /** Sorted lists are decided by their parts. */
  lemma {:induction false} SelectsDecide<T(!new)>(key: T -> string, a: seq<T>, b: seq<T>)
    requires SortedBy(key, a) && SortedBy(key, b) && Agree(key, a, b)
    ensures a == b
    decreases |a|
  {
    if a == [] {
      NothingSelected(key, a, b);
    } else if b == [] {
      NothingSelected(key, b, a);
    } else {
      SameFirst(key, a, b);
      RestAgrees(key, a, b);
      SelectsDecide(key, a[1..], b[1..]);
      assert a == [a[0]] + a[1..] && b == [b[0]] + b[1..];
    }
  }

  lemma SortedAgree<T(!new)>(key: T -> string, a: seq<T>, b: seq<T>)
    requires Agree(key, a, b)
    ensures Sort(key, a) == Sort(key, b)
  {
    forall k
      ensures Select(key, Sort(key, a), k) == Select(key, Sort(key, b), k)
    {
      SelectSort(key, a, k);
      SelectSort(key, b, k);
    }
    SortSorted(key, a);
    SortSorted(key, b);
    SelectsDecide(key, Sort(key, a), Sort(key, b));
  }

  lemma AgreeSorted<T(!new)>(key: T -> string, a: seq<T>, b: seq<T>)
    requires Sort(key, a) == Sort(key, b)
    ensures Agree(key, a, b)
  {
    forall k
      ensures Select(key, a, k) == Select(key, b, k)
    {
      SelectSort(key, a, k);
      SelectSort(key, b, k);
    }
  }

  /** Sorting two lists gives the same list exactly when they agree key by key. */
  lemma SortsAlike<T(!new)>(key: T -> string, a: seq<T>, b: seq<T>)
    ensures Sort(key, a) == Sort(key, b) <==> Agree(key, a, b)
  {
    if Agree(key, a, b) {
      SortedAgree(key, a, b);
    } else if Sort(key, a) == Sort(key, b) {
      AgreeSorted(key, a, b);
    }
  }

  // ---- packages a package needs ----

  /** p goes from package to package along recorded dependencies. */
  ghost predicate ImportChain(g: Graph, p: seq<PackageID>, x: PackageID, y: PackageID)
  {
    && p != [] && p[0] == x && p[|p| - 1] == y
    && (forall i :: 0 <= i < |p| ==> p[i] in g)
    && (forall i :: 0 <= i < |p| - 1 ==> p[i + 1] in g[p[i]].depsByPkgPath.Values)
  }

  /** y is x, or one of its direct or indirect dependencies. */
  ghost predicate Needs(g: Graph, x: PackageID, y: PackageID)
  {
    exists p :: ImportChain(g, p, x, y)
  }

  lemma NeedsIsClosure(g: Graph, x: PackageID, y: PackageID)
    ensures Needs(g, x, y) <==> y in Closure(g, x)
    ensures Needs(g, x, y) ==> x in g && y in g
  {
    if Needs(g, x, y) {
      var p :| ImportChain(g, p, x, y);
      assert Leads(Edges(g), p, x, y);
    }
    if y in Closure(g, x) {
      var p :| Leads(Edges(g), p, x, y);
      assert ImportChain(g, p, x, y);
    }
  }

  lemma NeedsSelf(g: Graph, x: PackageID)
    requires x in g
    ensures Needs(g, x, x)
  {
    assert ImportChain(g, [x], x, x);
  }

  // ---- when there is a key ----

  predicate AllRead(files: Files, mp: Package)
  {
    forall file :: file in mp.compiledGoFiles ==> file in files
  }

  /** Every compiled file of the package and of everything it needs can be read. */
  ghost predicate Derivable(env: RunEnv, x: PackageID)
  {
    x in env.snap.graph && forall y :: y in env.snap.graph && Needs(env.snap.graph, x, y) ==> AllRead(env.snap.files, env.snap.graph[y])
  }

  lemma HashableExactly(env: RunEnv, x: PackageID)
    ensures Hashable(env.snap, x) <==> Derivable(env, x)
  {
    var g, files := env.snap.graph, env.snap.files;
    forall y
      ensures Needs(g, x, y) <==> y in Closure(g, x)
      ensures Needs(g, x, y) ==> y in g
    {
      NeedsIsClosure(g, x, y);
    }
    forall mp: Package
      ensures Readable(files, mp) <==> AllRead(files, mp)
    {
      ReadAlike(files, mp);
    }
    if x in g {
      NeedsSelf(g, x);
      assert forall y :: y in Closure(g, x) <==> y == x || y in Deps(env.snap, x);
    }
  }

  lemma ReadAlike(files: Files, mp: Package)
    ensures Readable(files, mp) <==> AllRead(files, mp)
  {
    assert forall i :: 0 <= i < |mp.compiledGoFiles| ==> mp.compiledGoFiles[i] in mp.compiledGoFiles;
  }

  /** A package has a key exactly when everything it needs can be read. */
  lemma DerivableExactly(sha: Sha, env: RunEnv, x: PackageID)
    ensures KeyOf(sha, env, x).Some? <==> Derivable(env, x)
  {
    HashableExactly(env, x);
  }

  // ---- the files of a package ----

  /** The contents of the listed files with the given base name, in order. */
  function Contents(files: Files, paths: seq<string>, base: string): seq<string>
  {
    if paths == [] then []
    else (if Base(paths[0]) == base && paths[0] in files then [files[paths[0]]] else []) + Contents(files, paths[1..], base)
  }

  /** Base name by base name, the compiled files have the same contents. */
  ghost predicate SameFiles(a: Files, mp: Package, b: Files, np: Package)
  {
    forall base :: Contents(a, mp.compiledGoFiles, base) == Contents(b, np.compiledGoFiles, base)
  }

  function Sourced(base: string, contents: seq<string>): (r: seq<Source>)
    ensures |r| == |contents| && forall i :: 0 <= i < |r| ==> r[i] == Source(base, contents[i])
  {
    seq(|contents|, i requires 0 <= i < |contents| => Source(base, contents[i]))
  }

  lemma {:induction false} SelectedContents(files: Files, paths: seq<string>, ss: seq<Source>, base: string)
    requires |ss| == |paths| && forall i :: 0 <= i < |paths| ==> paths[i] in files && ss[i] == Source(Base(paths[i]), files[paths[i]])
    ensures Select(BaseOf, ss, base) == Sourced(base, Contents(files, paths, base))
    decreases |paths|
  {
    if paths != [] {
      SelectedContents(files, paths[1..], ss[1..], base);
    }
  }

  lemma SourcedInjective(base: string, a: seq<string>, b: seq<string>)
    requires Sourced(base, a) == Sourced(base, b)
    ensures a == b
  {
    assert |a| == |Sourced(base, a)| == |b|;
    forall i | 0 <= i < |a|
      ensures a[i] == b[i]
    {
      assert Sourced(base, a)[i] == Sourced(base, b)[i];
    }
  }

  lemma SameUnder(a: Files, mp: Package, s: seq<Source>, b: Files, np: Package, t: seq<Source>, base: string)
    requires Readable(a, mp) && Readable(b, np) && s == SourceList(a, mp) && t == SourceList(b, np)
    ensures Select(BaseOf, s, base) == Select(BaseOf, t, base) <==>
            Contents(a, mp.compiledGoFiles, base) == Contents(b, np.compiledGoFiles, base)
  {
    SelectedContents(a, mp.compiledGoFiles, s, base);
    SelectedContents(b, np.compiledGoFiles, t, base);
    if Select(BaseOf, s, base) == Select(BaseOf, t, base) {
      SourcedInjective(base, Contents(a, mp.compiledGoFiles, base), Contents(b, np.compiledGoFiles, base));
    }
  }

  lemma SourcesAgree(a: Files, mp: Package, s: seq<Source>, b: Files, np: Package, t: seq<Source>)
    requires Readable(a, mp) && Readable(b, np) && s == SourceList(a, mp) && t == SourceList(b, np)
    ensures Agree(BaseOf, s, t) <==> SameFiles(a, mp, b, np)
  {
    if Agree(BaseOf, s, t) {
      forall base
        ensures Contents(a, mp.compiledGoFiles, base) == Contents(b, np.compiledGoFiles, base)
      {
        SameUnder(a, mp, s, b, np, t, base);
      }
    } else {
      var base :| Select(BaseOf, s, base) != Select(BaseOf, t, base);
      SameUnder(a, mp, s, b, np, t, base);
    }
  }

  lemma SourcesExactly(a: Files, mp: Package, b: Files, np: Package)
    requires Readable(a, mp) && Readable(b, np)
    ensures Sources(a, mp) == Sources(b, np) <==> SameFiles(a, mp, b, np)
  {
    SortsAlike(BaseOf, SourceList(a, mp), SourceList(b, np));
    SourcesAgree(a, mp, SourceList(a, mp), b, np, SourceList(b, np));
  }

  // ---- the analyzers of a plan ----

  /** Entry n is the first use of its analyzer. */
  predicate FirstUse(plan: seq<PlanEntry>, n: nat)
    requires n < |plan|
  {
    plan[n].Planned? && forall j :: 0 <= j < n && plan[j].Planned? ==> plan[j].ptr != plan[n].ptr
  }

  /** The rows planned under a name among the first n entries, each analyzer once. */
  function Uses(plan: seq<PlanEntry>, name: string, n: nat): seq<AnalyzerRow>
    requires n <= |plan|
  {
    if n == 0 then []
    else Uses(plan, name, n - 1) + if FirstUse(plan, n - 1) && plan[n - 1].row.name == name then [plan[n - 1].row] else []
  }

  ghost predicate SameAnalyzers(p: seq<PlanEntry>, q: seq<PlanEntry>)
  {
    (p == [] <==> q == []) && SameUses(p, q)
  }

  ghost predicate SameUses(p: seq<PlanEntry>, q: seq<PlanEntry>)
  {
    forall name :: Uses(p, name, |p|) == Uses(q, name, |q|)
  }

  predicate NewTo(plan: seq<PlanEntry>, seen: set<nat>, e: PlanEntry)
  {
    e.Planned? && e.ptr !in seen && forall j :: 0 <= j < |plan| && plan[j].Planned? ==> plan[j].ptr != e.ptr
  }

  lemma {:induction false} PlanSnoc(plan: seq<PlanEntry>, seen: set<nat>, e: PlanEntry)
    ensures PlanRows(plan + [e], seen) == PlanRows(plan, seen) + if NewTo(plan, seen, e) then [e.row] else []
    decreases |plan|
  {
    if plan == [] {
      assert plan + [e] == [e] && [e][1..] == [];
    } else {
      assert (plan + [e])[0] == plan[0] && (plan + [e])[1..] == plan[1..] + [e];
      var next := if plan[0].Planned? then seen + {plan[0].ptr} else seen;
      PlanSnoc(plan[1..], seen, e);
      PlanSnoc(plan[1..], next, e);
      NewToStep(plan, seen, e);
    }
  }

  lemma NewToStep(plan: seq<PlanEntry>, seen: set<nat>, e: PlanEntry)
    requires plan != []
    ensures var next := if plan[0].Planned? then seen + {plan[0].ptr} else seen;
            NewTo(plan, seen, e) <==> NewTo(plan[1..], next, e)
  {
    var rest := plan[1..];
    assert forall j :: 0 <= j < |rest| ==> rest[j] == plan[j + 1];
    if NewTo(rest, if plan[0].Planned? then seen + {plan[0].ptr} else seen, e) {
      forall j | 0 <= j < |plan| && plan[j].Planned?
        ensures plan[j].ptr != e.ptr
      {
        assert j > 0 ==> plan[j] == rest[j - 1];
      }
    }
  }

  lemma {:induction false} SelectedUses(plan: seq<PlanEntry>, name: string, n: nat)
    requires n <= |plan|
    ensures Select(AnalyzerName, PlanRows(plan[..n], {}), name) == Uses(plan, name, n)
  {
    if n > 0 {
      var before, e := plan[..n - 1], plan[n - 1];
      SelectedUses(plan, name, n - 1);
      assert plan[..n] == before + [e];
      PlanSnoc(before, {}, e);
      FirstIsNew(plan, n - 1);
      var more := if NewTo(before, {}, e) then [e.row] else [];
      SelectAppend(AnalyzerName, PlanRows(before, {}), more, name);
      SelectOne(AnalyzerName, more, name);
    }
  }

  lemma FirstIsNew(plan: seq<PlanEntry>, n: nat)
    requires n < |plan|
    ensures NewTo(plan[..n], {}, plan[n]) <==> FirstUse(plan, n)
  {
    assert forall j :: 0 <= j < n ==> plan[..n][j] == plan[j];
  }

  lemma UsesAgree(p: seq<PlanEntry>, q: seq<PlanEntry>, a: seq<AnalyzerRow>, b: seq<AnalyzerRow>)
    requires a == PlanRows(p, {}) && b == PlanRows(q, {})
    ensures Agree(AnalyzerName, a, b) <==> SameUses(p, q)
  {
    if Agree(AnalyzerName, a, b) {
      forall name
        ensures Uses(p, name, |p|) == Uses(q, name, |q|)
      {
        UsesSelected(p, name);
        UsesSelected(q, name);
      }
    } else {
      var name :| Select(AnalyzerName, a, name) != Select(AnalyzerName, b, name);
      UsesSelected(p, name);
      UsesSelected(q, name);
    }
  }

  lemma UsesSelected(plan: seq<PlanEntry>, name: string)
    ensures Select(AnalyzerName, PlanRows(plan, {}), name) == Uses(plan, name, |plan|)
  {
    SelectedUses(plan, name, |plan|);
    assert plan[..|plan|] == plan;
  }

  lemma AnalyzersExactly(p: seq<PlanEntry>, q: seq<PlanEntry>)
    ensures AnalyzerSet(p) == AnalyzerSet(q) <==> SameAnalyzers(p, q)
  {
    if p != [] && q != [] {
      SortsAlike(AnalyzerName, PlanRows(p, {}), PlanRows(q, {}));
      UsesAgree(p, q, PlanRows(p, {}), PlanRows(q, {}));
    } else if p == [] && q == [] {
      assert p == q;
    }
  }

  // ---- what a key covers ----

  /** The two runs have the same package x, needing the same packages with the same files. */
  ghost predicate SameModules(s: Snapshot, t: Snapshot, x: PackageID)
  {
    && x in s.graph && x in t.graph && s.graph[x].pkgPath == t.graph[x].pkgPath
    && (forall y :: Needs(s.graph, x, y) <==> Needs(t.graph, x, y))
    && (forall y :: y in s.graph && y in t.graph && Needs(s.graph, x, y) ==> SameFiles(s.files, s.graph[y], t.files, t.graph[y]))
  }

  /** Everything but the filter that the findings of x may depend on. */
  ghost predicate SameCode(e: RunEnv, f: RunEnv, x: PackageID)
  {
    && SameModules(e.snap, f.snap, x) && SameAnalyzers(e.plan, f.plan)
    && e.toolVersion == f.toolVersion && e.buildEnv == f.buildEnv && e.goVersion == f.goVersion
  }

  lemma SameNeedsSameDeps(s: Snapshot, t: Snapshot, x: PackageID)
    requires x in s.graph && x in t.graph
    ensures Deps(s, x) == Deps(t, x) <==> forall y :: Needs(s.graph, x, y) <==> Needs(t.graph, x, y)
  {
    if Deps(s, x) == Deps(t, x) {
      forall y
        ensures Needs(s.graph, x, y) <==> Needs(t.graph, x, y)
      {
        DepIsNeeded(s, x, y);
        DepIsNeeded(t, x, y);
      }
    } else {
      var y :| !(y in Deps(s, x) <==> y in Deps(t, x));
      DepIsNeeded(s, x, y);
      DepIsNeeded(t, x, y);
    }
  }

  lemma DepIsNeeded(s: Snapshot, x: PackageID, y: PackageID)
    requires x in s.graph
    ensures Needs(s.graph, x, y) <==> y == x || y in Deps(s, x)
    ensures Needs(s.graph, x, y) ==> y in s.graph
  {
    NeedsIsClosure(s.graph, x, y);
    NeedsSelf(s.graph, x);
  }

  /** Sources and closures agree exactly when the modules do, as far as x needs them. */
  lemma ModulesExactly(s: Snapshot, t: Snapshot, x: PackageID)
    requires Hashable(s, x) && Hashable(t, x)
    ensures SameModules(s, t, x) <==>
            s.graph[x].pkgPath == t.graph[x].pkgPath && Sources(s.files, s.graph[x]) == Sources(t.files, t.graph[x])
            && DepSources(s, x) == DepSources(t, x)
  {
    SameNeedsSameDeps(s, t, x);
    forall y
      ensures Needs(s.graph, x, y) <==> y == x || y in Deps(s, x)
    {
      DepIsNeeded(s, x, y);
    }
    SourcesExactly(s.files, s.graph[x], t.files, t.graph[x]);
    DepSourcesKeys(s, x);
    DepSourcesKeys(t, x);
    forall y | y in Deps(s, x) && y in Deps(t, x)
      ensures DepSources(s, x)[y] == DepSources(t, x)[y] <==> SameFiles(s.files, s.graph[y], t.files, t.graph[y])
    {
      SourcesExactly(s.files, s.graph[y], t.files, t.graph[y]);
    }
    MapsAlike(DepSources(s, x), DepSources(t, x));
  }

  lemma MapsAlike(a: map<PackageID, seq<Source>>, b: map<PackageID, seq<Source>>)
    ensures a == b <==> a.Keys == b.Keys && forall y :: y in a.Keys && y in b.Keys ==> a[y] == b[y]
  {
    if a.Keys == b.Keys && forall y :: y in a.Keys && y in b.Keys ==> a[y] == b[y] {
      assert forall y :: y in a <==> y in a.Keys;
    }
  }

  lemma InputsExactly(e: RunEnv, f: RunEnv, x: PackageID)
    requires Hashable(e.snap, x) && Hashable(f.snap, x) && WellKeyed(e.snap.graph) && WellKeyed(f.snap.graph)
    ensures Inputs(e, x) == Inputs(f, x) <==> SameCode(e, f, x) && e.filterConfigHash == f.filterConfigHash
  {
    ModulesExactly(e.snap, f.snap, x);
    AnalyzersExactly(e.plan, f.plan);
    assert e.snap.graph[x].id == x == f.snap.graph[x].id;
  }

  /**
   * What a key means: two packages of any two runs share a key exactly when they
   * are the same package, need the same packages with the same file contents, and
   * meet the same analyzers, filter digest and versions.
   */
  lemma KeyMeaning(sha: Sha, u: set<string>, e: RunEnv, f: RunEnv, x: PackageID, y: PackageID)
    requires CollisionFree(sha, u) && WellKeyed(e.snap.graph) && WellKeyed(f.snap.graph)
    requires Hashable(e.snap, x) && Hashable(f.snap, y) && Covered(sha, e, x, u) && Covered(sha, f, y, u)
    ensures KeyOf(sha, e, x) == KeyOf(sha, f, y) <==>
            x == y && SameCode(e, f, x) && e.filterConfigHash == f.filterConfigHash
  {
    KeySound(sha, u, e, f, x, y);
    if x == y {
      InputsExactly(e, f, x);
    } else {
      assert Inputs(e, x).id == x && Inputs(f, y).id == y;
    }
  }
}
