// Two runs with the same filter and no failure anywhere, on a module in which q
// imports p and p has one finding.  In the first run p has an in-package test, so
// the test variant stands in for p and p itself is met only as q's dependency.
// Then the test file is deleted (or tests are switched off), and p is a root.

module Scenario {
  import opened Strings
  import opened Framing
  import opened Paths
  import opened SortedRows
  import opened Reachability
  import opened DepClosure
  import opened L0Keys
  import opened Diagnostics
  import opened Suppression
  import opened Exclusion
  import opened FilterObjects
  import opened FilterTokens
  import opened FilterDigest
  import opened Filenames
  import opened Gathering
  import opened RunModel
  import opened CacheProtocol
  import opened Engine
  import opened FailureFree

  // ---- the module ----

  function PlainP(): Package { Package("p", "m/p", "", ["/m/p/p.go"], ["/m/p/p.go"], map[]) }

  function TestedP(): Package
  {
    Package("p [p.test]", "m/p", "m/p", ["/m/p/p.go", "/m/p/p_test.go"], ["/m/p/p.go", "/m/p/p_test.go"], map[])
  }

  function PkgQ(): Package { Package("q", "m/q", "", ["/m/q/q.go"], ["/m/q/q.go"], map["m/p" := "p"]) }

  function WithTest(): Graph { map["p" := PlainP(), "p [p.test]" := TestedP(), "q" := PkgQ()] }

  function WithoutTest(): Graph { map["p" := PlainP(), "q" := PkgQ()] }

  function TreeBefore(): Files
  {
    map["/m/p/p.go" := "package p", "/m/p/p_test.go" := "package p // test", "/m/q/q.go" := "package q; import m/p"]
  }

  function TreeAfter(): Files { map["/m/p/p.go" := "package p", "/m/q/q.go" := "package q; import m/p"] }

  function Finding(): Diagnostic
  {
    Diagnostic("errcheck", "unchecked error", "error", Position("/m/p/p.go", 3, 1), [], [], [])
  }

  // ---- the program around it ----

  function AnyRegexp(re: string): bool { true }

  function NeverMatches(re: string, s: string): bool { false }

  function RelTo(base: string, name: string): Option<string>
  {
    if base + "/" <= name then Some(name[|base| + 1..]) else None
  }

  function NotParsed(source: string): Option<ParsedFile> { None }

  function AsIs(s: string): string { s }

  function PlainHost(): Host { Host(AnyRegexp, NeverMatches, RelTo, NeverMatches, NotParsed, AsIs, {}) }

  /** The filter of an empty configuration file. */
  function DefaultFilter(): Config { NewFilter(Some(Settings([], [], [], [], "", {})), "/m", []) }

  function EnvFor(filterDigest: Digest, graph: Graph, files: Files): RunEnv
  {
    RunEnv(Snapshot(graph, files), [], filterDigest, "tool", "linux", "go")
  }

  function Findings(env: RunEnv, id: PackageID): seq<Diagnostic>
  {
    if id == "p" || id == "p [p.test]" then [Finding()] else []
  }

  function FileOf(id: PackageID, base: string): string
  {
    if id == "q" then "/m/q/q.go" else if base == "p_test.go" then "/m/p/p_test.go" else "/m/p/p.go"
  }

  function PlaceOf(id: PackageID, base: string): string
  {
    RelativePath(PlainHost(), DefaultFilter(), FileOf(id, base))
  }

  function Portable(name: string): string { Canonicalize(name, "m/p") }

  function SampleWorld(sha: Sha): World { World(sha, PlainHost(), Findings, PlaceOf) }

  function BeforeEdit(filterDigest: Digest): RunInput
  {
    RunInput(WithTest(), EnvFor(filterDigest, WithTest(), TreeBefore()), Some(DefaultFilter()), Portable)
  }

  function AfterEdit(filterDigest: Digest): RunInput
  {
    RunInput(WithoutTest(), EnvFor(filterDigest, WithoutTest(), TreeAfter()), Some(DefaultFilter()), Portable)
  }

  ghost function First(sha: Sha): RunInput { BeforeEdit(ConfigHash(sha, Some(DefaultFilter()))) }

  ghost function Second(sha: Sha): RunInput { AfterEdit(ConfigHash(sha, Some(DefaultFilter()))) }

  // ---- what is hashed ----

  /** Everything hashed while deriving the keys of all packages of a snapshot. */
  ghost function Hashed(sha: Sha, env: RunEnv): set<string>
  {
    set id, x | id in env.snap.graph.Keys && x in HashedFor(sha, env, id) :: x
  }

  ghost function HashedFor(sha: Sha, env: RunEnv, id: PackageID): set<string>
  {
    if !Hashable(env.snap, id) then {}
    else
      Contents(Sources(env.snap.files, env.snap.graph[id])) +
      {SourcePreimage(sha, Sources(env.snap.files, env.snap.graph[id])), RowsBytes(DepRows(sha, env.snap, id)),
       PlanPreimage(env.plan), Frames(KeyFrames(Parts(sha, env, id)))}
  }

  function Contents(sources: seq<Source>): set<string>
  {
    set s | s in sources :: s.content
  }

  ghost function AllHashed(sha: Sha): set<string>
  {
    Hashed(sha, First(sha).env) + Hashed(sha, Second(sha).env) + {Frames(Tokens(DefaultFilter()))}
  }

  lemma HashedHolds(sha: Sha, env: RunEnv, u: set<string>, id: PackageID, x: string)
    requires Hashed(sha, env) <= u && id in env.snap.graph && x in HashedFor(sha, env, id)
    ensures x in u
  {
    assert x in Hashed(sha, env);
  }

  lemma SourcesHashed(sha: Sha, env: RunEnv, u: set<string>, id: PackageID)
    requires Hashed(sha, env) <= u && Hashable(env.snap, id)
    ensures SourcesCovered(sha, Sources(env.snap.files, env.snap.graph[id]), u)
  {
    var sources := Sources(env.snap.files, env.snap.graph[id]);
    HashedHolds(sha, env, u, id, SourcePreimage(sha, sources));
    forall i | 0 <= i < |sources|
      ensures sources[i].content in u
    {
      assert sources[i].content in Contents(sources);
      HashedHolds(sha, env, u, id, sources[i].content);
    }
  }

  lemma KeyHashed(sha: Sha, env: RunEnv, u: set<string>, id: PackageID)
    requires Hashed(sha, env) <= u && Hashable(env.snap, id) && forall x :: x in env.snap.graph ==> Hashable(env.snap, x)
    ensures Covered(sha, env, id, u)
  {
    SourcesHashed(sha, env, u, id);
    HashedHolds(sha, env, u, id, RowsBytes(DepRows(sha, env.snap, id)));
    HashedHolds(sha, env, u, id, PlanPreimage(env.plan));
    HashedHolds(sha, env, u, id, Frames(KeyFrames(Parts(sha, env, id))));
    forall x | x in Deps(env.snap, id)
      ensures SourcesCovered(sha, Sources(env.snap.files, env.snap.graph[x]), u)
    {
      SourcesHashed(sha, env, u, x);
    }
  }

  lemma KeysHashed(sha: Sha, env: RunEnv, u: set<string>)
    requires Hashed(sha, env) <= u && forall x :: x in env.snap.graph ==> Hashable(env.snap, x)
    ensures forall id :: Hashable(env.snap, id) ==> Covered(sha, env, id, u)
  {
    forall id | Hashable(env.snap, id)
      ensures Covered(sha, env, id, u)
    {
      KeyHashed(sha, env, u, id);
    }
  }

  // ---- both runs are admissible ----

  ghost predicate Sample(sha: Sha, run: RunInput) { run == First(sha) || run == Second(sha) }

  /** Packages are filed under their own IDs and their files can be read. */
  ghost predicate Loaded(g: Graph, files: Files)
  {
    WellKeyed(g) && "" !in g && forall x :: x in g ==> Readable(files, g[x])
  }

  lemma LoadedBefore(g: Graph, files: Files)
    requires g == WithTest() && files == TreeBefore()
    ensures Loaded(g, files)
  {
    assert Readable(files, PlainP()) && Readable(files, TestedP()) && Readable(files, PkgQ());
  }

  lemma LoadedAfter(g: Graph, files: Files)
    requires g == WithoutTest() && files == TreeAfter()
    ensures Loaded(g, files)
  {
    assert Readable(files, PlainP()) && Readable(files, PkgQ());
  }

  lemma SampleGraph(sha: Sha, run: RunInput)
    requires Sample(sha, run)
    ensures run.env.snap.graph == run.ws && Loaded(run.ws, run.env.snap.files)
  {
    if run == First(sha) {
      LoadedBefore(run.ws, run.env.snap.files);
    } else {
      LoadedAfter(run.ws, run.env.snap.files);
    }
  }

  lemma AllHashable(env: RunEnv)
    requires forall x :: x in env.snap.graph ==> Readable(env.snap.files, env.snap.graph[x])
    ensures forall x :: x in env.snap.graph ==> Hashable(env.snap, x)
  {
  }

  lemma GraphGood(sha: Sha, u: set<string>, w: World, run: RunInput)
    requires Sample(sha, run) && u == AllHashed(sha) && w.sha == sha
    ensures GoodGraph(w, u, run)
  {
    SampleGraph(sha, run);
    AllHashable(run.env);
    assert Hashed(sha, run.env) <= u;
    KeysHashed(sha, run.env, u);
  }

  lemma DefaultUnambiguous(f: Config)
    requires f == DefaultFilter()
    ensures Accepted(PlainHost().compiles, f) && NilFree(f) && Unambiguous(PlainHost().compiles, f)
  {
  }

  lemma FilterGood(sha: Sha, u: set<string>, w: World, run: RunInput)
    requires Sample(sha, run) && u == AllHashed(sha) && w.sha == sha
    ensures GoodFilter(w, u, run)
  {
    DefaultUnambiguous(DefaultFilter());
  }

  lemma KeepsEverything(file: string, disk: Files)
    ensures !ExcludesFile(PlainHost(), disk, DefaultFilter(), file)
  {
  }

  lemma SupersededP(ws: Graph, pkgs: Graph)
    requires ws == WithTest() && pkgs == map["p [p.test]" := TestedP(), "q" := PkgQ()]
    ensures Unsuperseded(ws) == pkgs
  {
    assert ws["p [p.test]"].forTest == ws["p [p.test]"].pkgPath == "m/p";
    assert HasTestVariant(ws, "m/p");
    assert forall id :: id in ws && ws[id].forTest != "" ==> ws[id].pkgPath == "m/p";
    assert !HasTestVariant(ws, "m/q");
  }

  lemma NothingSuperseded(ws: Graph)
    requires ws == WithoutTest()
    ensures Unsuperseded(ws) == ws
  {
    assert forall id :: id in ws ==> ws[id].forTest == "";
  }

  ghost function SamplePkgs(first: bool): Graph
  {
    if first then map["p [p.test]" := TestedP(), "q" := PkgQ()] else WithoutTest()
  }

  lemma SamplePackages(sha: Sha, w: World, run: RunInput)
    requires Sample(sha, run) && w.host == PlainHost()
    ensures Pkgs(run) == SamplePkgs(run == First(sha)) && Roots(w, run) == Pkgs(run).Keys
  {
    if run == First(sha) {
      SupersededP(run.ws, SamplePkgs(true));
    } else {
      NothingSuperseded(run.ws);
    }
    forall id | id in Pkgs(run)
      ensures !ExcludesAll(w.host, DiskOf(run), run.filter, Pkgs(run)[id].compiledGoFiles)
    {
      KeepsEverything(Pkgs(run)[id].compiledGoFiles[0], DiskOf(run));
    }
  }

  lemma BaseOfSource()
    ensures Base("/m/p/p.go") == "p.go"
  {
    BaseAfter("/m/p", "p.go");
    assert "/m/p" + "/" + "p.go" == "/m/p/p.go";
  }

  lemma BaseOfTest()
    ensures Base("/m/p/p_test.go") == "p_test.go"
  {
    BaseAfter("/m/p", "p_test.go");
    assert "/m/p" + "/" + "p_test.go" == "/m/p/p_test.go";
  }

  lemma BaseAfter(dir: string, name: string)
    requires name != "" && '/' !in name
    ensures Base(dir + "/" + name) == name
  {
    var p := dir + "/" + name;
    assert p[|p| - 1] == name[|name| - 1];
    AfterLastSlashUnique(dir, name);
  }

  lemma FilesPlaced(pkgs: Graph, first: bool, id: PackageID, file: string)
    requires pkgs == SamplePkgs(first) && id in pkgs && file in pkgs[id].compiledGoFiles
    ensures file == FileOf(id, Base(file))
  {
    BaseOfSource();
    BaseOfTest();
    if id != "q" {
      FilesOfP(pkgs, first, id, file);
    } else {
      assert pkgs[id] == PkgQ();
    }
  }

  lemma FilesOfP(pkgs: Graph, first: bool, id: PackageID, file: string)
    requires pkgs == SamplePkgs(first) && id in pkgs && id != "q" && file in pkgs[id].compiledGoFiles
    ensures file == "/m/p/p.go" || file == "/m/p/p_test.go"
  {
  }

  lemma FilesDisjoint(pkgs: Graph, first: bool)
    requires pkgs == SamplePkgs(first)
    ensures DisjointFiles(pkgs)
  {
  }

  /** Where files are found by package and base name, base names are unique. */
  lemma PlacedApart(pkgs: Graph, id: PackageID)
    requires id in pkgs && forall file :: file in pkgs[id].compiledGoFiles ==> file == FileOf(id, Base(file))
    ensures BasesApart(pkgs[id])
  {
    var files := pkgs[id].compiledGoFiles;
    forall i, j | 0 <= i < |files| && 0 <= j < |files| && Base(files[i]) == Base(files[j])
      ensures files[i] == files[j]
    {
      assert files[i] in files && files[j] in files;
    }
  }

  lemma SampleLaidOut(sha: Sha, w: World, run: RunInput)
    requires Sample(sha, run) && w.host == PlainHost() && w.rel == PlaceOf
    ensures LaidOut(w, run)
  {
    SamplePackages(sha, w, run);
    var pkgs := Pkgs(run);
    forall id, file | id in pkgs && file in pkgs[id].compiledGoFiles
      ensures file == FileOf(id, Base(file))
    {
      FilesPlaced(pkgs, run == First(sha), id, file);
    }
    forall id | id in pkgs
      ensures BasesApart(pkgs[id])
    {
      PlacedApart(pkgs, id);
    }
  }

  lemma FindingsOwned(pkgs: Graph, first: bool, id: PackageID)
    requires pkgs == SamplePkgs(first) && id in pkgs && (id == "p" || id == "p [p.test]")
    ensures pkgs[id].pkgPath == "m/p" && "/m/p/p.go" in pkgs[id].compiledGoFiles
  {
    var files := pkgs[id].compiledGoFiles;
    assert files[0] == "/m/p/p.go";
  }

  lemma SampleOwn(sha: Sha, w: World, run: RunInput)
    requires Sample(sha, run) && w.host == PlainHost() && w.analyze == Findings
    ensures OwnFilesOnly(w, run)
  {
    SamplePackages(sha, w, run);
    forall id, d | id in Pkgs(run) && d in w.analyze(run.env, id)
      ensures d.pos.filename in Pkgs(run)[id].compiledGoFiles
    {
      FindingsOwned(Pkgs(run), run == First(sha), id);
    }
  }

  lemma FindingNamed(m: map<string, string>, portable: string -> string)
    requires "/m/p/p.go" in m && m["/m/p/p.go"] == "m/p" && portable == Portable
    ensures EveryName(Finding(), n => CanonicalName(m, n) == portable(n))
  {
  }

  lemma OwnerNamed(pkgs: Graph, m: map<string, string>, id: PackageID, file: string, path: string)
    requires IsUriPkgPath(pkgs, m) && DisjointFiles(pkgs) && id in pkgs && file in pkgs[id].compiledGoFiles
    requires pkgs[id].pkgPath == path != ""
    ensures file in m && m[file] == path
  {
    assert Owns(pkgs[id], file);
  }

  lemma SampleNames(sha: Sha, w: World, run: RunInput)
    requires Sample(sha, run) && w.host == PlainHost() && w.analyze == Findings
    ensures NamedPortably(w, run)
  {
    SamplePackages(sha, w, run);
    FilesDisjoint(Pkgs(run), run == First(sha));
    forall m, id, d | IsUriPkgPath(Pkgs(run), m) && id in Pkgs(run) && d in w.analyze(run.env, id)
      ensures EveryName(d, n => CanonicalName(m, n) == run.portable(n))
    {
      FindingsOwned(Pkgs(run), run == First(sha), id);
      OwnerNamed(Pkgs(run), m, id, "/m/p/p.go", "m/p");
      FindingNamed(m, run.portable);
    }
  }

  lemma SampleAdmissible(sha: Sha, u: set<string>, w: World, run: RunInput)
    requires Sample(sha, run) && u == AllHashed(sha) && w == SampleWorld(sha)
    ensures Admissible(w, u, run)
  {
    GraphGood(sha, u, w, run);
    FilterGood(sha, u, w, run);
    SamplePackages(sha, w, run);
    FilesDisjoint(Pkgs(run), run == First(sha));
    SampleOwn(sha, w, run);
    SampleLaidOut(sha, w, run);
    SampleNames(sha, w, run);
  }

  lemma SampleLocal(sha: Sha, w: World)
    requires w == SampleWorld(sha)
    ensures AnalyzerLocal(w)
  {
    forall r: RunInput, t: RunInput, id | Located(w, r) && Located(w, t) && id in Pkgs(r) && id in Pkgs(t)
      && Pkgs(r)[id].pkgPath == Pkgs(t)[id].pkgPath
      ensures RenameList(w.analyze(r.env, id), r.portable) == RenameList(w.analyze(t.env, id), t.portable)
    {
      SampleRenamed(w, r, t, id);
    }
  }

  lemma SampleRenamed(w: World, r: RunInput, t: RunInput, id: PackageID)
    requires w == SampleWorld(w.sha) && Located(w, r) && Located(w, t) && id in Pkgs(r) && id in Pkgs(t)
    requires Pkgs(r)[id].pkgPath == Pkgs(t)[id].pkgPath
    ensures RenameList(w.analyze(r.env, id), r.portable) == RenameList(w.analyze(t.env, id), t.portable)
  {
    if id == "p" || id == "p [p.test]" {
      PortableOf(w, r, id, Finding());
      PortableOf(w, t, id, Finding());
      assert Rename(Finding(), r.portable) == Rename(Finding(), t.portable);
    }
  }

  // ---- the loss ----

  lemma DependsOnP(g: Graph)
    requires g == WithTest()
    ensures "p" in DepsOf(g, {"p [p.test]", "q"})
  {
    var e := Edges(g);
    assert PkgQ().depsByPkgPath["m/p"] == "p";
    ReachesSelf(e, "p");
    ReachesPrepend(e, "q", "p", "p");
    assert "p" in Closure(g, "q");
  }

  lemma NoDeps(g: Graph)
    requires "p" in g && g["p"].depsByPkgPath == map[]
    ensures Closure(g, "p") == {"p"}
  {
    ReachesSelf(Edges(g), "p");
    forall x | x in Closure(g, "p")
      ensures x == "p"
    {
      ClosedHoldsReachable(Edges(g), {"p"}, "p", x);
    }
  }

  lemma SameSources(a: Files, b: Files, mp: Package)
    requires forall i :: 0 <= i < |mp.compiledGoFiles| ==>
               mp.compiledGoFiles[i] in a && mp.compiledGoFiles[i] in b && a[mp.compiledGoFiles[i]] == b[mp.compiledGoFiles[i]]
    ensures Readable(a, mp) && Readable(b, mp) && Sources(a, mp) == Sources(b, mp)
  {
    assert SourceList(a, mp) == SourceList(b, mp);
  }

  lemma LeafInputs(a: RunEnv, b: RunEnv, mp: Package)
    requires "p" in a.snap.graph && "p" in b.snap.graph && a.snap.graph["p"] == mp == b.snap.graph["p"]
    requires mp.depsByPkgPath == map[] && Readable(a.snap.files, mp) && Readable(b.snap.files, mp)
    requires Sources(a.snap.files, mp) == Sources(b.snap.files, mp) && b == a.(snap := b.snap)
    ensures Hashable(a.snap, "p") && Hashable(b.snap, "p") && Inputs(a, "p") == Inputs(b, "p")
  {
    NoDeps(a.snap.graph);
    NoDeps(b.snap.graph);
    assert Deps(a.snap, "p") == {} && Deps(b.snap, "p") == {};
    assert DepSources(a.snap, "p") == map[] && DepSources(b.snap, "p") == map[];
  }

  lemma SourcesOfP(a: Files, b: Files, mp: Package)
    requires a == TreeBefore() && b == TreeAfter() && mp == PlainP()
    ensures Readable(a, mp) && Readable(b, mp) && Sources(a, mp) == Sources(b, mp)
  {
    assert a["/m/p/p.go"] == b["/m/p/p.go"];
    SameSources(a, b, mp);
  }

  /** The edit leaves everything the key of p covers alone. */
  lemma SameInputs(sha: Sha, a: RunEnv, b: RunEnv)
    requires a == First(sha).env && b == Second(sha).env
    ensures Hashable(a.snap, "p") && Hashable(b.snap, "p") && Inputs(a, "p") == Inputs(b, "p")
  {
    SameButSnap(sha, a, b, PlainP());
    SourcesOfP(a.snap.files, b.snap.files, PlainP());
    LeafInputs(a, b, PlainP());
  }

  lemma SameButSnap(sha: Sha, a: RunEnv, b: RunEnv, mp: Package)
    requires a == First(sha).env && b == Second(sha).env && mp == PlainP()
    ensures "p" in a.snap.graph && "p" in b.snap.graph && a.snap.graph["p"] == mp == b.snap.graph["p"]
    ensures mp.depsByPkgPath == map[] && b == a.(snap := b.snap)
    ensures a.snap.files == TreeBefore() && b.snap.files == TreeAfter()
  {
  }

  lemma SampleSwitch(sha: Sha, w: World, first: RunInput, second: RunInput)
    requires w == SampleWorld(sha) && first == First(sha) && second == Second(sha)
    ensures "p" in DepsOnly(w, first) && "p" in Roots(w, second)
    ensures Key(w, first, "p").Some? && Key(w, first, "p") == Key(w, second, "p")
  {
    SamplePackages(sha, w, first);
    SamplePackages(sha, w, second);
    assert Roots(w, first) == {"p [p.test]", "q"};
    DependsOnP(first.env.snap.graph);
    SameInputs(sha, first.env, second.env);
    InputsDecideKey(sha, first.env, second.env, "p");
  }

  lemma FindingStays(disk: Files)
    ensures !Drops(PlainHost(), disk, DefaultFilter(), Finding())
  {
  }

  lemma KeepOne(drop: Diagnostic -> bool, d: Diagnostic)
    requires !drop(d)
    ensures Keep(drop, true, [d], {}).out == [d]
  {
    assert [d][1..] == [];
  }

  lemma KeptFinding(disk: Files)
    ensures ApplySpec(PlainHost(), disk, Some(DefaultFilter()), [Finding()]) == [Finding()]
  {
    FindingStays(disk);
    KeepOne(DropFn(PlainHost(), disk, DefaultFilter()), Finding());
  }

  lemma GatherTwo(a: PackageID, b: PackageID, f: PackageID -> seq<Diagnostic>)
    requires a != b
    ensures Gather({a, b}, f) == multiset(f(a)) + multiset(f(b))
  {
    GatherTake({a, b}, f, a);
    assert {a, b} - {a} == {b};
    GatherTake({b}, f, b);
    assert {b} - {b} == {};
  }

  lemma UncachedOfTwo(w: World, run: RunInput, a: PackageID, b: PackageID)
    requires Roots(w, run) == {a, b} && a != b
    ensures Uncached(w, run) == multiset(Result(w, run, a)) + multiset(Result(w, run, b))
  {
    var f := ResultFn(w, run);
    assert f(a) == Result(w, run, a) && f(b) == Result(w, run, b);
    GatherTwo(a, b, f);
  }

  /** What a package with a given list of findings contributes under this filter. */
  lemma OneFinding(w: World, run: RunInput, id: PackageID)
    requires w.host == PlainHost() && run.filter == Some(DefaultFilter()) && w.analyze(run.env, id) == [Finding()]
    ensures |Result(w, run, id)| == 1
  {
    KeptFinding(DiskOf(run));
  }

  lemma NoFinding(w: World, run: RunInput, id: PackageID)
    requires w.analyze(run.env, id) == []
    ensures Result(w, run, id) == []
  {
    ApplyToNothing(w.host, DiskOf(run), run.filter);
  }

  lemma SampleResults(sha: Sha, w: World, run: RunInput)
    requires w == SampleWorld(sha) && run == Second(sha)
    ensures |Result(w, run, "p")| == 1 && |Uncached(w, run)| == 1
  {
    OneFinding(w, run, "p");
    NoFinding(w, run, "q");
    SampleRoots(sha, w, run);
    UncachedOfTwo(w, run, "p", "q");
  }

  lemma SampleRoots(sha: Sha, w: World, run: RunInput)
    requires w.host == PlainHost() && run == Second(sha)
    ensures Roots(w, run) == {"p", "q"}
  {
    SamplePackages(sha, w, run);
  }

  lemma NothingLeft(out: multiset<Diagnostic>, lost: seq<Diagnostic>, all: multiset<Diagnostic>)
    requires out + multiset(lost) <= all && |all| == 1 && |lost| == 1
    ensures out == multiset{}
  {
    assert all == out + multiset(lost) + (all - (out + multiset(lost)));
    assert |all| == |out| + |lost| + |all - (out + multiset(lost))|;
  }

  /** In every pair of runs that fail nowhere, the second loses the finding if the first captured p. */
  lemma FindingLost(sha: Sha, u: set<string>, w: World, first: Turn, mid: State, second: Turn, last: State)
    requires u == AllHashed(sha) && CollisionFree(sha, u) && w == SampleWorld(sha)
    requires first.run == First(sha) && second.run == Second(sha) && first.reliable && second.reliable && "p" in first.captured
    requires RunStep(w, EMPTY, first, mid) && RunStep(w, mid, second, last)
    ensures first.out == Uncached(w, first.run)
    ensures second.out == multiset{} && |Uncached(w, second.run)| == 1
  {
    SampleAdmissible(sha, u, w, first.run);
    SampleAdmissible(sha, u, w, second.run);
    SampleLocal(sha, w);
    SampleSwitch(sha, w, first.run, second.run);
    DependencyEntryHidesFindings(w, u, first, mid, second, last, "p");
    SampleResults(sha, w, second.run);
    NothingLeft(second.out, Result(w, second.run, "p"), Uncached(w, second.run));
  }

  /** The program itself, run twice on a cache that never fails, loses the finding. */
  method LoseFinding(sha: Sha) returns (ok: bool, before: seq<Diagnostic>, after: seq<Diagnostic>)
    requires CollisionFree(sha, AllHashed(sha))
    ensures ok ==> multiset(before) == Uncached(SampleWorld(sha), First(sha))
    ensures ok ==> after == [] && |Uncached(SampleWorld(sha), Second(sha))| == 1
  {
    var w := SampleWorld(sha);
    var digest := ConfigDigest(sha, Some(DefaultFilter()));
    ghost var u := AllHashed(sha);
    var cache := new L0Cache(true);
    var hits;
    SampleAdmissible(sha, u, w, First(sha));
    SampleAdmissible(sha, u, w, Second(sha));
    var filter := new Filter(PlainHost(), DefaultFilter());
    ok, before, hits := RunInProcess(w, u, BeforeEdit(digest), filter, cache, {"p"});
    if !ok { return false, [], []; }
    ghost var first, mid := Turn(First(sha), multiset(before), hits, {"p"}, true), cache.Abstract();
    filter := new Filter(PlainHost(), DefaultFilter());
    ok, after, hits := RunInProcess(w, u, AfterEdit(digest), filter, cache, {});
    if !ok { return false, [], []; }
    FindingLost(sha, u, w, first, mid, Turn(Second(sha), multiset(after), hits, {}, true), cache.Abstract());
    assert |multiset(after)| == 0;
  }
}
