// The content key of one package (internal/l0/l0.go, internal/engine/l0.go):
// what is fed to SHA-256, and what two packages with the same key share.

module L0Keys {
  import opened Strings
  import opened Framing
  import opened Sorting
  import opened SortedRows
  import opened Paths
  import opened DepClosure
  import opened Reachability

  const CACHE_VERSION: nat := 4

  // ---- the three hashes ----

  function DigestRows(names: seq<string>, digests: seq<Digest>): (rows: seq<Row>)
    requires |names| == |digests|
    ensures |rows| == |names| && Width(rows, 0)
  {
    seq(|names|, i requires 0 <= i < |names| => Row(names[i], [], digests[i]))
  }

  /** l0.HashFiles and l0.HashDepClosure, which differ only in what they name. */
  method HashFiles(sha: Sha, uris: seq<string>, hashes: seq<Digest>) returns (h: Digest)
    ensures |uris| != |hashes| ==> h == ZERO_DIGEST
    ensures |uris| == |hashes| ==> h == sha(RowsBytes(Sort(NameOf, DigestRows(uris, hashes))))
  {
    if |uris| != |hashes| { return ZERO_DIGEST; }
    ghost var want := DigestRows(uris, hashes);
    var rows: seq<Row> := [];
    for i := 0 to |uris|
      invariant |rows| == i && forall j :: 0 <= j < i ==> rows[j] == want[j]
    {
      rows := rows + [Row(uris[i], [], hashes[i])];
    }
    assert rows == want;
    h := HashSortedRows(sha, rows);
  }

  /** An enabled analyzer as the key sees it. */
  datatype AnalyzerRow = AnalyzerRow(name: string, version: string, salt: Digest)

  function AnalyzerName(a: AnalyzerRow): string { a.name }

  function RowOfAnalyzer(a: AnalyzerRow): Row { Row(a.name, [a.version], a.salt) }

  /** An entry of the run plan: a nil analyzer, or a pointer with its identity. */
  datatype PlanEntry = NilAnalyzer | Planned(ptr: nat, row: AnalyzerRow)

  /** The planned analyzers, nil entries and repeated pointers dropped. */
  function PlanRows(plan: seq<PlanEntry>, seen: set<nat>): seq<AnalyzerRow>
  {
    if plan == [] then []
    else match plan[0]
      case NilAnalyzer => PlanRows(plan[1..], seen)
      case Planned(p, row) =>
        if p in seen then PlanRows(plan[1..], seen)
        else [row] + PlanRows(plan[1..], seen + {p})
  }

  function AnalyzerSetHash(sha: Sha, plan: seq<PlanEntry>): Digest
  {
    if plan == [] then ZERO_DIGEST
    else sha(RowsBytes(Sort(NameOf, Map(RowOfAnalyzer, PlanRows(plan, {})))))
  }

  /** computeAnalyzerSetHash. */
  method ComputeAnalyzerSetHash(sha: Sha, plan: seq<PlanEntry>) returns (h: Digest)
    ensures h == AnalyzerSetHash(sha, plan)
  {
    if |plan| == 0 { return ZERO_DIGEST; }
    var seen: set<nat> := {};
    var rows: seq<AnalyzerRow> := [];
    for i := 0 to |plan|
      invariant rows + PlanRows(plan[i..], seen) == PlanRows(plan, {})
    {
      assert plan[i..][1..] == plan[i + 1..];
      match plan[i] {
        case NilAnalyzer =>
        case Planned(p, row) =>
          if p !in seen {
            seen := seen + {p};
            rows := rows + [row];
          }
      }
    }
    assert rows == PlanRows(plan, {});
    h := HashSortedRows(sha, Map(RowOfAnalyzer, rows));
  }

  // ---- one package's own sources ----

  /** A compiled file as the key sees it: its base name and its contents. */
  datatype Source = Source(base: string, content: string)

  function BaseOf(s: Source): string { s.base }

  predicate Readable(files: Files, mp: Package)
  {
    forall i :: 0 <= i < |mp.compiledGoFiles| ==> mp.compiledGoFiles[i] in files
  }

  function SourceList(files: Files, mp: Package): (r: seq<Source>)
    requires Readable(files, mp)
    ensures |r| == |mp.compiledGoFiles|
    ensures forall i :: 0 <= i < |r| ==> r[i] == Source(Base(mp.compiledGoFiles[i]), files[mp.compiledGoFiles[i]])
  {
    seq(|mp.compiledGoFiles|, i requires 0 <= i < |mp.compiledGoFiles| =>
      Source(Base(mp.compiledGoFiles[i]), files[mp.compiledGoFiles[i]]))
  }

  /** The package's files by base name, in the order they are hashed. */
  function Sources(files: Files, mp: Package): (r: seq<Source>)
    requires Readable(files, mp)
    ensures multiset(r) == multiset(SourceList(files, mp))
  {
    Sort(BaseOf, SourceList(files, mp))
  }

  function RowOfSource(sha: Sha): Source -> Row
  {
    (s: Source) => Row(s.base, [], sha(s.content))
  }

  function SourcePreimage(sha: Sha, sources: seq<Source>): string
  {
    RowsBytes(Map(RowOfSource(sha), sources))
  }

  function SourceHash(sha: Sha, files: Files, mp: Package): Digest
    requires Readable(files, mp)
  {
    sha(SourcePreimage(sha, Sources(files, mp)))
  }

  // ---- the dependency closure ----

  datatype Snapshot = Snapshot(graph: Graph, files: Files)

  ghost function Deps(snap: Snapshot, id: PackageID): set<PackageID>
  {
    Closure(snap.graph, id) - {id}
  }

  ghost predicate DepsReadable(snap: Snapshot, id: PackageID)
  {
    forall x :: x in Deps(snap, id) ==> Readable(snap.files, snap.graph[x])
  }

  /** Every file that goes into the key of id can be read. */
  ghost predicate Hashable(snap: Snapshot, id: PackageID)
  {
    id in snap.graph && Readable(snap.files, snap.graph[id]) && DepsReadable(snap, id)
  }

  ghost function DepRows(sha: Sha, snap: Snapshot, id: PackageID): (rows: seq<Row>)
    requires DepsReadable(snap, id)
    ensures Width(rows, 0)
  {
    RowsOf(sha, snap, SortedElems(Deps(snap, id)))
  }

  /** One row for each of the packages, with its source hash. */
  ghost function RowsOf(sha: Sha, snap: Snapshot, ids: seq<PackageID>): (rows: seq<Row>)
    requires forall x :: x in ids ==> x in snap.graph && Readable(snap.files, snap.graph[x])
    ensures Width(rows, 0)
  {
    seq(|ids|, i requires 0 <= i < |ids| =>
      assert ids[i] in ids;
      Row(ids[i], [], SourceHash(sha, snap.files, snap.graph[ids[i]])))
  }

  ghost function DepHash(sha: Sha, snap: Snapshot, id: PackageID): Digest
    requires DepsReadable(snap, id)
  {
    sha(RowsBytes(DepRows(sha, snap, id)))
  }

  // ---- the key ----

  datatype KeyParts = KeyParts(
    packageID: string,
    packagePath: string,
    sourceHash: Digest,
    depHash: Digest,
    analyzerSetHash: Digest,
    filterConfigHash: Digest,
    toolVersion: string,
    buildEnv: string,
    goVersion: string)

  function KeyFrames(parts: KeyParts): seq<string>
  {
    [Le(CACHE_VERSION, 4), "l0/v1", parts.packageID, parts.packagePath,
     parts.sourceHash, parts.depHash, parts.analyzerSetHash, parts.filterConfigHash,
     parts.toolVersion, parts.buildEnv, parts.goVersion]
  }

  /** l0.ComputeKey. */
  method ComputeKey(sha: Sha, parts: KeyParts) returns (key: Digest)
    ensures key == sha(Frames(KeyFrames(parts)))
  {
    key := NewActionID(sha, KeyFrames(parts));
  }

  /** Everything a run's L0 context holds fixed. */
  datatype RunEnv = RunEnv(
    snap: Snapshot,
    plan: seq<PlanEntry>,
    filterConfigHash: Digest,
    toolVersion: string,
    buildEnv: string,
    goVersion: string)

  ghost function Parts(sha: Sha, env: RunEnv, id: PackageID): KeyParts
    requires Hashable(env.snap, id)
  {
    var mp := env.snap.graph[id];
    KeyParts(mp.id, mp.pkgPath, SourceHash(sha, env.snap.files, mp), DepHash(sha, env.snap, id),
             AnalyzerSetHash(sha, env.plan), env.filterConfigHash, env.toolVersion, env.buildEnv, env.goVersion)
  }

  /** The key of a package of the graph; None when some file of its closure is unreadable. */
  ghost function KeyOf(sha: Sha, env: RunEnv, id: PackageID): (k: Option<Digest>)
  {
    if Hashable(env.snap, id) then Some(sha(Frames(KeyFrames(Parts(sha, env, id))))) else None
  }

  // ---- what a key stands for ----

  /** The semantic inputs of a key, each in a form free of enumeration order. */
  datatype KeyInputs = KeyInputs(
    id: PackageID,
    pkgPath: string,
    sources: seq<Source>,
    deps: map<PackageID, seq<Source>>,
    analyzers: Option<seq<AnalyzerRow>>,
    filterConfigHash: Digest,
    toolVersion: string,
    buildEnv: string,
    goVersion: string)

  ghost function DepSources(snap: Snapshot, id: PackageID): map<PackageID, seq<Source>>
    requires DepsReadable(snap, id)
  {
    map x | x in Deps(snap, id) :: Sources(snap.files, snap.graph[x])
  }

  function AnalyzerSet(plan: seq<PlanEntry>): Option<seq<AnalyzerRow>>
  {
    if plan == [] then None else Some(Sort(AnalyzerName, PlanRows(plan, {})))
  }

  ghost function Inputs(env: RunEnv, id: PackageID): KeyInputs
    requires Hashable(env.snap, id)
  {
    var mp := env.snap.graph[id];
    KeyInputs(mp.id, mp.pkgPath, Sources(env.snap.files, mp), DepSources(env.snap, id),
              AnalyzerSet(env.plan), env.filterConfigHash, env.toolVersion, env.buildEnv, env.goVersion)
  }

  // ---- the preimages hashed on the way to a key ----

  ghost predicate SourcesCovered(sha: Sha, sources: seq<Source>, u: set<string>)
  {
    && SourcePreimage(sha, sources) in u
    && forall i :: 0 <= i < |sources| ==> sources[i].content in u
  }

  ghost predicate DepsCovered(sha: Sha, snap: Snapshot, id: PackageID, u: set<string>)
    requires DepsReadable(snap, id)
  {
    && RowsBytes(DepRows(sha, snap, id)) in u
    && forall x :: x in Deps(snap, id) ==> SourcesCovered(sha, Sources(snap.files, snap.graph[x]), u)
  }

  ghost function PlanPreimage(plan: seq<PlanEntry>): string
  {
    RowsBytes(Sort(NameOf, Map(RowOfAnalyzer, PlanRows(plan, {}))))
  }

  /** Every preimage hashed while deriving the key of id lies in u. */
  ghost predicate Covered(sha: Sha, env: RunEnv, id: PackageID, u: set<string>)
    requires Hashable(env.snap, id)
  {
    && SourcesCovered(sha, Sources(env.snap.files, env.snap.graph[id]), u)
    && DepsCovered(sha, env.snap, id, u)
    && (env.plan != [] ==> PlanPreimage(env.plan) in u)
    && Frames(KeyFrames(Parts(sha, env, id))) in u
  }

  lemma SourcesSound(sha: Sha, u: set<string>, a: seq<Source>, b: seq<Source>)
    requires CollisionFree(sha, u) && SourcesCovered(sha, a, u) && SourcesCovered(sha, b, u)
    requires sha(SourcePreimage(sha, a)) == sha(SourcePreimage(sha, b))
    ensures a == b
  {
    var ra, rb := Map(RowOfSource(sha), a), Map(RowOfSource(sha), b);
    RowsInjective(ra, rb, 0);
    forall i | 0 <= i < |a| ensures a[i] == b[i] {
      assert ra[i] == rb[i];
    }
  }

  lemma DepRowsSound(sha: Sha, u: set<string>, s: Snapshot, t: Snapshot, id: PackageID)
    requires DepsReadable(s, id) && DepsReadable(t, id) && CollisionFree(sha, u)
    requires RowsBytes(DepRows(sha, s, id)) in u && RowsBytes(DepRows(sha, t, id)) in u
    requires DepHash(sha, s, id) == DepHash(sha, t, id)
    ensures DepRows(sha, s, id) == DepRows(sha, t, id)
  {
    SameHash(sha, u, RowsBytes(DepRows(sha, s, id)), RowsBytes(DepRows(sha, t, id)));
    RowsInjective(DepRows(sha, s, id), DepRows(sha, t, id), 0);
  }

  lemma DepsSound(sha: Sha, u: set<string>, s: Snapshot, t: Snapshot, id: PackageID)
    requires DepsReadable(s, id) && DepsReadable(t, id) && CollisionFree(sha, u)
    requires DepsCovered(sha, s, id, u) && DepsCovered(sha, t, id, u)
    requires DepHash(sha, s, id) == DepHash(sha, t, id)
    ensures DepSources(s, id) == DepSources(t, id)
  {
    DepRowsSound(sha, u, s, t, id);
    forall x | x in Deps(s, id) ensures x in Deps(t, id) && Sources(s.files, s.graph[x]) == Sources(t.files, t.graph[x]) {
      DepSound(sha, u, s, t, id, x);
    }
    forall x | x in Deps(t, id) ensures x in Deps(s, id) {
      DepSound(sha, u, t, s, id, x);
    }
    DepSourcesEqual(s, t, id);
  }

  lemma DepSourcesEqual(s: Snapshot, t: Snapshot, id: PackageID)
    requires DepsReadable(s, id) && DepsReadable(t, id)
    requires forall x :: x in Deps(s, id) ==> x in Deps(t, id) && Sources(s.files, s.graph[x]) == Sources(t.files, t.graph[x])
    requires forall x :: x in Deps(t, id) ==> x in Deps(s, id)
    ensures DepSources(s, id) == DepSources(t, id)
  {
    assert Deps(s, id) == Deps(t, id);
  }

  lemma DepSound(sha: Sha, u: set<string>, s: Snapshot, t: Snapshot, id: PackageID, x: PackageID)
    requires DepsReadable(s, id) && DepsReadable(t, id) && CollisionFree(sha, u)
    requires DepsCovered(sha, s, id, u) && DepsCovered(sha, t, id, u)
    requires DepRows(sha, s, id) == DepRows(sha, t, id) && x in Deps(s, id)
    ensures x in Deps(t, id) && Sources(s.files, s.graph[x]) == Sources(t.files, t.graph[x])
  {
    DepRowsList(sha, s, id);
    DepRowsList(sha, t, id);
    assert Row(x, [], SourceHash(sha, s.files, s.graph[x])) in DepRows(sha, t, id);
    SourcesSound(sha, u, Sources(s.files, s.graph[x]), Sources(t.files, t.graph[x]));
  }

  /** The rows list exactly the dependencies, each with its source hash. */
  lemma DepRowsList(sha: Sha, snap: Snapshot, id: PackageID)
    requires DepsReadable(snap, id)
    ensures forall x :: x in Deps(snap, id) ==> Row(x, [], SourceHash(sha, snap.files, snap.graph[x])) in DepRows(sha, snap, id)
    ensures forall r :: r in DepRows(sha, snap, id) ==>
              r.name in Deps(snap, id) && r.digest == SourceHash(sha, snap.files, snap.graph[r.name])
  {
    var ids := SortedElems(Deps(snap, id));
    forall x | x in Deps(snap, id) ensures Row(x, [], SourceHash(sha, snap.files, snap.graph[x])) in DepRows(sha, snap, id) {
      assert x in ids;
      var i :| 0 <= i < |ids| && ids[i] == x;
      assert DepRows(sha, snap, id)[i] == Row(x, [], SourceHash(sha, snap.files, snap.graph[x]));
    }
  }

  lemma AnalyzerRowsSound(a: seq<AnalyzerRow>, b: seq<AnalyzerRow>)
    requires RowsBytes(Map(RowOfAnalyzer, a)) == RowsBytes(Map(RowOfAnalyzer, b))
    requires |RowsBytes(Map(RowOfAnalyzer, a))| < TWO64
    ensures a == b
  {
    var ra, rb := Map(RowOfAnalyzer, a), Map(RowOfAnalyzer, b);
    RowsInjective(ra, rb, 1);
    forall i | 0 <= i < |a| ensures a[i] == b[i] {
      assert ra[i] == rb[i];
    }
  }

  lemma PlansSound(sha: Sha, u: set<string>, p: seq<PlanEntry>, q: seq<PlanEntry>)
    requires CollisionFree(sha, u)
    requires (p != [] ==> PlanPreimage(p) in u) && (q != [] ==> PlanPreimage(q) in u)
    requires AnalyzerSetHash(sha, p) == AnalyzerSetHash(sha, q)
    ensures AnalyzerSet(p) == AnalyzerSet(q)
  {
    if p != [] && q != [] {
      SortMap(AnalyzerName, NameOf, RowOfAnalyzer, PlanRows(p, {}));
      SortMap(AnalyzerName, NameOf, RowOfAnalyzer, PlanRows(q, {}));
      AnalyzerRowsSound(Sort(AnalyzerName, PlanRows(p, {})), Sort(AnalyzerName, PlanRows(q, {})));
    }
  }

  lemma PartsSound(p: KeyParts, q: KeyParts)
    requires Frames(KeyFrames(p)) == Frames(KeyFrames(q)) && |Frames(KeyFrames(p))| < TWO64
    ensures p == q
  {
    var a, b := KeyFrames(p), KeyFrames(q);
    FramesInjective(a, b);
    assert a[2] == b[2] && a[3] == b[3] && a[4] == b[4] && a[5] == b[5] && a[6] == b[6];
    assert a[7] == b[7] && a[8] == b[8] && a[9] == b[9] && a[10] == b[10];
  }

  /**
   * Key soundness.  Two packages, of any two runs, have the same key exactly when
   * they have the same identity, files, dependency closure with files, analyzer
   * set, filter digest and versions.
   */
  lemma KeySound(sha: Sha, u: set<string>, e: RunEnv, f: RunEnv, x: PackageID, y: PackageID)
    requires CollisionFree(sha, u) && WellKeyed(e.snap.graph) && WellKeyed(f.snap.graph)
    requires Hashable(e.snap, x)
    requires Hashable(f.snap, y)
    requires Covered(sha, e, x, u) && Covered(sha, f, y, u)
    ensures KeyOf(sha, e, x) == KeyOf(sha, f, y) <==> Inputs(e, x) == Inputs(f, y)
  {
    if KeyOf(sha, e, x) == KeyOf(sha, f, y) {
      var p, q := Parts(sha, e, x), Parts(sha, f, y);
      assert Frames(KeyFrames(p)) == Frames(KeyFrames(q));
      PartsSound(p, q);
      assert x == y;
      SourcesSound(sha, u, Sources(e.snap.files, e.snap.graph[x]), Sources(f.snap.files, f.snap.graph[y]));
      DepsSound(sha, u, e.snap, f.snap, x);
      PlansSound(sha, u, e.plan, f.plan);
    }
    if Inputs(e, x) == Inputs(f, y) {
      InputsDecideKey(sha, e, f, x);
    }
  }

  lemma InputsDecideKey(sha: Sha, e: RunEnv, f: RunEnv, id: PackageID)
    requires Hashable(e.snap, id)
    requires Hashable(f.snap, id)
    requires Inputs(e, id) == Inputs(f, id)
    ensures KeyOf(sha, e, id) == KeyOf(sha, f, id)
  {
    DepSourcesDecideHash(sha, e.snap, f.snap, id);
    assert AnalyzerSetHash(sha, e.plan) == AnalyzerSetHash(sha, f.plan) by {
      SortMap(AnalyzerName, NameOf, RowOfAnalyzer, PlanRows(e.plan, {}));
      SortMap(AnalyzerName, NameOf, RowOfAnalyzer, PlanRows(f.plan, {}));
    }
  }

  lemma DepSourcesDecideHash(sha: Sha, s: Snapshot, t: Snapshot, id: PackageID)
    requires DepsReadable(s, id) && DepsReadable(t, id)
    requires DepSources(s, id) == DepSources(t, id)
    ensures DepRows(sha, s, id) == DepRows(sha, t, id)
  {
    DepSourcesKeys(s, id);
    DepSourcesKeys(t, id);
    forall i | 0 <= i < |SortedElems(Deps(s, id))| ensures DepRows(sha, s, id)[i] == DepRows(sha, t, id)[i] {
      SameDepRow(sha, s, t, id, i);
    }
  }

  lemma DepSourcesKeys(s: Snapshot, id: PackageID)
    requires DepsReadable(s, id)
    ensures DepSources(s, id).Keys == Deps(s, id)
  {
  }

  lemma SameDepRow(sha: Sha, s: Snapshot, t: Snapshot, id: PackageID, i: nat)
    requires DepsReadable(s, id) && DepsReadable(t, id) && Deps(s, id) == Deps(t, id)
    requires DepSources(s, id) == DepSources(t, id) && i < |SortedElems(Deps(s, id))|
    ensures DepRows(sha, s, id)[i] == DepRows(sha, t, id)[i]
  {
    var x := SortedElems(Deps(s, id))[i];
    assert x in Deps(s, id);
    assert DepSources(s, id)[x] == DepSources(t, id)[x];
  }

  // ---- enumeration order ----

  /** Base names are unique within a package, as sourceHashOf relies on. */
  ghost predicate DistinctBases(mp: Package)
  {
    forall i, j :: 0 <= i < j < |mp.compiledGoFiles| ==> Base(mp.compiledGoFiles[i]) != Base(mp.compiledGoFiles[j])
  }

  /** Reordering the compiled-file list leaves the hashed listing alone. */
  lemma SourcesOrderFree(files: Files, mp: Package, np: Package)
    requires Readable(files, mp) && Readable(files, np) && DistinctBases(mp)
    requires multiset(mp.compiledGoFiles) == multiset(np.compiledGoFiles)
    ensures Sources(files, mp) == Sources(files, np)
  {
    var f := (p: string) => Source(Base(p), if p in files then files[p] else "");
    assert SourceList(files, mp) == Map(f, mp.compiledGoFiles);
    assert SourceList(files, np) == Map(f, np.compiledGoFiles);
    MapPermutes(f, mp.compiledGoFiles, np.compiledGoFiles);
    SortOrderFree(BaseOf, SourceList(files, mp), SourceList(files, np));
  }

  lemma {:induction false} MapPermutes<A, B>(f: A -> B, a: seq<A>, b: seq<A>)
    requires multiset(a) == multiset(b)
    ensures multiset(Map(f, a)) == multiset(Map(f, b))
  {
    assert |a| == |b| && (a != [] ==> a[0] in b) by { SameElements(a, b); }
    if a != [] {
      var i :| 0 <= i < |b| && b[i] == a[0];
      MapPermutesStep(f, a, b, i);
      assert multiset(a[1..]) == multiset(b[..i] + b[i + 1..]) by { RemoveCommon(a, b, i); }
      MapPermutes(f, a[1..], b[..i] + b[i + 1..]);
    }
  }

  lemma MapPermutesStep<A, B>(f: A -> B, a: seq<A>, b: seq<A>, i: nat)
    requires a != [] && i < |b| && a[0] == b[i]
    ensures multiset(Map(f, a[1..])) == multiset(Map(f, b[..i] + b[i + 1..])) ==>
              multiset(Map(f, a)) == multiset(Map(f, b))
  {
    MapWithout(f, a, 0);
    assert a[..0] + a[1..] == a[1..];
    MapWithout(f, b, i);
  }

  lemma MapWithout<A, B>(f: A -> B, s: seq<A>, i: nat)
    requires i < |s|
    ensures multiset(Map(f, s)) == multiset(Map(f, s[..i] + s[i + 1..])) + multiset{f(s[i])}
  {
    RemoveAt(Map(f, s), i);
    assert Map(f, s)[..i] + Map(f, s)[i + 1..] == Map(f, s[..i] + s[i + 1..]);
  }

  // ---- the memoising context of a run ----

  /** The memo tables only ever hold what a fresh computation would give. */
  ghost predicate SourceMemo(sha: Sha, snap: Snapshot, memo: map<PackageID, Digest>)
  {
    forall id :: id in memo ==>
      && id in snap.graph && Readable(snap.files, snap.graph[id])
      && memo[id] == SourceHash(sha, snap.files, snap.graph[id])
  }

  ghost predicate DepMemo(sha: Sha, snap: Snapshot, memo: map<PackageID, Digest>)
  {
    forall id :: id in memo ==> DepsReadable(snap, id) && memo[id] == DepHash(sha, snap, id)
  }

  /** The base names and content hashes of the first n compiled files, in order. */
  ghost predicate ReadFirst(sha: Sha, files: Files, mp: Package, n: nat, uris: seq<string>, hashes: seq<Digest>)
  {
    && |uris| == |hashes| == n <= |mp.compiledGoFiles|
    && forall j :: 0 <= j < n ==> ReadAs(sha, files, mp.compiledGoFiles[j], uris[j], hashes[j])
  }

  ghost predicate ReadAs(sha: Sha, files: Files, uri: string, name: string, hash: Digest)
  {
    uri in files && name == Base(uri) && hash == sha(files[uri])
  }

  /** The file loop of sourceHashOf. */
  method ReadSources(sha: Sha, files: Files, mp: Package) returns (uris: seq<string>, hashes: seq<Digest>, ok: bool)
    ensures ok <==> Readable(files, mp)
    ensures ok ==> ReadFirst(sha, files, mp, |mp.compiledGoFiles|, uris, hashes)
  {
    uris, hashes := [], [];
    for i := 0 to |mp.compiledGoFiles|
      invariant ReadFirst(sha, files, mp, i, uris, hashes)
    {
      var uri := mp.compiledGoFiles[i];
      if uri !in files { return [], [], false; }
      uris := uris + [Base(uri)];
      hashes := hashes + [sha(files[uri])];
      assert ReadAs(sha, files, uri, uris[i], hashes[i]);
    }
    ok := true;
  }

  lemma SourceRows(sha: Sha, files: Files, mp: Package, uris: seq<string>, hashes: seq<Digest>)
    requires Readable(files, mp) && ReadFirst(sha, files, mp, |mp.compiledGoFiles|, uris, hashes)
    ensures DigestRows(uris, hashes) == Map(RowOfSource(sha), SourceList(files, mp))
  {
  }

  lemma SourceRowsSorted(sha: Sha, files: Files, mp: Package, uris: seq<string>, hashes: seq<Digest>)
    requires Readable(files, mp) && ReadFirst(sha, files, mp, |mp.compiledGoFiles|, uris, hashes)
    ensures sha(RowsBytes(Sort(NameOf, DigestRows(uris, hashes)))) == SourceHash(sha, files, mp)
  {
    SourceRows(sha, files, mp, uris, hashes);
    SortMap(BaseOf, NameOf, RowOfSource(sha), SourceList(files, mp));
  }

  lemma SourceMemoAdd(sha: Sha, snap: Snapshot, memo: map<PackageID, Digest>, id: PackageID, h: Digest)
    requires SourceMemo(sha, snap, memo) && id in snap.graph && Readable(snap.files, snap.graph[id])
    requires h == SourceHash(sha, snap.files, snap.graph[id])
    ensures SourceMemo(sha, snap, memo[id := h])
  {
  }

  class L0Context {
    const sha: Sha
    const env: RunEnv
    var sourceHashCache: map<PackageID, Digest>
    var depHashCache: map<PackageID, Digest>

    constructor (sha: Sha, env: RunEnv)
      requires WellKeyed(env.snap.graph)
      ensures this.sha == sha && this.env == env && Valid()
    {
      this.sha, this.env := sha, env;
      sourceHashCache, depHashCache := map[], map[];
    }

    ghost predicate Valid()
      reads this
    {
      && WellKeyed(env.snap.graph)
      && SourceMemo(sha, env.snap, sourceHashCache)
      && DepMemo(sha, env.snap, depHashCache)
    }

    predicate InGraph(mp: Package)
    {
      mp.id in env.snap.graph && env.snap.graph[mp.id] == mp
    }

    /** sourceHashOf. */
    method SourceHashOf(mp: Package) returns (h: Digest, ok: bool)
      requires Valid() && InGraph(mp)
      modifies this
      ensures Valid() && depHashCache == old(depHashCache)
      ensures ok <==> Readable(env.snap.files, mp)
      ensures ok ==> h == SourceHash(sha, env.snap.files, mp)
    {
      if mp.id in sourceHashCache {
        return sourceHashCache[mp.id], true;
      }
      var uris, hashes, readable := ReadSources(sha, env.snap.files, mp);
      if !readable { return ZERO_DIGEST, false; }
      h := HashFiles(sha, uris, hashes);
      SourceRowsSorted(sha, env.snap.files, mp, uris, hashes);
      SourceMemoAdd(sha, env.snap, sourceHashCache, mp.id, h);
      sourceHashCache := sourceHashCache[mp.id := h];
      ok := true;
    }

    /** The closure loop of depHashOf, over the closure in any order. */
    method ReadDeps(mp: Package, deps: set<PackageID>) returns (ids: seq<string>, hashes: seq<Digest>, ok: bool)
      requires Valid() && deps <= env.snap.graph.Keys
      modifies this
      ensures Valid() && depHashCache == old(depHashCache)
      ensures ok <==> forall x :: x in deps ==> Readable(env.snap.files, env.snap.graph[x])
      ensures ok ==> |ids| == |hashes| && Enumerates(ids, deps)
      ensures ok ==> forall i :: 0 <= i < |ids| ==>
                       ids[i] in deps && hashes[i] == SourceHash(sha, env.snap.files, env.snap.graph[ids[i]])
    {
      ids, hashes := [], [];
      var todo := deps;
      while todo != {}
        invariant Valid() && depHashCache == old(depHashCache)
        invariant todo <= deps
        invariant |ids| == |hashes| && Enumerates(ids, deps - todo)
        invariant forall x :: x in deps - todo ==> Readable(env.snap.files, env.snap.graph[x])
        invariant forall i :: 0 <= i < |ids| ==>
          ids[i] in deps - todo && hashes[i] == SourceHash(sha, env.snap.files, env.snap.graph[ids[i]])
        decreases todo
      {
        var id :| id in todo;
        var src, readable := SourceHashOf(env.snap.graph[id]);
        if !readable { return [], [], false; }
        todo := todo - {id};
        ids := ids + [id];
        hashes := hashes + [src];
      }
      ok := true;
    }

    /**
     * depHashOf.  The closure is inside the graph, so the source's guard for a
     * dependency without metadata never fires and has no counterpart here.
     */
    method DepHashOf(mp: Package) returns (h: Digest, ok: bool)
      requires Valid() && InGraph(mp)
      modifies this
      ensures Valid()
      ensures ok <==> DepsReadable(env.snap, mp.id)
      ensures ok ==> h == DepHash(sha, env.snap, mp.id)
    {
      if mp.id in depHashCache {
        return depHashCache[mp.id], true;
      }
      var walked, closure := ClosureOf(env.snap.graph, mp);
      if !walked { return ZERO_DIGEST, false; }
      var ids, hashes, readable := ReadDeps(mp, closure - {mp.id});
      if !readable { return ZERO_DIGEST, false; }
      h := HashFiles(sha, ids, hashes);
      DepRowsSorted(sha, env.snap, mp.id, ids, hashes);
      depHashCache := depHashCache[mp.id := h];
      ok := true;
    }

    /** keyFor: fails exactly when some file of the closure cannot be read. */
    method KeyFor(mp: Package) returns (key: Digest, ok: bool)
      requires Valid() && InGraph(mp)
      modifies this
      ensures Valid()
      ensures KeyOf(sha, env, mp.id) == if ok then Some(key) else None
    {
      var src, okSrc := SourceHashOf(mp);
      if !okSrc { return ZERO_DIGEST, false; }
      var dep, okDep := DepHashOf(mp);
      if !okDep { return ZERO_DIGEST, false; }
      var analyzerSet := ComputeAnalyzerSetHash(sha, env.plan);
      key := ComputeKey(sha, KeyParts(mp.id, mp.pkgPath, src, dep, analyzerSet, env.filterConfigHash,
                                      env.toolVersion, env.buildEnv, env.goVersion));
      ok := true;
    }
  }

  ghost function RowOfDep(sha: Sha, snap: Snapshot): string -> Row
  {
    (x: string) => Row(x, [],
      if x in snap.graph && Readable(snap.files, snap.graph[x]) then SourceHash(sha, snap.files, snap.graph[x]) else ZERO_DIGEST)
  }

  lemma RowsMapped(sha: Sha, snap: Snapshot, ids: seq<string>)
    requires forall x :: x in ids ==> x in snap.graph && Readable(snap.files, snap.graph[x])
    ensures RowsOf(sha, snap, ids) == Map(RowOfDep(sha, snap), ids)
  {
    var rows := RowsOf(sha, snap, ids);
    forall i | 0 <= i < |ids|
      ensures rows[i] == RowOfDep(sha, snap)(ids[i])
    {
      assert ids[i] in ids;
    }
  }

  lemma ReadRowsMapped(sha: Sha, snap: Snapshot, ids: seq<string>, hashes: seq<Digest>)
    requires |ids| == |hashes| && forall x :: x in ids ==> x in snap.graph && Readable(snap.files, snap.graph[x])
    requires forall i :: 0 <= i < |ids| ==> ids[i] in ids && hashes[i] == SourceHash(sha, snap.files, snap.graph[ids[i]])
    ensures DigestRows(ids, hashes) == Map(RowOfDep(sha, snap), ids)
  {
  }

  /** Whatever order the packages are enumerated in, the sorted rows are the same. */
  lemma RowsSorted(sha: Sha, snap: Snapshot, deps: set<PackageID>, ids: seq<string>, hashes: seq<Digest>)
    requires (forall x :: x in deps ==> x in snap.graph && Readable(snap.files, snap.graph[x])) && |ids| == |hashes| && Enumerates(ids, deps)
    requires forall i :: 0 <= i < |ids| ==> ids[i] in deps && hashes[i] == SourceHash(sha, snap.files, snap.graph[ids[i]])
    ensures Sort(NameOf, DigestRows(ids, hashes)) == RowsOf(sha, snap, SortedElems(deps))
  {
    ReadRowsMapped(sha, snap, ids, hashes);
    SortMap(Self, NameOf, RowOfDep(sha, snap), ids);
    SortedListing(ids, deps);
    RowsMapped(sha, snap, SortedElems(deps));
  }

  lemma DepRowsSorted(sha: Sha, snap: Snapshot, id: PackageID, ids: seq<string>, hashes: seq<Digest>)
    requires DepsReadable(snap, id) && |ids| == |hashes| && Enumerates(ids, Deps(snap, id))
    requires forall i :: 0 <= i < |ids| ==> ids[i] in Deps(snap, id) && hashes[i] == SourceHash(sha, snap.files, snap.graph[ids[i]])
    ensures Sort(NameOf, DigestRows(ids, hashes)) == DepRows(sha, snap, id)
  {
    RowsSorted(sha, snap, Deps(snap, id), ids, hashes);
  }

  // ---- the order of the plan ----

  /** A pointer and a name each tell planned analyzers apart. */
  ghost predicate TellsApart(plan: seq<PlanEntry>)
  {
    forall a, b :: a in plan && b in plan && a.Planned? && b.Planned? && (a.ptr == b.ptr || a.row.name == b.row.name) ==> a == b
  }

  ghost function RowsIn(plan: seq<PlanEntry>, seen: set<nat>): set<AnalyzerRow>
  {
    set e | e in plan && e.Planned? && e.ptr !in seen :: e.row
  }

  lemma {:induction false} PlannedOnce(plan: seq<PlanEntry>, seen: set<nat>)
    requires TellsApart(plan)
    ensures multiset(PlanRows(plan, seen)) == multiset(RowsIn(plan, seen))
    decreases |plan|
  {
    if plan != [] {
      var e, rest := plan[0], plan[1..];
      assert plan == [e] + rest;
      if e.Planned? && e.ptr !in seen {
        PlannedOnce(rest, seen + {e.ptr});
        FirstRow(plan, seen);
      } else {
        PlannedOnce(rest, seen);
        assert RowsIn(plan, seen) == RowsIn(rest, seen);
      }
    }
  }

  lemma FirstRow(plan: seq<PlanEntry>, seen: set<nat>)
    requires TellsApart(plan) && plan != [] && plan[0].Planned? && plan[0].ptr !in seen
    ensures var rest := RowsIn(plan[1..], seen + {plan[0].ptr});
            RowsIn(plan, seen) == {plan[0].row} + rest && plan[0].row !in rest
  {
    var e, later := plan[0], plan[1..];
    assert plan == [e] + later;
    forall x | x in plan && x.Planned? && x.ptr !in seen
      ensures x.row in {e.row} + RowsIn(later, seen + {e.ptr})
    {
      if x.ptr != e.ptr {
        assert x in later;
      }
    }
  }

  /** The analyzers' part of the key depends on which analyzers are planned, not on their order or repetition. */
  lemma PlanOrderFree(p: seq<PlanEntry>, q: seq<PlanEntry>)
    requires TellsApart(p) && (p == [] <==> q == []) && forall e: PlanEntry :: e.Planned? ==> (e in p <==> e in q)
    ensures AnalyzerSet(p) == AnalyzerSet(q)
  {
    PlannedOnce(p, {});
    PlannedOnce(q, {});
    assert RowsIn(p, {}) == RowsIn(q, {});
    var rows := PlanRows(p, {});
    forall x, y | x in rows && y in rows && AnalyzerName(x) == AnalyzerName(y)
      ensures x == y
    {
      assert x in multiset(rows) && y in multiset(rows);
    }
    SortOrderFree(AnalyzerName, rows, PlanRows(q, {}));
  }

  // ---- dependencies without metadata ----

  /** h is g with some dependency entries that lead outside the graph added or removed. */
  ghost predicate DiffersByDangling(g: Graph, h: Graph)
  {
    && g.Keys == h.Keys
    && forall id :: id in g ==>
         && h[id] == g[id].(depsByPkgPath := h[id].depsByPkgPath)
         && forall d :: d in g ==> (d in g[id].depsByPkgPath.Values <==> d in h[id].depsByPkgPath.Values)
  }

  lemma DanglingPath(g: Graph, h: Graph, p: seq<PackageID>)
    requires DiffersByDangling(g, h) && IsPath(Edges(g), p)
    ensures IsPath(Edges(h), p)
  {
    forall i | 0 <= i < |p| - 1 ensures p[i + 1] in Edges(h)[p[i]] {
      assert p[i + 1] in Edges(g)[p[i]] && p[i] in g && p[i + 1] in g;
    }
  }

  lemma DanglingClosure(g: Graph, h: Graph, id: PackageID)
    requires DiffersByDangling(g, h)
    ensures Closure(g, id) <= Closure(h, id)
  {
    forall x | x in Closure(g, id) ensures x in Closure(h, id) {
      var p :| Leads(Edges(g), p, id, x);
      DanglingPath(g, h, p);
      assert Leads(Edges(h), p, id, x);
    }
  }

  /**
   * The comment in depHashOf wants a dependency without metadata to block the
   * key.  It does not: it leaves the key as if the dependency were not there.
   */
  lemma MissingMetadataInvisible(sha: Sha, e: RunEnv, h: Graph, id: PackageID)
    requires DiffersByDangling(e.snap.graph, h)
    ensures KeyOf(sha, e, id) == KeyOf(sha, e.(snap := e.snap.(graph := h)), id)
  {
    var g, t := e.snap.graph, e.snap.(graph := h);
    DanglingClosure(g, h, id);
    DanglingClosure(h, g, id);
    assert Deps(e.snap, id) == Deps(t, id);
    forall x | x in g && Readable(e.snap.files, g[x])
      ensures Readable(e.snap.files, h[x]) && SourceList(e.snap.files, g[x]) == SourceList(e.snap.files, h[x])
    {
      assert h[x] == g[x].(depsByPkgPath := h[x].depsByPkgPath);
    }
    forall x | x in g && Readable(e.snap.files, h[x]) ensures Readable(e.snap.files, g[x]) {
      assert h[x] == g[x].(depsByPkgPath := h[x].depsByPkgPath);
    }
    if Hashable(e.snap, id) {
      DepSourcesEqual(e.snap, t, id);
      InputsDecideKey(sha, e, e.(snap := t), id);
    }
  }
}
