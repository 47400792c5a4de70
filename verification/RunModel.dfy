// What an in-process run is, and the hypotheses under which its cache is meant
// to be invisible.

module RunModel {
  import opened Strings
  import opened Framing
  import opened Paths
  import opened DepClosure
  import opened L0Keys
  import opened KeyLaws
  import opened Diagnostics
  import opened Suppression
  import opened Exclusion
  import opened FilterTokens
  import opened FilterDigest
  import opened Filenames
  import opened Gathering

  /**
   * What never changes between runs: the hash, the host libraries, the analyzer
   * driver, and the module-relative path of each file of a package.
   */
  datatype World = World(
    sha: Sha,
    host: Host,
    analyze: (RunEnv, PackageID) -> seq<Diagnostic>,
    rel: (PackageID, string) -> string)

  /**
   * One run: the loaded workspace packages, the snapshot with its settings, the
   * filter, and the portable name of each file.  Runs may lie in different
   * checkouts, so base paths and absolute file names may differ between them.
   */
  datatype RunInput = RunInput(ws: Graph, env: RunEnv, filter: Option<Config>, portable: string -> string)

  // ---- the packages of a run ----

  ghost predicate HasTestVariant(ws: Graph, path: string)
  {
    exists id :: id in ws && ws[id].forTest != "" && ws[id].forTest == ws[id].pkgPath && ws[id].pkgPath == path
  }

  /** dropTestSupersededPackages: plain variants go where an in-package test variant exists. */
  ghost function Unsuperseded(ws: Graph): Graph
  {
    map id | id in ws && !(ws[id].forTest == "" && HasTestVariant(ws, ws[id].pkgPath)) :: ws[id]
  }

  ghost function Pkgs(run: RunInput): Graph { Unsuperseded(run.ws) }

  function DiskOf(run: RunInput): Files { run.env.snap.files }

  /** pruneExcludedRoots. */
  ghost function Roots(w: World, run: RunInput): set<PackageID>
  {
    set id | id in Pkgs(run) && !ExcludesAll(w.host, DiskOf(run), run.filter, Pkgs(run)[id].compiledGoFiles)
  }

  ghost function Key(w: World, run: RunInput, id: PackageID): Option<Digest>
  {
    KeyOf(w.sha, run.env, id)
  }

  // ---- what a package contributes ----

  function RenameList(ds: seq<Diagnostic>, f: string -> string): (r: seq<Diagnostic>)
    ensures |r| == |ds| && forall i :: 0 <= i < |ds| ==> r[i] == Rename(ds[i], f)
  {
    seq(|ds|, i requires 0 <= i < |ds| => Rename(ds[i], f))
  }

  /** The package's own diagnostics, filtered and with portable names. */
  function Result(w: World, run: RunInput, id: PackageID): seq<Diagnostic>
  {
    RenameList(ApplySpec(w.host, DiskOf(run), run.filter, w.analyze(run.env, id)), run.portable)
  }

  function ResultFn(w: World, run: RunInput): PackageID -> seq<Diagnostic>
  {
    (id: PackageID) => Result(w, run, id)
  }

  /** The diagnostics of the run with the cache disabled. */
  ghost function Uncached(w: World, run: RunInput): multiset<Diagnostic>
  {
    Gather(Roots(w, run), ResultFn(w, run))
  }

  // ---- hypotheses ----

  /**
   * A package's diagnostics, with portable names, depend on its own files, those of
   * the packages it needs, the analyzers and the versions.
   */
  ghost predicate AnalyzerLocal(w: World)
  {
    forall r: RunInput, t: RunInput, id | Located(w, r) && Located(w, t) && id in Pkgs(r) && id in Pkgs(t)
      && Pkgs(r)[id].pkgPath == Pkgs(t)[id].pkgPath && Derivable(r.env, id) && Derivable(t.env, id) && SameCode(r.env, t.env, id) ::
      RenameList(w.analyze(r.env, id), r.portable) == RenameList(w.analyze(t.env, id), t.portable)
  }

  ghost predicate DisjointFiles(pkgs: Graph)
  {
    forall i, j, u | i in pkgs && j in pkgs && u in pkgs[i].compiledGoFiles && u in pkgs[j].compiledGoFiles :: i == j
  }

  /** Every diagnostic of a package lies in one of its own compiled files. */
  ghost predicate OwnFilesOnly(w: World, run: RunInput)
  {
    forall id, d :: id in Pkgs(run) && d in w.analyze(run.env, id) ==> d.pos.filename in Pkgs(run)[id].compiledGoFiles
  }

  /** The portable names are those the run gives to the files its findings mention. */
  ghost predicate NamedPortably(w: World, run: RunInput)
  {
    forall m, id, d :: IsUriPkgPath(Pkgs(run), m) && id in Pkgs(run) && d in w.analyze(run.env, id) ==>
      EveryName(d, n => CanonicalName(m, n) == run.portable(n))
  }

  /** Within a package a base name names one file. */
  ghost predicate BasesApart(mp: Package)
  {
    forall i, j | 0 <= i < |mp.compiledGoFiles| && 0 <= j < |mp.compiledGoFiles|
      && Base(mp.compiledGoFiles[i]) == Base(mp.compiledGoFiles[j]) ::
      mp.compiledGoFiles[i] == mp.compiledGoFiles[j]
  }

  /** Seen from the module root, every file lies where it lies in every other run. */
  ghost predicate LaidOut(w: World, run: RunInput)
  {
    && (forall id :: id in Pkgs(run) ==> BasesApart(Pkgs(run)[id]))
    && (run.filter.Some? ==> forall id, file :: id in Pkgs(run) && file in Pkgs(run)[id].compiledGoFiles ==>
          RelativePath(w.host, run.filter.value, file) == w.rel(id, Base(file)))
  }

  /** What a run must say about its files. */
  ghost predicate Located(w: World, run: RunInput)
  {
    && DisjointFiles(Pkgs(run)) && OwnFilesOnly(w, run)
    && NamedPortably(w, run) && LaidOut(w, run)
  }

  ghost predicate GoodFilter(w: World, u: set<string>, run: RunInput)
  {
    && run.env.filterConfigHash == ConfigHash(w.sha, run.filter)
    && (run.filter.Some? ==>
          && Accepted(w.host.compiles, run.filter.value) && NilFree(run.filter.value)
          && Unambiguous(w.host.compiles, run.filter.value) && Frames(Tokens(run.filter.value)) in u)
  }

  ghost predicate GoodGraph(w: World, u: set<string>, run: RunInput)
  {
    && WellKeyed(run.env.snap.graph) && "" !in run.ws
    && (forall id :: id in run.ws ==> id in run.env.snap.graph && run.env.snap.graph[id] == run.ws[id])
    && (forall id :: Hashable(run.env.snap, id) ==> Covered(w.sha, run.env, id, u))
  }

  /** A run the theorem speaks about; u holds every preimage hashed in the history. */
  ghost predicate Admissible(w: World, u: set<string>, run: RunInput)
  {
    GoodGraph(w, u, run) && GoodFilter(w, u, run) && Located(w, run)
  }

  // ---- equal keys, equal results ----

  /** Two diagnostics that differ in where their file lies, not in what it is. */
  ghost predicate Alike(h: Host, a: Files, f: Config, d: Diagnostic, b: Files, g: Config, e: Diagnostic)
  {
    && d.linter == e.linter && d.message == e.message && d.pos.line == e.pos.line
    && (d.pos.filename == "" <==> e.pos.filename == "") && Base(d.pos.filename) == Base(e.pos.filename)
    && RelativePath(h, f, d.pos.filename) == RelativePath(h, g, e.pos.filename)
    && d.pos.filename in a && e.pos.filename in b && a[d.pos.filename] == b[e.pos.filename]
  }

  /** A decision reads the relative path and the contents of the diagnostic's own file. */
  lemma DropsAlike(h: Host, a: Files, f: Config, d: Diagnostic, b: Files, g: Config, e: Diagnostic)
    requires g == f.(basePath := g.basePath) && Alike(h, a, f, d, b, g, e)
    ensures Drops(h, a, f, d) == Drops(h, b, g, e)
  {
    SuppressedAlike(h, a, d, b, e);
    RulesAlike(h, f.rules, d, e, RelativePath(h, f, d.pos.filename));
    MatchesAlike(h, f, g, RelativePath(h, f, d.pos.filename));
  }

  lemma SuppressedAlike(h: Host, a: Files, d: Diagnostic, b: Files, e: Diagnostic)
    requires d.linter == e.linter && d.pos.line == e.pos.line && (d.pos.filename == "" <==> e.pos.filename == "")
    requires d.pos.filename in a && e.pos.filename in b && a[d.pos.filename] == b[e.pos.filename]
    ensures Suppressed(h, a, d) == Suppressed(h, b, e)
  {
    var rs := Ranges(h, a, d.pos.filename);
    assert rs == Ranges(h, b, e.pos.filename);
    assert forall i :: 0 <= i < |rs| ==> RangeHides(h, rs[i], d) == RangeHides(h, rs[i], e);
  }

  lemma RulesAlike(h: Host, rules: seq<Rule>, d: Diagnostic, e: Diagnostic, rel: string)
    requires d.linter == e.linter && d.message == e.message
    ensures (exists i :: 0 <= i < |rules| && RuleMatches(h, rules[i], d, rel)) == (exists i :: 0 <= i < |rules| && RuleMatches(h, rules[i], e, rel))
  {
    assert forall i :: 0 <= i < |rules| ==> RuleMatches(h, rules[i], d, rel) == RuleMatches(h, rules[i], e, rel);
  }

  lemma MatchesAlike(h: Host, f: Config, g: Config, rel: string)
    requires g == f.(basePath := g.basePath)
    ensures MatchesTarget(f, rel) == MatchesTarget(g, rel)
    ensures MatchesAny(h, f.pathPatterns, rel) == MatchesAny(h, g.pathPatterns, rel)
    ensures MatchesAny(h, f.pathExceptPatterns, rel) == MatchesAny(h, g.pathExceptPatterns, rel)
  {
  }

  lemma ApplyAlike(h: Host, a: Files, f: Config, ds: seq<Diagnostic>, b: Files, g: Config, es: seq<Diagnostic>,
                   p: string -> string, q: string -> string)
    requires g == f.(basePath := g.basePath) && RenameList(ds, p) == RenameList(es, q) && |ds| == |es|
    requires forall i :: 0 <= i < |ds| ==> Alike(h, a, f, ds[i], b, g, es[i])
    requires forall i, j :: 0 <= i < |ds| && 0 <= j < |ds| ==>
               (ds[i].pos.filename == ds[j].pos.filename <==> es[i].pos.filename == es[j].pos.filename)
    ensures RenameList(ApplySpec(h, a, Some(f), ds), p) == RenameList(ApplySpec(h, b, Some(g), es), q)
  {
    forall i | 0 <= i < |ds|
      ensures DropFn(h, a, f)(ds[i]) == DropFn(h, b, g)(es[i])
    {
      DropsAlike(h, a, f, ds[i], b, g, es[i]);
    }
    KeepParallel(DropFn(h, a, f), DropFn(h, b, g), f.uniqByLine, ds, es, {}, {}, p, q);
  }

  /** Decisions that agree position by position keep the same positions. */
  lemma {:induction false} KeepParallel(f: Diagnostic -> bool, g: Diagnostic -> bool, uniq: bool,
                                        ds: seq<Diagnostic>, es: seq<Diagnostic>, s: set<FileLine>, t: set<FileLine>,
                                        p: string -> string, q: string -> string)
    requires |ds| == |es| && RenameList(ds, p) == RenameList(es, q)
    requires forall i :: 0 <= i < |ds| ==> f(ds[i]) == g(es[i]) && (LineOf(ds[i]) in s <==> LineOf(es[i]) in t)
    requires forall i, j :: 0 <= i < |ds| && 0 <= j < |ds| ==> (LineOf(ds[i]) == LineOf(ds[j]) <==> LineOf(es[i]) == LineOf(es[j]))
    ensures RenameList(Keep(f, uniq, ds, s).out, p) == RenameList(Keep(g, uniq, es, t).out, q)
    decreases |ds|
  {
    if ds != [] {
      RenameTail(ds, es, p, q);
      if f(ds[0]) || (uniq && LineOf(ds[0]) in s) {
        KeepParallel(f, g, uniq, ds[1..], es[1..], s, t, p, q);
      } else {
        var s', t' := if uniq then s + {LineOf(ds[0])} else s, if uniq then t + {LineOf(es[0])} else t;
        KeepParallel(f, g, uniq, ds[1..], es[1..], s', t', p, q);
        RenameCons(ds[0], Keep(f, uniq, ds[1..], s').out, p);
        RenameCons(es[0], Keep(g, uniq, es[1..], t').out, q);
      }
    }
  }

  lemma RenameTail(ds: seq<Diagnostic>, es: seq<Diagnostic>, p: string -> string, q: string -> string)
    requires ds != [] && |ds| == |es| && RenameList(ds, p) == RenameList(es, q)
    ensures Rename(ds[0], p) == Rename(es[0], q) && RenameList(ds[1..], p) == RenameList(es[1..], q)
  {
    assert Rename(ds[0], p) == RenameList(ds, p)[0] && Rename(es[0], q) == RenameList(es, q)[0];
    assert RenameList(ds[1..], p) == RenameList(ds, p)[1..];
    assert RenameList(es[1..], q) == RenameList(es, q)[1..];
  }

  lemma RenameCons(d: Diagnostic, ds: seq<Diagnostic>, p: string -> string)
    ensures RenameList([d] + ds, p) == [Rename(d, p)] + RenameList(ds, p)
  {
  }

  // ---- files across checkouts ----

  ghost function OwnedFiles(pkgs: Graph): set<string>
  {
    set id, u | id in pkgs.Keys && u in pkgs[id].compiledGoFiles && Owns(pkgs[id], u) :: u
  }

  lemma UriMapExists(pkgs: Graph) returns (m: map<string, string>)
    ensures IsUriPkgPath(pkgs, m)
  {
    m := map u | u in OwnedFiles(pkgs) :: OwnerPath(pkgs, u);
  }

  ghost function OwnerPath(pkgs: Graph, u: string): string
    requires u in OwnedFiles(pkgs)
  {
    var id :| id in pkgs && Owns(pkgs[id], u);
    pkgs[id].pkgPath
  }

  /** The portable name of a finding's file is made of the package path and the base name. */
  lemma PortableOf(w: World, run: RunInput, id: PackageID, d: Diagnostic)
    requires Located(w, run) && id in Pkgs(run) && d in w.analyze(run.env, id)
    ensures run.portable(d.pos.filename) == Canonicalize(d.pos.filename, Pkgs(run)[id].pkgPath)
  {
    var m := UriMapExists(Pkgs(run));
    var file := d.pos.filename;
    assert CanonicalName(m, file) == run.portable(file);
    assert file in Pkgs(run)[id].compiledGoFiles;
    if file in m {
      var x :| x in Pkgs(run) && Owns(Pkgs(run)[x], file) && m[file] == Pkgs(run)[x].pkgPath;
      assert x == id;
    }
  }

  lemma SamePortableSameBase(a: string, b: string, path: string)
    requires Canonicalize(a, path) == Canonicalize(b, path)
    ensures Base(a) == Base(b) && (a == "" <==> b == "")
  {
    if a != "" && b != "" && path != "" {
      var prefix := path + "/";
      assert (prefix + Base(a))[|prefix|..] == Base(a) && (prefix + Base(b))[|prefix|..] == Base(b);
    }
  }

  /** A file of a package, found through its listing in another run. */
  lemma SameBaseSameContents(r: Files, mp: Package, file: string, t: Files, np: Package, other: string)
    requires Readable(r, mp) && Readable(t, np) && Sources(r, mp) == Sources(t, np) && BasesApart(np)
    requires file in mp.compiledGoFiles && other in np.compiledGoFiles && Base(file) == Base(other)
    ensures file in r && other in t && r[file] == t[other]
  {
    var i :| 0 <= i < |mp.compiledGoFiles| && mp.compiledGoFiles[i] == file;
    var k :| 0 <= k < |np.compiledGoFiles| && np.compiledGoFiles[k] == other;
    var s := Source(Base(file), r[file]);
    assert SourceList(r, mp)[i] == s;
    assert s in multiset(SourceList(t, np));
    var j :| 0 <= j < |SourceList(t, np)| && SourceList(t, np)[j] == s;
    assert Base(np.compiledGoFiles[j]) == Base(np.compiledGoFiles[k]);
  }

  /** What two runs with the same inputs find, position by position. */
  lemma FindingsAlike(w: World, r: RunInput, t: RunInput, id: PackageID, f: Config, g: Config, d: Diagnostic, e: Diagnostic)
    requires Located(w, r) && Located(w, t) && id in Pkgs(r) && id in Pkgs(t)
    requires r.filter == Some(f) && t.filter == Some(g) && Pkgs(r)[id].pkgPath == Pkgs(t)[id].pkgPath
    requires Readable(DiskOf(r), Pkgs(r)[id]) && Readable(DiskOf(t), Pkgs(t)[id])
    requires Sources(DiskOf(r), Pkgs(r)[id]) == Sources(DiskOf(t), Pkgs(t)[id])
    requires d in w.analyze(r.env, id) && e in w.analyze(t.env, id) && Rename(d, r.portable) == Rename(e, t.portable)
    ensures Alike(w.host, DiskOf(r), f, d, DiskOf(t), g, e)
  {
    SameName(d, r.portable, e, t.portable);
    PortableOf(w, r, id, d);
    PortableOf(w, t, id, e);
    SamePortableSameBase(d.pos.filename, e.pos.filename, Pkgs(r)[id].pkgPath);
    SameBaseSameContents(DiskOf(r), Pkgs(r)[id], d.pos.filename, DiskOf(t), Pkgs(t)[id], e.pos.filename);
  }

  lemma SameName(d: Diagnostic, p: string -> string, e: Diagnostic, q: string -> string)
    requires Rename(d, p) == Rename(e, q)
    ensures p(d.pos.filename) == q(e.pos.filename)
    ensures d.linter == e.linter && d.message == e.message && d.pos.line == e.pos.line
  {
    var x, y := Rename(d, p), Rename(e, q);
    assert x.linter == y.linter && x.message == y.message && x.pos == y.pos;
  }

  /** Within one run, findings of a package lie in the same file exactly when its base name is the same. */
  lemma FilesByBase(w: World, run: RunInput, id: PackageID, d: Diagnostic, e: Diagnostic)
    requires Located(w, run) && id in Pkgs(run) && d in w.analyze(run.env, id) && e in w.analyze(run.env, id)
    ensures d.pos.filename == e.pos.filename <==> Base(d.pos.filename) == Base(e.pos.filename)
  {
    assert BasesApart(Pkgs(run)[id]);
  }

  lemma SameInputsSameResult(w: World, r: RunInput, t: RunInput, id: PackageID)
    requires Located(w, r) && Located(w, t) && id in Pkgs(r) && id in Pkgs(t)
    requires Readable(DiskOf(r), Pkgs(r)[id]) && Readable(DiskOf(t), Pkgs(t)[id])
    requires Sources(DiskOf(r), Pkgs(r)[id]) == Sources(DiskOf(t), Pkgs(t)[id])
    requires Pkgs(r)[id].pkgPath == Pkgs(t)[id].pkgPath && r.filter.Some? == t.filter.Some?
    requires r.filter.Some? ==> t.filter.value == r.filter.value.(basePath := t.filter.value.basePath)
    requires RenameList(w.analyze(r.env, id), r.portable) == RenameList(w.analyze(t.env, id), t.portable)
    ensures Result(w, r, id) == Result(w, t, id)
  {
    var ds, es := w.analyze(r.env, id), w.analyze(t.env, id);
    if r.filter.Some? {
      var f, g := r.filter.value, t.filter.value;
      assert |ds| == |RenameList(ds, r.portable)| == |es|;
      forall i | 0 <= i < |ds|
        ensures Alike(w.host, DiskOf(r), f, ds[i], DiskOf(t), g, es[i])
      {
        assert Rename(ds[i], r.portable) == RenameList(ds, r.portable)[i] == RenameList(es, t.portable)[i] == Rename(es[i], t.portable);
        FindingsAlike(w, r, t, id, f, g, ds[i], es[i]);
      }
      forall i, j | 0 <= i < |ds| && 0 <= j < |ds|
        ensures ds[i].pos.filename == ds[j].pos.filename <==> es[i].pos.filename == es[j].pos.filename
      {
        FilesByBase(w, r, id, ds[i], ds[j]);
        FilesByBase(w, t, id, es[i], es[j]);
      }
      ApplyAlike(w.host, DiskOf(r), f, ds, DiskOf(t), g, es, r.portable, t.portable);
    }
  }

  /** Packages of two runs with the same key are the same package with the same result, in any two checkouts. */
  lemma SameKeySameResult(w: World, u: set<string>, r: RunInput, t: RunInput, x: PackageID, y: PackageID)
    requires CollisionFree(w.sha, u) && AnalyzerLocal(w) && Admissible(w, u, r) && Admissible(w, u, t)
    requires Key(w, r, x).Some? && Key(w, r, x) == Key(w, t, y)
    ensures x == y
    ensures x in Pkgs(r) && x in Pkgs(t) ==> Result(w, r, x) == Result(w, t, x)
  {
    KeySound(w.sha, u, r.env, t.env, x, y);
    KeyMeaning(w.sha, u, r.env, t.env, x, y);
    HashableExactly(r.env, x);
    HashableExactly(t.env, y);
    DigestSound(w.host.compiles, w.sha, u, r.filter, t.filter);
    if x in Pkgs(r) && x in Pkgs(t) {
      SameInputsSameResult(w, r, t, x);
    }
  }

  // ---- pruning ----

  /** A pruned package contributes nothing, under uniq-by-line too. */
  lemma PrunedContributesNothing(w: World, run: RunInput, id: PackageID)
    requires OwnFilesOnly(w, run) && id in Pkgs(run) && id !in Roots(w, run)
    ensures Result(w, run, id) == []
  {
    var f, ds := run.filter.value, w.analyze(run.env, id);
    forall d | d in ds ensures Drops(w.host, DiskOf(run), f, d) {
      var i :| 0 <= i < |Pkgs(run)[id].compiledGoFiles| && Pkgs(run)[id].compiledGoFiles[i] == d.pos.filename;
      ExcludedFileDropsAll(w.host, DiskOf(run), f, d);
    }
    KeepSubset(DropFn(w.host, DiskOf(run), f), f.uniqByLine, ds, {});
    var kept := Keep(DropFn(w.host, DiskOf(run), f), f.uniqByLine, ds, {}).out;
    HeadIn(kept);
  }

  /** Root pruning is invisible: analysing every package gives the same diagnostics. */
  lemma PruningInvisible(w: World, run: RunInput)
    requires OwnFilesOnly(w, run)
    ensures Uncached(w, run) == Gather(Pkgs(run).Keys, ResultFn(w, run))
  {
    var pruned := Pkgs(run).Keys - Roots(w, run);
    assert Pkgs(run).Keys == Roots(w, run) + pruned;
    GatherUnion(Roots(w, run), pruned, ResultFn(w, run));
    forall id | id in pruned ensures ResultFn(w, run)(id) == [] {
      PrunedContributesNothing(w, run, id);
    }
    GatherEmpty(pruned, ResultFn(w, run));
  }
}
