// Portable file names (internal/canonicalpath, internal/engine/canonicalize.go,
// internal/output/canonicalize.go): absolute paths become
// <import path>/<base name> for the cache, and are resolved back for printing.

module Filenames {
  import opened Strings
  import opened Paths
  import opened DepClosure
  import opened Diagnostics

  // ---- one name ----

  /** canonicalpath.Canonicalize. */
  function Canonicalize(absPath: string, pkgPath: string): string
  {
    if absPath == "" then ""
    else if pkgPath == "" then absPath
    else pkgPath + "/" + Base(absPath)
  }

  /** canonicalizeName. */
  function CanonicalName(uriPkg: map<string, string>, name: string): string
  {
    if name == "" then ""
    else if name !in uriPkg || uriPkg[name] == "" then name
    else Canonicalize(name, uriPkg[name])
  }

  /** Resolver.Resolve. */
  function Resolve(pkgDirs: map<string, string>, canonical: string): string
  {
    if canonical == "" then ""
    else if pkgDirs == map[] then canonical
    else
      var base := AfterLastSlash(canonical);
      var idx := |canonical| - |base| - 1;
      if idx <= 0 then canonical
      else if canonical[..idx] in pkgDirs then Join(pkgDirs[canonical[..idx]], base)
      else canonical
  }

  // ---- the two maps, each filled in its own order ----

  /** The directory pkgDirsFor takes from a package. */
  function SourceDir(mp: Package): Option<string>
  {
    if mp.compiledGoFiles != [] then Some(Dir(mp.compiledGoFiles[0]))
    else if mp.goFiles != [] then Some(Dir(mp.goFiles[0]))
    else None
  }

  predicate Owns(mp: Package, file: string)
  {
    mp.pkgPath != "" && file in mp.compiledGoFiles
  }

  /** m names, for every owned file, the path of some owner. */
  ghost predicate IsUriPkgPath(pkgs: Graph, m: map<string, string>)
  {
    && (forall u :: u in m ==> exists id :: id in pkgs && Owns(pkgs[id], u) && m[u] == pkgs[id].pkgPath)
    && (forall id, u :: id in pkgs && Owns(pkgs[id], u) ==> u in m)
  }

  ghost predicate HasDir(mp: Package, path: string, dir: string)
  {
    mp.pkgPath == path && path != "" && SourceDir(mp) == Some(dir)
  }

  /** m gives, for every package path with files, the directory of some package of that path. */
  ghost predicate IsPkgDirs(pkgs: Graph, m: map<string, string>)
  {
    && (forall k :: k in m ==> exists id :: id in pkgs && HasDir(pkgs[id], k, m[k]))
    && (forall id :: id in pkgs && pkgs[id].pkgPath != "" && SourceDir(pkgs[id]).Some? ==> pkgs[id].pkgPath in m)
  }

  /** uriPkgPathMap, over the packages in any order; first write wins. */
  method UriPkgPathMap(pkgs: Graph) returns (out: map<string, string>)
    ensures IsUriPkgPath(pkgs, out)
  {
    out := map[];
    var todo := pkgs.Keys;
    while todo != {}
      invariant todo <= pkgs.Keys
      invariant forall u :: u in out ==> exists id :: id in pkgs && Owns(pkgs[id], u) && out[u] == pkgs[id].pkgPath
      invariant forall id, u :: id in pkgs && id !in todo && Owns(pkgs[id], u) ==> u in out
      decreases todo
    {
      var id :| id in todo;
      todo := todo - {id};
      var mp := pkgs[id];
      if mp.pkgPath == "" { continue; }
      ghost var before := out;
      for i := 0 to |mp.compiledGoFiles|
        invariant before.Keys <= out.Keys
        invariant forall u :: u in out ==> exists id :: id in pkgs && Owns(pkgs[id], u) && out[u] == pkgs[id].pkgPath
        invariant forall j :: 0 <= j < i ==> mp.compiledGoFiles[j] in out
      {
        var uri := mp.compiledGoFiles[i];
        assert Owns(mp, uri);
        if uri !in out { out := out[uri := mp.pkgPath]; }
      }
    }
  }

  /** pkgDirsFor, over the packages in any order; first write wins. */
  method PkgDirsFor(pkgs: Graph) returns (out: map<string, string>)
    ensures IsPkgDirs(pkgs, out)
  {
    out := map[];
    var todo := pkgs.Keys;
    while todo != {}
      invariant todo <= pkgs.Keys
      invariant forall k :: k in out ==> exists id :: id in pkgs && HasDir(pkgs[id], k, out[k])
      invariant forall id :: id in pkgs && id !in todo && pkgs[id].pkgPath != "" && SourceDir(pkgs[id]).Some? ==>
                  pkgs[id].pkgPath in out
      decreases todo
    {
      var id :| id in todo;
      todo := todo - {id};
      var mp := pkgs[id];
      if mp.pkgPath == "" || mp.pkgPath in out { continue; }
      if |mp.compiledGoFiles| > 0 {
        assert HasDir(mp, mp.pkgPath, Dir(mp.compiledGoFiles[0]));
        out := out[mp.pkgPath := Dir(mp.compiledGoFiles[0])];
        continue;
      }
      if |mp.goFiles| > 0 {
        assert HasDir(mp, mp.pkgPath, Dir(mp.goFiles[0]));
        out := out[mp.pkgPath := Dir(mp.goFiles[0])];
      }
    }
  }

  // ---- absolute clean paths ----

  /** name is an absolute, clean path with at least one segment. */
  ghost predicate CleanFile(name: string)
  {
    exists segs :: PlainSegments(segs) && segs != [] && name == AbsPath(segs)
  }

  ghost predicate CleanDir(dir: string)
  {
    exists segs :: PlainSegments(segs) && dir == AbsPath(segs)
  }

  /** The path of a file in a clean directory. */
  function InDir(dir: string, base: string): string
  {
    if dir == "/" then "/" + base else dir + "/" + base
  }

  lemma AbsSnoc(segs: seq<string>, last: string)
    requires PlainSegments(segs) && PlainSegment(last)
    ensures AbsPath(segs + [last]) == InDir(AbsPath(segs), last)
  {
    if segs == [] {
      assert segs + [last] == [last];
    } else {
      JoinSnoc(segs, last);
      NonEmptyJoin(segs);
    }
  }

  lemma NonEmptyJoin(segs: seq<string>)
    requires PlainSegments(segs) && segs != []
    ensures JoinSegs(segs) != ""
  {
    assert segs[0] != "";
  }

  /** Base and Dir take a clean file path apart, and Join puts it back together. */
  lemma CleanParts(segs: seq<string>, last: string)
    requires PlainSegments(segs) && PlainSegment(last)
    ensures var p := AbsPath(segs + [last]); Base(p) == last && Dir(p) == AbsPath(segs)
    ensures Join(AbsPath(segs), last) == AbsPath(segs + [last])
  {
    var p := AbsPath(segs + [last]);
    AbsSnoc(segs, last);
    var pre := if segs == [] then "" else AbsPath(segs);
    assert p == pre + "/" + last;
    AfterLastSlashUnique(pre, last);
    assert p[|p| - 1] == last[|last| - 1];
    assert TrimSlashes(p) == p;
    assert p[..|p| - |last|] == pre + "/";
    CleanDirSlash(segs);
    if segs == [] { assert pre + "/" == "/" == AbsPath(segs); }
    JoinClean(segs, last);
  }

  lemma JoinClean(segs: seq<string>, last: string)
    requires PlainSegments(segs) && PlainSegment(last)
    ensures Join(AbsPath(segs), last) == AbsPath(segs + [last])
  {
    AbsSnoc(segs, last);
    CleanDirSlash(segs + [last]);
    if segs == [] {
      var q := "/" + "/" + last;
      assert AbsPath(segs) + "/" + last == q;
      assert q == "" + "/" + ("/" + last) && "/" + last == "" + "/" + last;
      SplitAtSlash("", "/" + last);
      SplitAtSlash("", last);
      SplitPlain(last);
      assert Split(q) == [""] + ([""] + [last]);
      FoldEmpties(last);
      assert JoinSegs([last]) == last;
    }
  }

  lemma FoldEmpties(last: string)
    requires PlainSegment(last)
    ensures Fold(true, [], [""] + ([""] + [last])) == [last]
  {
    var s := [""] + ([""] + [last]);
    assert s[1..] == [""] + [last] && ([""] + [last])[1..] == [last] && [last][1..] == [];
    assert Fold(true, [], s) == Fold(true, [], [""] + [last]);
    assert Fold(true, [], [""] + [last]) == Fold(true, [], [last]);
    assert Fold(true, [], [last]) == Fold(true, [last], []);
  }

  // ---- the round trip of one name ----

  lemma InDirInjective(d: string, e: string, base: string)
    requires CleanDir(d) && CleanDir(e) && InDir(d, base) == InDir(e, base)
    ensures d == e
  {
    var l, r := InDir(d, base), InDir(e, base);
    assert d[0] == '/' && e[0] == '/' && |l| == |r|;
    if d != "/" && e != "/" {
      assert |d| == |e|;
      assert l[..|d|] == d && r[..|e|] == e;
    }
  }

  /** A clean file path is its directory and its base name. */
  lemma CleanFileParts(name: string)
    requires CleanFile(name)
    ensures CleanDir(Dir(name)) && PlainSegment(Base(name)) && name == InDir(Dir(name), Base(name))
  {
    var segs :| PlainSegments(segs) && segs != [] && name == AbsPath(segs);
    var pre, last := segs[..|segs| - 1], segs[|segs| - 1];
    assert segs == pre + [last];
    CleanParts(pre, last);
    AbsSnoc(pre, last);
  }

  lemma JoinInDir(dir: string, base: string)
    requires CleanDir(dir) && PlainSegment(base)
    ensures Join(dir, base) == InDir(dir, base)
  {
    var segs :| PlainSegments(segs) && dir == AbsPath(segs);
    JoinClean(segs, base);
    AbsSnoc(segs, base);
  }

  lemma ResolveLooksUp(pkgDirs: map<string, string>, pkgPath: string, base: string)
    requires pkgPath != "" && '/' !in base && pkgPath in pkgDirs
    ensures Resolve(pkgDirs, pkgPath + "/" + base) == Join(pkgDirs[pkgPath], base)
  {
    var canonical := pkgPath + "/" + base;
    AfterLastSlashUnique(pkgPath, base);
    assert |canonical| - |base| - 1 == |pkgPath|;
    assert canonical[..|pkgPath|] == pkgPath;
  }

  /** Resolving a portable name gives the file back exactly when the recorded directory is the file's. */
  lemma ResolveExactly(pkgDirs: map<string, string>, pkgPath: string, name: string)
    requires CleanFile(name) && pkgPath != "" && pkgPath in pkgDirs && CleanDir(pkgDirs[pkgPath])
    ensures Resolve(pkgDirs, Canonicalize(name, pkgPath)) == name <==> pkgDirs[pkgPath] == Dir(name)
  {
    var dir, base := Dir(name), Base(name);
    CleanFileParts(name);
    assert Canonicalize(name, pkgPath) == pkgPath + "/" + base;
    ResolveLooksUp(pkgDirs, pkgPath, base);
    JoinInDir(pkgDirs[pkgPath], base);
    if InDir(pkgDirs[pkgPath], base) == InDir(dir, base) {
      InDirInjective(pkgDirs[pkgPath], dir, base);
    }
  }

  /** All compiled files of the packages sharing a path lie in the directory recorded for it. */
  ghost predicate OneDirectory(pkgs: Graph)
  {
    forall i, j, u |
      i in pkgs && j in pkgs && pkgs[i].pkgPath == pkgs[j].pkgPath && Owns(pkgs[i], u) && SourceDir(pkgs[j]).Some? ::
      SourceDir(pkgs[j]).value == Dir(u)
  }

  /** Compiled files are clean absolute paths, and import paths never start with a slash. */
  ghost predicate PlainLayout(pkgs: Graph)
  {
    && (forall id, u :: id in pkgs && u in pkgs[id].compiledGoFiles ==> CleanFile(u))
    && (forall id :: id in pkgs && pkgs[id].pkgPath != "" ==> pkgs[id].pkgPath[0] != '/')
  }

  lemma OwnedNameReturns(pkgs: Graph, uriPkg: map<string, string>, pkgDirs: map<string, string>, name: string)
    requires IsUriPkgPath(pkgs, uriPkg) && IsPkgDirs(pkgs, pkgDirs)
    requires OneDirectory(pkgs) && PlainLayout(pkgs) && name in uriPkg
    ensures Resolve(pkgDirs, CanonicalName(uriPkg, name)) == name
  {
    var i :| i in pkgs && Owns(pkgs[i], name) && uriPkg[name] == pkgs[i].pkgPath;
    var path := pkgs[i].pkgPath;
    assert SourceDir(pkgs[i]).Some? && path in pkgDirs;
    var j :| j in pkgs && HasDir(pkgs[j], path, pkgDirs[path]);
    assert pkgDirs[path] == Dir(name);
    assert CleanFile(name);
    CleanFileParts(name);
    ResolveExactly(pkgDirs, path, name);
  }

  lemma UnownedNameReturns(pkgs: Graph, uriPkg: map<string, string>, pkgDirs: map<string, string>, name: string)
    requires IsPkgDirs(pkgs, pkgDirs) && PlainLayout(pkgs)
    requires name !in uriPkg && (name == "" || IsAbs(name))
    ensures Resolve(pkgDirs, CanonicalName(uriPkg, name)) == name
  {
    if name != "" && pkgDirs != map[] {
      var idx := |name| - |AfterLastSlash(name)| - 1;
      forall p | p in pkgDirs
        ensures p == "" || p[0] != '/'
      {
        var j :| j in pkgs && HasDir(pkgs[j], p, pkgDirs[p]);
      }
      assert idx > 0 ==> name[..idx][0] == '/';
    }
  }

  // ---- whole diagnostics ----

  function RenamePos(p: Position, f: string -> string): Position
  {
    p.(filename := f(p.filename))
  }

  function RenameRelated(rs: seq<RelatedInformation>, f: string -> string): (r: seq<RelatedInformation>)
    ensures |r| == |rs|
    ensures forall i :: 0 <= i < |rs| ==> r[i] == rs[i].(position := RenamePos(rs[i].position, f))
  {
    seq(|rs|, i requires 0 <= i < |rs| => rs[i].(position := RenamePos(rs[i].position, f)))
  }

  function RenameEdits(es: seq<TextEdit>, f: string -> string): (r: seq<TextEdit>)
    ensures |r| == |es|
    ensures forall i :: 0 <= i < |es| ==> r[i] == es[i].(start := RenamePos(es[i].start, f), end := RenamePos(es[i].end, f))
  {
    seq(|es|, i requires 0 <= i < |es| => es[i].(start := RenamePos(es[i].start, f), end := RenamePos(es[i].end, f)))
  }

  function RenameFixes(fs: seq<SuggestedFix>, f: string -> string): (r: seq<SuggestedFix>)
    ensures |r| == |fs|
    ensures forall i :: 0 <= i < |fs| ==> r[i] == fs[i].(textEdits := RenameEdits(fs[i].textEdits, f))
  {
    seq(|fs|, i requires 0 <= i < |fs| => fs[i].(textEdits := RenameEdits(fs[i].textEdits, f)))
  }

  /** Every filename of a diagnostic, rewritten. */
  function Rename(d: Diagnostic, f: string -> string): Diagnostic
  {
    d.(pos := RenamePos(d.pos, f), related := RenameRelated(d.related, f), suggestedFixes := RenameFixes(d.suggestedFixes, f))
  }

  // ---- position by position ----

  /** q is p with its file name changed by f. */
  predicate PosRenamed(p: Position, q: Position, f: string -> string)
  {
    q.filename == f(p.filename) && q.line == p.line && q.column == p.column
  }

  predicate EditRenamed(e: TextEdit, g: TextEdit, f: string -> string)
  {
    PosRenamed(e.start, g.start, f) && PosRenamed(e.end, g.end, f) && g.newText == e.newText
  }

  /** e is d with the file name of every position changed by f, and nothing else changed. */
  ghost predicate RenamedBy(d: Diagnostic, e: Diagnostic, f: string -> string)
  {
    && e.linter == d.linter && e.message == d.message && e.severity == d.severity && e.sourceLines == d.sourceLines
    && PosRenamed(d.pos, e.pos, f)
    && |e.related| == |d.related|
    && (forall i :: 0 <= i < |d.related| ==>
          PosRenamed(d.related[i].position, e.related[i].position, f) && e.related[i].message == d.related[i].message)
    && |e.suggestedFixes| == |d.suggestedFixes|
    && (forall j :: 0 <= j < |d.suggestedFixes| ==>
          && e.suggestedFixes[j].message == d.suggestedFixes[j].message
          && |e.suggestedFixes[j].textEdits| == |d.suggestedFixes[j].textEdits|)
    && (forall j, k :: 0 <= j < |d.suggestedFixes| && 0 <= k < |d.suggestedFixes[j].textEdits| ==>
          EditRenamed(d.suggestedFixes[j].textEdits[k], e.suggestedFixes[j].textEdits[k], f))
  }

  ghost predicate RenamedList(ds: seq<Diagnostic>, es: seq<Diagnostic>, f: string -> string)
  {
    |ds| == |es| && forall i :: 0 <= i < |ds| ==> RenamedBy(ds[i], es[i], f)
  }

  /** That leaves one diagnostic only. */
  lemma RenamedExactly(d: Diagnostic, e: Diagnostic, f: string -> string)
    ensures RenamedBy(d, e, f) <==> e == Rename(d, f)
  {
    var r := Rename(d, f);
    RenameRenames(d, f);
    if RenamedBy(d, e, f) {
      assert e.related == r.related;
      forall j | 0 <= j < |d.suggestedFixes|
        ensures e.suggestedFixes[j] == r.suggestedFixes[j]
      {
        assert e.suggestedFixes[j].textEdits == r.suggestedFixes[j].textEdits;
      }
      assert e.suggestedFixes == r.suggestedFixes;
    }
  }

  lemma RenameRenames(d: Diagnostic, f: string -> string)
    ensures RenamedBy(d, Rename(d, f), f)
  {
  }

  /** m is the portable form of the file n of one of the packages: its package path, a slash and its base name. */
  ghost predicate PortableForm(pkgs: Graph, n: string, m: string)
  {
    exists id, pre, base ::
      && id in pkgs && pkgs[id].pkgPath != "" && n in pkgs[id].compiledGoFiles
      && '/' !in base && n == pre + "/" + base && m == pkgs[id].pkgPath + "/" + base
  }

  /** Owned files get their portable form. */
  lemma OwnedIsPortable(pkgs: Graph, uriPkg: map<string, string>, n: string)
    requires IsUriPkgPath(pkgs, uriPkg) && PlainLayout(pkgs) && n in uriPkg
    ensures PortableForm(pkgs, n, CanonicalName(uriPkg, n))
  {
    var id :| id in pkgs && Owns(pkgs[id], n) && uriPkg[n] == pkgs[id].pkgPath;
    assert CleanFile(n);
    var pre := FileParts(n);
    assert '/' !in Base(n) && n == pre + "/" + Base(n) && CanonicalName(uriPkg, n) == pkgs[id].pkgPath + "/" + Base(n);
  }

  lemma FileParts(n: string) returns (pre: string)
    requires CleanFile(n)
    ensures n != "" && '/' !in Base(n) && n == pre + "/" + Base(n)
  {
    CleanFileParts(n);
    pre := if Dir(n) == "/" then "" else Dir(n);
  }

  /** Wherever a name occurs in d and in e, the pair of them is good. */
  ghost predicate EveryPair(d: Diagnostic, e: Diagnostic, good: (string, string) -> bool)
    requires |e.related| == |d.related| && |e.suggestedFixes| == |d.suggestedFixes|
    requires forall j :: 0 <= j < |d.suggestedFixes| ==> |e.suggestedFixes[j].textEdits| == |d.suggestedFixes[j].textEdits|
  {
    && good(d.pos.filename, e.pos.filename)
    && (forall i :: 0 <= i < |d.related| ==> good(d.related[i].position.filename, e.related[i].position.filename))
    && (forall j, k :: 0 <= j < |d.suggestedFixes| && 0 <= k < |d.suggestedFixes[j].textEdits| ==>
          && good(d.suggestedFixes[j].textEdits[k].start.filename, e.suggestedFixes[j].textEdits[k].start.filename)
          && good(d.suggestedFixes[j].textEdits[k].end.filename, e.suggestedFixes[j].textEdits[k].end.filename))
  }

  /** After canonicalisation every name of an owned file, wherever it stands, has its portable form; other names stay. */
  lemma CanonicalEverywhere(pkgs: Graph, uriPkg: map<string, string>, d: Diagnostic, e: Diagnostic)
    requires IsUriPkgPath(pkgs, uriPkg) && PlainLayout(pkgs) && RenamedBy(d, e, CanonicalFn(uriPkg))
    ensures EveryPair(d, e, (n, m) => if exists id :: id in pkgs && Owns(pkgs[id], n) then PortableForm(pkgs, n, m) else m == n)
  {
    forall n: string
      ensures if exists id :: id in pkgs && Owns(pkgs[id], n) then PortableForm(pkgs, n, CanonicalFn(uriPkg)(n)) else CanonicalFn(uriPkg)(n) == n
    {
      if n in uriPkg {
        OwnedIsPortable(pkgs, uriPkg, n);
      }
    }
  }

  function CanonicalFn(uriPkg: map<string, string>): string -> string
  {
    (name: string) => CanonicalName(uriPkg, name)
  }

  function ResolveFn(pkgDirs: map<string, string>): string -> string
  {
    (name: string) => Resolve(pkgDirs, name)
  }

  /** good holds of every filename the diagnostic mentions. */
  ghost predicate EveryName(d: Diagnostic, good: string -> bool)
  {
    && good(d.pos.filename)
    && (forall i :: 0 <= i < |d.related| ==> good(d.related[i].position.filename))
    && (forall j, k :: 0 <= j < |d.suggestedFixes| && 0 <= k < |d.suggestedFixes[j].textEdits| ==>
          good(d.suggestedFixes[j].textEdits[k].start.filename) && good(d.suggestedFixes[j].textEdits[k].end.filename))
  }

  /** Renaming there and back restores a diagnostic whose every name returns. */
  lemma RenameBack(d: Diagnostic, f: string -> string, g: string -> string)
    requires EveryName(d, n => g(f(n)) == n)
    ensures Rename(Rename(d, f), g) == d
  {
    assert RenameRelated(RenameRelated(d.related, f), g) == d.related;
    var twice := RenameFixes(RenameFixes(d.suggestedFixes, f), g);
    forall j | 0 <= j < |d.suggestedFixes| ensures twice[j] == d.suggestedFixes[j] {
      var es := d.suggestedFixes[j].textEdits;
      assert RenameEdits(RenameEdits(es, f), g) == es;
    }
    assert twice == d.suggestedFixes;
  }

  /** Two renamings that agree on a diagnostic's names give the same diagnostic. */
  lemma RenameSame(d: Diagnostic, f: string -> string, g: string -> string)
    requires EveryName(d, n => f(n) == g(n))
    ensures Rename(d, f) == Rename(d, g)
  {
    assert RenameRelated(d.related, f) == RenameRelated(d.related, g);
    forall j | 0 <= j < |d.suggestedFixes| ensures RenameFixes(d.suggestedFixes, f)[j] == RenameFixes(d.suggestedFixes, g)[j] {
      assert RenameEdits(d.suggestedFixes[j].textEdits, f) == RenameEdits(d.suggestedFixes[j].textEdits, g);
    }
  }

  /**
   * The filename round trip: whatever order the two maps were filled in, every
   * primary, related and edit filename comes back.
   */
  lemma FilenamesReturn(pkgs: Graph, uriPkg: map<string, string>, pkgDirs: map<string, string>, d: Diagnostic)
    requires IsUriPkgPath(pkgs, uriPkg) && IsPkgDirs(pkgs, pkgDirs)
    requires OneDirectory(pkgs) && PlainLayout(pkgs)
    requires EveryName(d, n => n in uriPkg || n == "" || IsAbs(n))
    ensures Rename(Rename(d, CanonicalFn(uriPkg)), ResolveFn(pkgDirs)) == d
  {
    forall n | n in uriPkg || n == "" || IsAbs(n) ensures ResolveFn(pkgDirs)(CanonicalFn(uriPkg)(n)) == n {
      if n in uriPkg { OwnedNameReturns(pkgs, uriPkg, pkgDirs, n); } else { UnownedNameReturns(pkgs, uriPkg, pkgDirs, n); }
    }
    RenameBack(d, CanonicalFn(uriPkg), ResolveFn(pkgDirs));
  }

  /** A package path whose files lie in two directories does not survive: the second file is misplaced. */
  lemma TwoDirectoriesMisplace(pkgDirs: map<string, string>, pkgPath: string, first: string, second: string)
    requires CleanFile(first) && CleanFile(second) && Dir(first) != Dir(second)
    requires pkgPath != "" && pkgPath in pkgDirs && pkgDirs[pkgPath] == Dir(first)
    ensures Resolve(pkgDirs, Canonicalize(second, pkgPath)) != second
  {
    CleanFileParts(first);
    ResolveExactly(pkgDirs, pkgPath, second);
  }

  // ---- the in-place rewriting loops ----

  method RenameRelatedLoop(rs: seq<RelatedInformation>, f: string -> string) returns (out: seq<RelatedInformation>)
    ensures out == RenameRelated(rs, f)
  {
    out := rs;
    for j := 0 to |rs|
      invariant |out| == |rs|
      invariant forall k :: 0 <= k < |rs| ==> out[k] == if k < j then RenameRelated(rs, f)[k] else rs[k]
    {
      out := out[j := out[j].(position := RenamePos(out[j].position, f))];
    }
  }

  method RenameEditsLoop(es: seq<TextEdit>, f: string -> string) returns (out: seq<TextEdit>)
    ensures out == RenameEdits(es, f)
  {
    out := es;
    for k := 0 to |es|
      invariant |out| == |es|
      invariant forall m :: 0 <= m < |es| ==> out[m] == if m < k then RenameEdits(es, f)[m] else es[m]
    {
      out := out[k := out[k].(start := RenamePos(out[k].start, f))];
      out := out[k := out[k].(end := RenamePos(out[k].end, f))];
    }
  }

  method RenameFixesLoop(fs: seq<SuggestedFix>, f: string -> string) returns (out: seq<SuggestedFix>)
    ensures out == RenameFixes(fs, f)
  {
    out := fs;
    for j := 0 to |fs|
      invariant |out| == |fs|
      invariant forall m :: 0 <= m < |fs| ==> out[m] == if m < j then RenameFixes(fs, f)[m] else fs[m]
    {
      var edits := RenameEditsLoop(out[j].textEdits, f);
      out := out[j := out[j].(textEdits := edits)];
    }
  }

  /** The loops of canonicalizeDiagnostics and ResolveDiagnostics, which differ only in f. */
  method RenameAll(diags: array<Diagnostic>, f: string -> string)
    modifies diags
    ensures forall i :: 0 <= i < diags.Length ==> diags[i] == Rename(old(diags[i]), f)
    ensures RenamedList(old(diags[..]), diags[..], f)
  {
    for i := 0 to diags.Length
      invariant forall k :: 0 <= k < i ==> diags[k] == Rename(old(diags[k]), f)
      invariant forall k :: i <= k < diags.Length ==> diags[k] == old(diags[k])
    {
      var d := diags[i];
      var related := RenameRelatedLoop(d.related, f);
      var fixes := RenameFixesLoop(d.suggestedFixes, f);
      diags[i] := d.(pos := RenamePos(d.pos, f), related := related, suggestedFixes := fixes);
    }
    forall i | 0 <= i < diags.Length
      ensures RenamedBy(old(diags[i]), diags[i], f)
    {
      RenameRenames(old(diags[i]), f);
    }
  }

  /** Canonicalise for the cache, then resolve for printing, in place: nothing changes. */
  method CanonicalizeThenResolve(pkgs: Graph, diags: array<Diagnostic>)
    requires OneDirectory(pkgs) && PlainLayout(pkgs)
    requires forall i :: 0 <= i < diags.Length ==>
      EveryName(diags[i], n => (exists id :: id in pkgs && Owns(pkgs[id], n)) || n == "" || IsAbs(n))
    modifies diags
    ensures diags[..] == old(diags[..])
  {
    var uriPkg := UriPkgPathMap(pkgs);
    var pkgDirs := PkgDirsFor(pkgs);
    forall i | 0 <= i < diags.Length ensures Rename(Rename(diags[i], CanonicalFn(uriPkg)), ResolveFn(pkgDirs)) == diags[i] {
      FilenamesReturn(pkgs, uriPkg, pkgDirs, diags[i]);
    }
    RenameAll(diags, CanonicalFn(uriPkg));
    RenameAll(diags, ResolveFn(pkgDirs));
  }
}
