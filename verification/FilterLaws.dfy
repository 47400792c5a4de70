// What the exclusion filter decides, in terms of file names, lines, patterns and
// linter names alone (internal/exclusion).

module FilterLaws {
  import opened Strings
  import opened Paths
  import opened Diagnostics
  import opened Suppression
  import opened Exclusion

  // ---- linter names ----

  /** Checks of the staticcheck family go by their prefix. */
  predicate Staticcheck(name: string)
  {
    |name| >= 2 && name[..2] in {"SA", "ST", "S1", "QF"}
  }

  predicate Govet(h: Host, name: string)
  {
    name in h.govetSubAnalyzers && !Staticcheck(name)
  }

  lemma Prefix2(p: string, name: string)
    requires |p| == 2
    ensures p <= name <==> |name| >= 2 && name[..2] == p
  {
  }

  lemma FamilyExactly(h: Host, name: string, family: string)
    ensures Family(h, name) == Some(family) <==>
            (family == "staticcheck" && Staticcheck(name)) || (family == "govet" && Govet(h, name))
  {
    Prefix2("SA", name);
    Prefix2("ST", name);
    Prefix2("S1", name);
    Prefix2("QF", name);
  }

  /** A selector is the linter itself or the family it belongs to. */
  predicate Selects(h: Host, selector: string, name: string)
  {
    selector == name || (selector == "staticcheck" && Staticcheck(name)) || (selector == "govet" && Govet(h, name))
  }

  lemma SelectedExactly(h: Host, selectors: set<string>, name: string)
    ensures MatchLinterName(h, selectors, name) <==> exists s :: s in selectors && Selects(h, s, name)
  {
    forall s
      ensures Selects(h, s, name) <==> s == name || Family(h, name) == Some(s)
    {
      FamilyExactly(h, name, s);
    }
    if MatchLinterName(h, selectors, name) {
      var s := if name in selectors then name else Family(h, name).value;
      assert s in selectors && Selects(h, s, name);
    }
  }

  // ---- rules ----

  const NO_CONDITION := Rule({}, None, None, None, None)

  function ForLinters(ls: set<string>): Rule { NO_CONDITION.(linters := ls) }

  function ForPath(p: string): Rule { NO_CONDITION.(path := Some(p)) }

  function ForOtherPaths(p: string): Rule { NO_CONDITION.(pathExcept := Some(p)) }

  function ForText(p: string): Rule { NO_CONDITION.(text := Some(p)) }

  /** What a rule with one condition matches. */
  lemma OneCondition(h: Host, ls: set<string>, p: string, d: Diagnostic, rel: string)
    ensures ls != {} ==> (RuleMatches(h, ForLinters(ls), d, rel) <==> exists s :: s in ls && Selects(h, s, d.linter))
    ensures RuleMatches(h, ForPath(p), d, rel) <==> h.matches(p, rel)
    ensures RuleMatches(h, ForOtherPaths(p), d, rel) <==> !h.matches(p, rel)
    ensures RuleMatches(h, ForText(p), d, rel) <==> h.matches(p, d.message)
    ensures !RuleMatches(h, NO_CONDITION, d, rel)
  {
    SelectedExactly(h, ls, d.linter);
  }

  /** A rule matches exactly when all its conditions do, each taken as a rule, and it has no source expression. */
  lemma AllConditions(h: Host, r: Rule, d: Diagnostic, rel: string)
    ensures RuleMatches(h, r, d, rel) <==>
      && r.source.None? && r != NO_CONDITION
      && (r.linters != {} ==> RuleMatches(h, ForLinters(r.linters), d, rel))
      && (r.path.Some? ==> RuleMatches(h, ForPath(r.path.value), d, rel))
      && (r.pathExcept.Some? ==> RuleMatches(h, ForOtherPaths(r.pathExcept.value), d, rel))
      && (r.text.Some? ==> RuleMatches(h, ForText(r.text.value), d, rel))
  {
    assert EmptyRule(r) <==> r == NO_CONDITION;
  }

  /** A path expression and the same one as an exception divide what the rest of the rule matches. */
  lemma ExceptionNegates(h: Host, r: Rule, p: string, d: Diagnostic, rel: string)
    ensures var on := RuleMatches(h, r.(path := Some(p), pathExcept := None), d, rel);
            var off := RuleMatches(h, r.(path := None, pathExcept := Some(p)), d, rel);
            var rest := r.(path := None, pathExcept := None);
            !(on && off) && (on || off <==> rest == NO_CONDITION || RuleMatches(h, rest, d, rel))
  {
  }

  /** more has every condition of r, and perhaps others. */
  predicate Narrows(more: Rule, r: Rule)
  {
    && (r.linters != {} ==> more.linters != {} && more.linters <= r.linters)
    && (r.path.Some? ==> more.path == r.path) && (r.pathExcept.Some? ==> more.pathExcept == r.pathExcept)
    && (r.text.Some? ==> more.text == r.text) && (r.source.Some? ==> more.source == r.source)
  }

  lemma MoreConditionsMatchLess(h: Host, more: Rule, r: Rule, d: Diagnostic, rel: string)
    requires Narrows(more, r) && r != NO_CONDITION && RuleMatches(h, more, d, rel)
    ensures RuleMatches(h, r, d, rel)
  {
  }

  /** A rule for a family covers its members. */
  lemma FamilyCovers(h: Host, r: Rule, family: string, d: Diagnostic, rel: string)
    requires Selects(h, family, d.linter) && RuleMatches(h, r.(linters := {d.linter}), d, rel)
    ensures RuleMatches(h, r.(linters := {family}), d, rel)
  {
    SelectedExactly(h, {family}, d.linter);
    assert family in {family};
  }

  // ---- target directories ----

  predicate Everything(dir: string) { dir == "" || dir == "." }

  lemma RecursiveTarget(dir: string, rel: string)
    ensures InTarget(TargetDir(dir, true), rel) <==> Everything(dir) || rel == dir || exists rest :: rel == dir + "/" + rest
  {
    if dir + "/" <= rel {
      assert rel == dir + "/" + rel[|dir| + 1..];
    }
  }

  lemma {:induction false} JoinAppend(a: seq<string>, b: seq<string>)
    requires a != [] && b != []
    ensures JoinSegs(a + b) == JoinSegs(a) + "/" + JoinSegs(b)
  {
    assert (a + b)[0] == a[0] && (a + b)[1..] == a[1..] + b;
    if |a| > 1 {
      JoinAppend(a[1..], b);
      assert JoinSegs(a + b) == a[0] + "/" + (JoinSegs(a[1..]) + "/" + JoinSegs(b));
    } else {
      assert a[1..] + b == b;
    }
  }

  lemma SplitOnce(x: string, y: string, rest: string)
    requires '/' !in x
    ensures Split(x + "/" + y + "/" + rest) == [x] + Split(y + "/" + rest)
  {
    SplitAtSlash(x, y + "/" + rest);
    assert x + "/" + y + "/" + rest == x + "/" + (y + "/" + rest);
  }

  lemma {:induction false} SplitAfter(a: seq<string>, rest: string)
    requires PlainSegments(a) && a != []
    ensures Split(JoinSegs(a) + "/" + rest) == a + Split(rest)
  {
    if |a| == 1 {
      SplitAtSlash(a[0], rest);
    } else {
      SplitAfter(a[1..], rest);
      SplitOnce(a[0], JoinSegs(a[1..]), rest);
      assert a + Split(rest) == [a[0]] + (a[1..] + Split(rest));
    }
  }

  lemma NotSpecial(segs: seq<string>)
    requires PlainSegments(segs) && segs != []
    ensures !Everything(JoinSegs(segs)) && !IsAbs(JoinSegs(segs))
  {
    assert PlainSegment(segs[0]);
    var j := JoinSegs(segs);
    assert j[0] == segs[0][0] && segs[0][0] in segs[0];
    if |segs| > 1 {
      assert j[|segs[0]|] == '/';
    }
  }

  /** The directory of a file of a clean relative path. */
  lemma RelativeDir(segs: seq<string>, base: string)
    requires PlainSegments(segs) && PlainSegment(base)
    ensures Dir(JoinSegs(segs + [base])) == if segs == [] then "." else JoinSegs(segs)
  {
    var p := JoinSegs(segs + [base]);
    if segs == [] {
      assert segs + [base] == [base] && p == base;
      BareName(base);
    } else {
      JoinSnoc(segs, base);
      AfterLastSlashUnique(JoinSegs(segs), base);
      assert p[..|p| - |base|] == JoinSegs(segs) + "/";
      CleanRelative(segs);
    }
  }

  lemma {:induction false} BareName(s: string)
    requires '/' !in s
    ensures AfterLastSlash(s) == s
  {
    if s != "" {
      assert s[|s| - 1] in s;
      BareName(s[..|s| - 1]);
      assert s == s[..|s| - 1] + [s[|s| - 1]];
    }
  }

  lemma CleanRelative(segs: seq<string>)
    requires PlainSegments(segs) && segs != []
    ensures Clean(JoinSegs(segs) + "/") == JoinSegs(segs)
  {
    NotSpecial(segs);
    SplitTrailing(segs);
    FoldSnocEmpty(false, [], segs);
    assert !IsAbs(JoinSegs(segs) + "/") by { assert JoinSegs(segs) != ""; }
    assert [] + segs == segs;
  }

  /** A flat target holds exactly the files directly in it. */
  lemma FlatTarget(dir: string, segs: seq<string>, base: string)
    requires PlainSegments(segs) && PlainSegment(base)
    ensures InTarget(TargetDir(dir, false), JoinSegs(segs + [base])) <==> Everything(dir) || (segs != [] && dir == JoinSegs(segs))
  {
    RelativeDir(segs, base);
  }

  /** A recursive target covers exactly what the flat targets at or below it cover, and a file of its own name. */
  lemma RecursiveIsFlatBelow(d: seq<string>, segs: seq<string>, base: string)
    requires PlainSegments(d) && d != [] && PlainSegments(segs) && PlainSegment(base)
    ensures var rel := JoinSegs(segs + [base]);
            InTarget(TargetDir(JoinSegs(d), true), rel) <==>
            rel == JoinSegs(d) || exists e :: PlainSegments(e) && d <= e && InTarget(TargetDir(JoinSegs(e), false), rel)
  {
    var rel := JoinSegs(segs + [base]);
    NotSpecial(d);
    RecursiveTarget(JoinSegs(d), rel);
    if rest :| rel == JoinSegs(d) + "/" + rest {
      Below(d, segs, base, rest);
      FlatTarget(JoinSegs(segs), segs, base);
      assert PlainSegments(segs) && d <= segs && InTarget(TargetDir(JoinSegs(segs), false), rel);
    }
    if e :| PlainSegments(e) && d <= e && InTarget(TargetDir(JoinSegs(e), false), rel) {
      Above(d, e, segs, base);
    }
  }

  lemma Below(d: seq<string>, segs: seq<string>, base: string, rest: string)
    requires PlainSegments(d) && d != [] && PlainSegments(segs) && PlainSegment(base)
    requires JoinSegs(segs + [base]) == JoinSegs(d) + "/" + rest
    ensures d <= segs
  {
    SplitJoin(segs + [base]);
    SplitAfter(d, rest);
    assert segs + [base] == d + Split(rest);
    assert segs == (segs + [base])[..|segs|] && d == (d + Split(rest))[..|d|];
  }

  lemma Above(d: seq<string>, e: seq<string>, segs: seq<string>, base: string)
    requires PlainSegments(d) && d != [] && PlainSegments(e) && d <= e && PlainSegments(segs) && PlainSegment(base)
    requires InTarget(TargetDir(JoinSegs(e), false), JoinSegs(segs + [base]))
    ensures exists rest :: JoinSegs(segs + [base]) == JoinSegs(d) + "/" + rest
  {
    OnlyItsOwn(e, segs, base);
    var more := segs[|d|..] + [base];
    assert segs + [base] == d + more;
    JoinAppend(d, more);
    assert JoinSegs(segs + [base]) == JoinSegs(d) + "/" + JoinSegs(more);
  }

  lemma OnlyItsOwn(e: seq<string>, segs: seq<string>, base: string)
    requires PlainSegments(e) && e != [] && PlainSegments(segs) && PlainSegment(base)
    requires InTarget(TargetDir(JoinSegs(e), false), JoinSegs(segs + [base]))
    ensures e == segs
  {
    NotSpecial(e);
    FlatTarget(JoinSegs(e), segs, base);
    SplitJoin(e);
    SplitJoin(segs);
  }

  // ---- nolint ----

  /** The directive names the linter, its family, or nothing. */
  ghost predicate Names(h: Host, listed: seq<string>, name: string)
  {
    listed == [] || exists s :: h.lower(s) in listed && Selects(h, s, name)
  }

  lemma NamesExactly(h: Host, r: IgnoredRange, name: string)
    ensures RangeCoversLinter(h, r, name) <==> Names(h, r.linters, name)
  {
    forall s
      ensures Selects(h, s, name) <==> s == name || Family(h, name) == Some(s)
    {
      FamilyExactly(h, name, s);
    }
    if r.linters != [] && RangeCoversLinter(h, r, name) {
      var i :| 0 <= i < |r.linters| &&
        (r.linters[i] == h.lower(name) || (Family(h, name).Some? && r.linters[i] == h.lower(Family(h, name).value)));
      var s := if r.linters[i] == h.lower(name) then name else Family(h, name).value;
      assert h.lower(s) in r.linters && Selects(h, s, name);
    }
    if r.linters != [] && Names(h, r.linters, name) {
      var s :| h.lower(s) in r.linters && Selects(h, s, name);
      var i :| 0 <= i < |r.linters| && r.linters[i] == h.lower(s);
    }
  }

  function Max(a: int, b: int): int { if a < b then b else a }

  /** The line is one of the directive's own, or of a node that starts right below it in its column. */
  ghost predicate ReachesLine(p: ParsedFile, r: IgnoredRange, line: int)
  {
    || r.fromLine <= line <= r.toLine
    || exists n :: n in p.nodes && n.line == r.toLine + 1 && n.column == r.col && r.fromLine <= line <= Max(r.toLine, n.endLine)
  }

  lemma DirectiveExactly(h: Host, p: ParsedFile, r: IgnoredRange, d: Diagnostic)
    ensures DirectiveHides(h, p, r, d) <==> Names(h, r.linters, d.linter) && ReachesLine(p, r, d.pos.line)
  {
    NamesExactly(h, r, d.linter);
    forall n | n in p.nodes && Expands(r, n)
      ensures RangeHides(h, Stretch(r, n), d) <==>
              Names(h, r.linters, d.linter) && r.fromLine <= d.pos.line <= Max(r.toLine, n.endLine)
    {
      NamesExactly(h, Stretch(r, n), d.linter);
    }
    if n :| n in p.nodes && n.line == r.toLine + 1 && n.column == r.col && r.fromLine <= d.pos.line <= Max(r.toLine, n.endLine) {
      assert Expands(r, n);
    }
  }

  /** A diagnostic is suppressed exactly when some directive of its file names its linter and reaches its line. */
  lemma SuppressedMeaning(h: Host, disk: Files, d: Diagnostic)
    ensures Suppressed(h, disk, d) <==>
      && d.pos.filename != "" && d.pos.line != 0 && d.pos.filename in disk
      && var p := h.parse(disk[d.pos.filename]);
         p.Some? && exists r :: r in p.value.inline && Names(h, r.linters, d.linter) && ReachesLine(p.value, r, d.pos.line)
  {
    SuppressedByDirective(h, disk, d);
    if d.pos.filename in disk && h.parse(disk[d.pos.filename]).Some? {
      var p := h.parse(disk[d.pos.filename]).value;
      forall r | r in p.inline
        ensures DirectiveHides(h, p, r, d) <==> Names(h, r.linters, d.linter) && ReachesLine(p, r, d.pos.line)
      {
        DirectiveExactly(h, p, r, d);
      }
    }
  }

  // ---- the stages of the filter ----

  /** How the filter sees a file name: relative to its base path where that is possible. */
  predicate SeenAs(h: Host, base: string, name: string, rel: string)
  {
    if base == "" || name == "" || name[0] != '/' || h.rel(base, name).None? then rel == name else h.rel(base, name) == Some(rel)
  }

  lemma SeenExactly(h: Host, f: Config, name: string, rel: string)
    ensures SeenAs(h, f.basePath, name, rel) <==> rel == RelativePath(h, f, name)
  {
  }

  ghost predicate VersionSkew(d: Diagnostic)
  {
    d.linter == "noctx" && exists rest :: d.message == "net/http/httptest.NewRequest must not be called" + rest
  }

  lemma SkewExactly(d: Diagnostic)
    ensures LibraryVersionSkew(d) <==> VersionSkew(d)
  {
    var p := "net/http/httptest.NewRequest must not be called";
    if p <= d.message {
      assert d.message == p + d.message[|p|..];
    }
  }

  ghost predicate Outside(targets: seq<TargetDir>, rel: string)
  {
    targets != [] && forall t :: t in targets ==> !InTarget(t, rel)
  }

  ghost predicate SomeMatch(h: Host, patterns: seq<string>, rel: string)
  {
    exists p :: p in patterns && h.matches(p, rel)
  }

  predicate Generated(h: Host, disk: Files, mode: string, name: string)
  {
    mode != "disable" && name != "" && Base(name) != "go.mod" && name in disk && h.generated(disk[name], mode)
  }

  ghost predicate SomeRule(h: Host, rules: seq<Rule>, d: Diagnostic, rel: string)
  {
    exists r :: r in rules && RuleMatches(h, r, d, rel)
  }

  lemma ListsExactly(h: Host, f: Config, d: Diagnostic, rel: string, patterns: seq<string>)
    ensures f.targetDirs != [] && !MatchesTarget(f, rel) <==> Outside(f.targetDirs, rel)
    ensures MatchesAny(h, patterns, rel) <==> SomeMatch(h, patterns, rel)
    ensures (exists i :: 0 <= i < |f.rules| && RuleMatches(h, f.rules[i], d, rel)) <==> SomeRule(h, f.rules, d, rel)
  {
    assert forall i :: 0 <= i < |patterns| ==> patterns[i] in patterns;
    assert forall i :: 0 <= i < |f.targetDirs| ==> f.targetDirs[i] in f.targetDirs;
    assert forall i :: 0 <= i < |f.rules| ==> f.rules[i] in f.rules;
  }

  /** The stages that look at the file alone. */
  ghost predicate FileUnwanted(h: Host, disk: Files, f: Config, name: string, rel: string)
  {
    || Outside(f.targetDirs, rel) || SomeMatch(h, f.pathPatterns, rel)
    || (f.pathExceptPatterns != [] && !SomeMatch(h, f.pathExceptPatterns, rel))
    || Generated(h, disk, f.generatedMode, name)
  }

  /** A diagnostic is dropped exactly when its file, its line, its linter or a rule says so. */
  lemma DropsExactly(h: Host, disk: Files, f: Config, d: Diagnostic, rel: string)
    requires SeenAs(h, f.basePath, d.pos.filename, rel)
    ensures Drops(h, disk, f, d) <==>
      || FileUnwanted(h, disk, f, d.pos.filename, rel)
      || (f.nolint && Suppressed(h, disk, d))
      || d.linter in f.staticcheckDefaultDisabled || VersionSkew(d)
      || SomeRule(h, f.rules, d, rel)
  {
    SeenExactly(h, f, d.pos.filename, rel);
    SkewExactly(d);
    ListsExactly(h, f, d, rel, f.pathPatterns);
    ListsExactly(h, f, d, rel, f.pathExceptPatterns);
  }

  /** A file is excluded exactly when it has a name and one of the file-wide stages drops it. */
  lemma ExcludedExactly(h: Host, disk: Files, f: Config, name: string, rel: string)
    requires SeenAs(h, f.basePath, name, rel)
    ensures ExcludesFile(h, disk, f, name) <==> name != "" && FileUnwanted(h, disk, f, name, rel)
  {
    SeenExactly(h, f, name, rel);
    var d := Diagnostic("", "", "", Position(name, 0, 0), [], [], []);
    ListsExactly(h, f, d, rel, f.pathPatterns);
    ListsExactly(h, f, d, rel, f.pathExceptPatterns);
  }

  /** The same through the filter itself: a file is excluded exactly when the file-wide stages would drop anything in it. */
  lemma ExcludedIsFileWide(h: Host, disk: Files, f: Config, d: Diagnostic)
    requires d.linter != "noctx" && d.pos.filename != ""
    ensures ExcludesFile(h, disk, f, d.pos.filename) <==>
            Drops(h, disk, f.(rules := [], nolint := false, staticcheckDefaultDisabled := {}), d)
  {
    var g := f.(rules := [], nolint := false, staticcheckDefaultDisabled := {});
    var rel := RelativePath(h, f, d.pos.filename);
    SeenExactly(h, f, d.pos.filename, rel);
    SeenExactly(h, g, d.pos.filename, rel);
    ExcludedExactly(h, disk, f, d.pos.filename, rel);
    DropsExactly(h, disk, g, d, rel);
  }

  // ---- built filters ----

  /** What a configuration drops, setting by setting; preset rules count like configured ones. */
  lemma BuiltDropsExactly(h: Host, disk: Files, s: Settings, base: string, targets: seq<TargetDir>, d: Diagnostic, rel: string)
    requires SeenAs(h, base, d.pos.filename, rel)
    ensures Drops(h, disk, NewFilter(Some(s), base, targets), d) <==>
      || Outside(targets, rel) || SomeMatch(h, s.paths, rel)
      || (s.pathsExcept != [] && !SomeMatch(h, s.pathsExcept, rel))
      || Generated(h, disk, if s.generated == "" then "strict" else s.generated, d.pos.filename)
      || Suppressed(h, disk, d) || d.linter in s.disabledChecks || VersionSkew(d)
      || SomeRule(h, s.rules, d, rel) || SomeRule(h, s.presetRules, d, rel)
  {
    DropsExactly(h, disk, NewFilter(Some(s), base, targets), d, rel);
    assert forall r :: r in s.rules + s.presetRules <==> r in s.rules || r in s.presetRules;
  }

  /** Without a configuration only the targets, generated files, nolint and version skew count. */
  lemma DefaultDropsExactly(h: Host, disk: Files, base: string, targets: seq<TargetDir>, d: Diagnostic, rel: string)
    requires SeenAs(h, base, d.pos.filename, rel)
    ensures Drops(h, disk, NewFilter(None, base, targets), d) <==>
      || Outside(targets, rel) || Generated(h, disk, "strict", d.pos.filename) || Suppressed(h, disk, d) || VersionSkew(d)
  {
    DropsExactly(h, disk, NewFilter(None, base, targets), d, rel);
  }

  // ---- lists ----

  /** A filter with every stage off. */
  function Idle(base: string): Config
  {
    Config(base, [], [], [], "disable", {}, [], false, false)
  }

  /**
   * What Apply returns: in order, undropped diagnostics only; all of them without
   * uniq-by-line; with it, the first of each file and line.  The idle filter keeps
   * findings of version skew too.
   */
  lemma AppliedExactly(h: Host, disk: Files, f: Config, ds: seq<Diagnostic>) returns (ks: seq<nat>)
    ensures Picks(ds, ks, ApplySpec(h, disk, Some(f), ds))
    ensures forall k :: k in ks ==> k < |ds| && (!Drops(h, disk, f, ds[k]) || (f == Idle(f.basePath) && VersionSkew(ds[k])))
    ensures f.uniqByLine ==> forall j, k :: j in ks && k in ks && j < k && k < |ds| ==> !SameLine(ds[j], ds[k])
    ensures forall i :: 0 <= i < |ds| && !Drops(h, disk, f, ds[i]) ==> if f.uniqByLine then AnsweredFor(ds, ks, i) else i in ks
    ensures f == Idle(f.basePath) ==> |ks| == |ds|
  {
    if BatchNoOp(f) {
      ks := seq(|ds|, i => i);
      forall d | d in ds && Drops(h, disk, f, d)
        ensures VersionSkew(d)
      {
        SkewExactly(d);
      }
    } else {
      ks := KeptExactly(DropFn(h, disk, f), f.uniqByLine, ds, {});
    }
  }

  /** A finding is reported exactly when it is not dropped and, under uniq-by-line, no earlier undropped one has its file and line. */
  lemma AppliedMeans(h: Host, disk: Files, f: Config, ds: seq<Diagnostic>, d: Diagnostic)
    ensures d in ApplySpec(h, disk, Some(f), ds) <==>
            exists i :: 0 <= i < |ds| && ds[i] == d && (f == Idle(f.basePath) || FirstOfLine(DropFn(h, disk, f), f.uniqByLine, ds, i))
  {
    KeptMeans(DropFn(h, disk, f), f.uniqByLine, ds, d);
  }
}
