// The exclusion filter's decisions (internal/exclusion): what one configuration
// says about one diagnostic or one file.

module Exclusion {
  import opened Strings
  import opened Paths
  import opened Diagnostics
  import opened Suppression

  // ---- the parts of the host the filter consults ----

  /** One nolint window; an empty linter list covers every linter. */
  datatype IgnoredRange = IgnoredRange(fromLine: int, toLine: int, col: int, linters: seq<string>)

  /** Where an AST node starts and the line it ends on. */
  datatype NodeSpan = NodeSpan(line: int, column: int, endLine: int)

  /** A parsed file: its inline nolint ranges and its nodes in visiting order. */
  datatype ParsedFile = ParsedFile(inline: seq<IgnoredRange>, nodes: seq<NodeSpan>)

  /**
   * Library behaviour the filter relies on: regexp syntax and matching, filepath.Rel, the
   * generated-file markers and the Go parser as functions of file contents,
   * strings.ToLower, and the table of govet sub-analyzers.
   */
  datatype Host = Host(
    compiles: string -> bool,
    matches: (string, string) -> bool,
    rel: (string, string) -> Option<string>,
    generated: (string, string) -> bool,
    parse: string -> Option<ParsedFile>,
    lower: string -> string,
    govetSubAnalyzers: set<string>)

  // ---- configuration ----

  datatype Rule = Rule(
    linters: set<string>,
    path: Option<string>,
    pathExcept: Option<string>,
    text: Option<string>,
    source: Option<string>)

  datatype TargetDir = TargetDir(dir: string, recursive: bool)

  /** The compiled filter; a regular expression is identified by its pattern. */
  datatype Config = Config(
    basePath: string,
    pathPatterns: seq<string>,
    pathExceptPatterns: seq<string>,
    rules: seq<Rule>,
    generatedMode: string,
    staticcheckDefaultDisabled: set<string>,
    targetDirs: seq<TargetDir>,
    uniqByLine: bool,
    nolint: bool)

  const MODE_DISABLE := "disable"
  const MODE_STRICT := "strict"

  /** The exclusions block of the configuration file, its rules compiled. */
  datatype Settings = Settings(
    paths: seq<string>,
    pathsExcept: seq<string>,
    rules: seq<Rule>,
    presetRules: seq<Rule>,
    generated: string,
    disabledChecks: set<string>)

  /** NewFilter. */
  function NewFilter(cfg: Option<Settings>, basePath: string, targets: seq<TargetDir>): (f: Config)
    ensures f.generatedMode != "" && f.nolint
  {
    match cfg
    case None => Config(basePath, [], [], [], MODE_STRICT, {}, targets, false, true)
    case Some(s) =>
      Config(basePath, s.paths, s.pathsExcept, s.rules + s.presetRules,
             if s.generated == "" then MODE_STRICT else s.generated,
             s.disabledChecks, targets, true, true)
  }

  // ---- decisions ----

  function RelativePath(h: Host, f: Config, name: string): string
  {
    if f.basePath == "" || !IsAbs(name) then name
    else match h.rel(f.basePath, name)
      case None => name
      case Some(r) => r
  }

  predicate InTarget(t: TargetDir, rel: string)
  {
    || t.dir == "" || t.dir == "."
    || (if t.recursive then rel == t.dir || t.dir + "/" <= rel else Dir(rel) == t.dir)
  }

  predicate MatchesTarget(f: Config, rel: string)
  {
    exists i :: 0 <= i < |f.targetDirs| && InTarget(f.targetDirs[i], rel)
  }

  predicate MatchesAny(h: Host, patterns: seq<string>, rel: string)
  {
    exists i :: 0 <= i < |patterns| && h.matches(patterns[i], rel)
  }

  function Family(h: Host, name: string): Option<string>
  {
    if "SA" <= name || "ST" <= name || "S1" <= name || "QF" <= name then Some("staticcheck")
    else if name in h.govetSubAnalyzers then Some("govet")
    else None
  }

  predicate MatchLinterName(h: Host, selectors: set<string>, linter: string)
  {
    linter in selectors || (Family(h, linter).Some? && Family(h, linter).value in selectors)
  }

  predicate EmptyRule(r: Rule)
  {
    r.linters == {} && r.path.None? && r.pathExcept.None? && r.text.None? && r.source.None?
  }

  /** compiledRule.match; a rule with a source pattern never fires. */
  predicate RuleMatches(h: Host, r: Rule, d: Diagnostic, rel: string)
  {
    && !EmptyRule(r)
    && (r.linters != {} ==> MatchLinterName(h, r.linters, d.linter))
    && (r.path.Some? ==> h.matches(r.path.value, rel))
    && (r.pathExcept.Some? ==> !h.matches(r.pathExcept.value, rel))
    && (r.text.Some? ==> h.matches(r.text.value, d.message))
    && r.source.None?
  }

  const SKEW_PREFIX := "net/http/httptest.NewRequest must not be called"

  predicate LibraryVersionSkew(d: Diagnostic)
  {
    d.linter == "noctx" && SKEW_PREFIX <= d.message
  }

  /** detectGenerated: unreadable and unparsable files count as not generated. */
  predicate DetectGenerated(h: Host, disk: Files, path: string, mode: string)
  {
    mode != MODE_DISABLE && path in disk && h.generated(disk[path], mode)
  }

  predicate IsGenerated(h: Host, disk: Files, path: string, mode: string)
  {
    path != "" && Base(path) != "go.mod" && DetectGenerated(h, disk, path, mode)
  }

  // ---- nolint ----

  predicate Expands(r: IgnoredRange, n: NodeSpan)
  {
    r.toLine == n.line - 1 && r.col == n.column
  }

  function Stretch(r: IgnoredRange, n: NodeSpan): IgnoredRange
  {
    if r.toLine < n.endLine then r.(toLine := n.endLine) else r
  }

  predicate RangeCoversLinter(h: Host, r: IgnoredRange, name: string)
  {
    || r.linters == []
    || exists i :: 0 <= i < |r.linters| &&
         (r.linters[i] == h.lower(name)
          || (Family(h, name).Some? && r.linters[i] == h.lower(Family(h, name).value)))
  }

  predicate RangeHides(h: Host, r: IgnoredRange, d: Diagnostic)
  {
    r.fromLine <= d.pos.line <= r.toLine && RangeCoversLinter(h, r, d.linter)
  }

  /**
   * What a nolint directive means: it hides its own lines, and, when it sits
   * directly above a node in the node's column, the lines down to the node's end.
   */
  ghost predicate DirectiveHides(h: Host, p: ParsedFile, r: IgnoredRange, d: Diagnostic)
  {
    || RangeHides(h, r, d)
    || exists n :: n in p.nodes && Expands(r, n) && RangeHides(h, Stretch(r, n), d)
  }

  /** The ranges rangesFor computes: the inline ones, then one per node below a directive. */
  function ExpandFor(inline: seq<IgnoredRange>, n: NodeSpan): seq<IgnoredRange>
  {
    if inline == [] then []
    else (if Expands(inline[0], n) then [Stretch(inline[0], n)] else []) + ExpandFor(inline[1..], n)
  }

  function ExpandAll(inline: seq<IgnoredRange>, nodes: seq<NodeSpan>): seq<IgnoredRange>
  {
    if nodes == [] then [] else ExpandFor(inline, nodes[0]) + ExpandAll(inline, nodes[1..])
  }

  function Ranges(h: Host, disk: Files, path: string): seq<IgnoredRange>
  {
    if path !in disk then []
    else match h.parse(disk[path])
      case None => []
      case Some(p) => if p.inline == [] then [] else p.inline + ExpandAll(p.inline, p.nodes)
  }

  predicate Suppressed(h: Host, disk: Files, d: Diagnostic)
  {
    && d.pos.filename != "" && d.pos.line != 0
    && var rs := Ranges(h, disk, d.pos.filename);
       exists i :: 0 <= i < |rs| && RangeHides(h, rs[i], d)
  }

  lemma {:induction false} ExpandForContents(inline: seq<IgnoredRange>, n: NodeSpan)
    ensures forall x :: x in ExpandFor(inline, n) <==> exists r :: r in inline && Expands(r, n) && x == Stretch(r, n)
  {
    if inline != [] { ExpandForContents(inline[1..], n); }
  }

  lemma {:induction false} ExpandAllContents(inline: seq<IgnoredRange>, nodes: seq<NodeSpan>)
    ensures forall x :: x in ExpandAll(inline, nodes) <==>
              exists r, n :: r in inline && n in nodes && Expands(r, n) && x == Stretch(r, n)
  {
    if nodes != [] {
      ExpandForContents(inline, nodes[0]);
      ExpandAllContents(inline, nodes[1..]);
      assert forall n :: n in nodes <==> n == nodes[0] || n in nodes[1..];
    }
  }

  /** A diagnostic is suppressed exactly when some directive of its file hides it. */
  lemma SuppressedByDirective(h: Host, disk: Files, d: Diagnostic)
    ensures Suppressed(h, disk, d) <==>
      && d.pos.filename != "" && d.pos.line != 0 && d.pos.filename in disk
      && var p := h.parse(disk[d.pos.filename]);
         p.Some? && exists r :: r in p.value.inline && DirectiveHides(h, p.value, r, d)
  {
    if d.pos.filename in disk && h.parse(disk[d.pos.filename]).Some? {
      var p := h.parse(disk[d.pos.filename]).value;
      var rs := Ranges(h, disk, d.pos.filename);
      ExpandAllContents(p.inline, p.nodes);
      if r :| r in p.inline && DirectiveHides(h, p, r, d) {
        if RangeHides(h, r, d) {
          assert r in rs;
        } else {
          var n :| n in p.nodes && Expands(r, n) && RangeHides(h, Stretch(r, n), d);
          assert Stretch(r, n) in rs;
        }
      }
      if i :| 0 <= i < |rs| && RangeHides(h, rs[i], d) {
        assert rs[i] in p.inline || rs[i] in ExpandAll(p.inline, p.nodes);
      }
    }
  }

  // ---- one diagnostic, one file ----

  /** dropDiagnostic. */
  predicate Drops(h: Host, disk: Files, f: Config, d: Diagnostic)
  {
    var rel := RelativePath(h, f, d.pos.filename);
    || (f.targetDirs != [] && !MatchesTarget(f, rel))
    || (f.nolint && Suppressed(h, disk, d))
    || d.linter in f.staticcheckDefaultDisabled
    || LibraryVersionSkew(d)
    || MatchesAny(h, f.pathPatterns, rel)
    || (f.pathExceptPatterns != [] && !MatchesAny(h, f.pathExceptPatterns, rel))
    || (f.generatedMode != MODE_DISABLE && IsGenerated(h, disk, d.pos.filename, f.generatedMode))
    || exists i :: 0 <= i < |f.rules| && RuleMatches(h, f.rules[i], d, rel)
  }

  function DropFn(h: Host, disk: Files, f: Config): Diagnostic -> bool
  {
    (d: Diagnostic) => Drops(h, disk, f, d)
  }

  /** excludesFile. */
  predicate ExcludesFile(h: Host, disk: Files, f: Config, path: string)
  {
    && path != ""
    && var rel := RelativePath(h, f, path);
       || (f.targetDirs != [] && !MatchesTarget(f, rel))
       || MatchesAny(h, f.pathPatterns, rel)
       || (f.pathExceptPatterns != [] && !MatchesAny(h, f.pathExceptPatterns, rel))
       || (f.generatedMode != MODE_DISABLE && IsGenerated(h, disk, path, f.generatedMode))
  }

  predicate ExcludesAll(h: Host, disk: Files, f: Option<Config>, paths: seq<string>)
  {
    f.Some? && paths != [] && forall i :: 0 <= i < |paths| ==> ExcludesFile(h, disk, f.value, paths[i])
  }

  /** The ahead-of-time decision never disagrees with the per-diagnostic one. */
  lemma ExcludedFileDropsAll(h: Host, disk: Files, f: Config, d: Diagnostic)
    requires ExcludesFile(h, disk, f, d.pos.filename)
    ensures Drops(h, disk, f, d)
  {
  }

  // ---- no-op configurations ----

  predicate OtherStagesOff(f: Config)
  {
    f.pathPatterns == [] && f.pathExceptPatterns == [] && f.rules == [] &&
    f.staticcheckDefaultDisabled == {} && f.targetDirs == [] && !f.uniqByLine && !f.nolint
  }

  /** The fast-path test of Apply. */
  predicate BatchNoOp(f: Config)
  {
    OtherStagesOff(f) && f.generatedMode == MODE_DISABLE
  }

  /** The negation of anyStageActive. */
  predicate StreamNoOp(f: Config)
  {
    OtherStagesOff(f) && !(f.generatedMode != "" && f.generatedMode != MODE_DISABLE)
  }

  /** The two fast-path tests agree except on an otherwise idle filter without a mode. */
  lemma NoOpTestsAgree(f: Config)
    ensures BatchNoOp(f) == StreamNoOp(f) <==> !(OtherStagesOff(f) && f.generatedMode == "")
  {
  }

  /** What Apply returns. */
  function ApplySpec(h: Host, disk: Files, f: Option<Config>, ds: seq<Diagnostic>): seq<Diagnostic>
  {
    if f.None? || BatchNoOp(f.value) then ds
    else Keep(DropFn(h, disk, f.value), f.value.uniqByLine, ds, {}).out
  }

  /** What a stream returns for one batch, and the lines it has claimed afterwards. */
  function StreamSpec(h: Host, disk: Files, f: Option<Config>, ds: seq<Diagnostic>, seen: set<FileLine>): Kept
  {
    if f.None? || StreamNoOp(f.value) then Kept(ds, seen)
    else Keep(DropFn(h, disk, f.value), f.value.uniqByLine, ds, seen)
  }

  function StreamAll(h: Host, disk: Files, f: Option<Config>, batches: seq<seq<Diagnostic>>, seen: set<FileLine>): seq<Diagnostic>
    decreases batches
  {
    if batches == [] then []
    else
      var k := StreamSpec(h, disk, f, batches[0], seen);
      k.out + StreamAll(h, disk, f, batches[1..], k.seen)
  }

  function Flatten<T>(batches: seq<seq<T>>): seq<T>
  {
    if batches == [] then [] else batches[0] + Flatten(batches[1..])
  }

  lemma {:induction false} StreamAllKeep(h: Host, disk: Files, f: Config, batches: seq<seq<Diagnostic>>, seen: set<FileLine>)
    ensures StreamAll(h, disk, Some(f), batches, seen) ==
            if StreamNoOp(f) then Flatten(batches)
            else Keep(DropFn(h, disk, f), f.uniqByLine, Flatten(batches), seen).out
    decreases batches
  {
    if batches != [] {
      var k := StreamSpec(h, disk, Some(f), batches[0], seen);
      StreamAllKeep(h, disk, f, batches[1..], k.seen);
      KeepAppend(DropFn(h, disk, f), f.uniqByLine, batches[0], Flatten(batches[1..]), seen);
    }
  }

  lemma {:induction false} StreamAllNone(h: Host, disk: Files, batches: seq<seq<Diagnostic>>, seen: set<FileLine>)
    ensures StreamAll(h, disk, None, batches, seen) == Flatten(batches)
    decreases batches
  {
    if batches != [] { StreamAllNone(h, disk, batches[1..], seen); }
  }

  /**
   * However a list is cut into packages, streaming them in order yields what one
   * batch pass over the whole list yields.  The one exception is the otherwise
   * idle filter whose generated-file mode is empty: there streaming passes every
   * diagnostic through, so the two agree only when nothing is to be dropped.
   */
  lemma StreamEqualsBatch(h: Host, disk: Files, f: Option<Config>, batches: seq<seq<Diagnostic>>)
    ensures StreamAll(h, disk, f, batches, {}) == ApplySpec(h, disk, f, Flatten(batches)) <==>
            f.None? || !(OtherStagesOff(f.value) && f.value.generatedMode == "")
              || forall d :: d in Flatten(batches) ==> !Drops(h, disk, f.value, d)
  {
    match f
    case None => StreamAllNone(h, disk, batches, {});
    case Some(c) =>
      StreamAllKeep(h, disk, c, batches, {});
      if OtherStagesOff(c) && c.generatedMode == "" {
        KeepSubset(DropFn(h, disk, c), false, Flatten(batches), {});
        if forall d :: d in Flatten(batches) ==> !Drops(h, disk, c, d) {
          KeepAll(DropFn(h, disk, c), Flatten(batches), {});
        }
      }
  }

  /** A filter built by NewFilter always has a mode, so for it the law is unconditional. */
  lemma BuiltFilterStreams(h: Host, disk: Files, cfg: Option<Settings>, basePath: string, targets: seq<TargetDir>, batches: seq<seq<Diagnostic>>)
    ensures var f := Some(NewFilter(cfg, basePath, targets));
            StreamAll(h, disk, f, batches, {}) == ApplySpec(h, disk, f, Flatten(batches))
  {
    StreamEqualsBatch(h, disk, Some(NewFilter(cfg, basePath, targets)), batches);
  }
}
