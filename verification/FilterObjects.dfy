// The filter and its stream as objects: decisions memoised per file, and the
// set of claimed lines carried from package to package.

module FilterObjects {
  import opened Strings
  import opened Paths
  import opened Diagnostics
  import opened Suppression
  import opened Exclusion

  ghost predicate GeneratedMemo(h: Host, disk: Files, mode: string, memo: map<string, bool>)
  {
    forall p :: p in memo ==> memo[p] == DetectGenerated(h, disk, p, mode)
  }

  ghost predicate NolintMemo(h: Host, disk: Files, memo: map<string, seq<IgnoredRange>>)
  {
    forall p :: p in memo ==> memo[p] == Ranges(h, disk, p)
  }

  lemma ExpandStep(inline: seq<IgnoredRange>, nodes: seq<NodeSpan>, i: nat, rs: seq<IgnoredRange>)
    requires i < |nodes|
    ensures rs + ExpandAll(inline, nodes[i..]) == rs + ExpandFor(inline, nodes[i]) + ExpandAll(inline, nodes[i + 1..])
  {
    assert nodes[i..][0] == nodes[i] && nodes[i..][1..] == nodes[i + 1..];
  }

  class Filter {
    const h: Host
    const cfg: Config
    var generatedCache: map<string, bool>
    var nolintCache: map<string, seq<IgnoredRange>>

    constructor (h: Host, cfg: Config)
      ensures this.h == h && this.cfg == cfg
      ensures generatedCache == map[] && nolintCache == map[]
    {
      this.h, this.cfg := h, cfg;
      generatedCache, nolintCache := map[], map[];
    }

    /** A filter without the nolint stage has no nolint table. */
    ghost predicate WellFormed()
      reads this
    {
      !cfg.nolint ==> nolintCache == map[]
    }

    /** Both memo tables agree with the files as they are now. */
    ghost predicate Valid(disk: Files)
      reads this
    {
      WellFormed() && GeneratedMemo(h, disk, cfg.generatedMode, generatedCache) && NolintMemo(h, disk, nolintCache)
    }

    /** isGenerated. */
    method CheckGenerated(disk: Files, path: string) returns (b: bool)
      requires Valid(disk)
      modifies this
      ensures Valid(disk) && b == IsGenerated(h, disk, path, cfg.generatedMode)
    {
      if path == "" || Base(path) == "go.mod" { return false; }
      if path in generatedCache { return generatedCache[path]; }
      b := DetectGenerated(h, disk, path, cfg.generatedMode);
      generatedCache := generatedCache[path := b];
    }

    /** expandNolintRanges followed by the concatenation in buildIgnoredRangesForFile. */
    method BuildRanges(disk: Files, path: string) returns (rs: seq<IgnoredRange>)
      ensures rs == Ranges(h, disk, path)
    {
      if path !in disk { return []; }
      var parsed := h.parse(disk[path]);
      if parsed.None? { return []; }
      var p := parsed.value;
      if p.inline == [] { return []; }
      rs := p.inline;
      for i := 0 to |p.nodes|
        invariant rs + ExpandAll(p.inline, p.nodes[i..]) == p.inline + ExpandAll(p.inline, p.nodes)
      {
        ExpandStep(p.inline, p.nodes, i, rs);
        rs := VisitNode(p.inline, p.nodes[i], rs);
      }
    }

    /** What the walk appends for one node. */
    static method VisitNode(inline: seq<IgnoredRange>, n: NodeSpan, before: seq<IgnoredRange>) returns (rs: seq<IgnoredRange>)
      ensures rs == before + ExpandFor(inline, n)
    {
      rs := before;
      for j := 0 to |inline|
        invariant rs + ExpandFor(inline[j..], n) == before + ExpandFor(inline, n)
      {
        assert inline[j..][1..] == inline[j + 1..];
        if Expands(inline[j], n) {
          rs := rs + [Stretch(inline[j], n)];
        }
      }
    }

    /** suppresses, over the memoised rangesFor. */
    method CheckSuppressed(disk: Files, d: Diagnostic) returns (b: bool)
      requires Valid(disk)
      modifies this
      ensures Valid(disk) && b == (cfg.nolint && Suppressed(h, disk, d))
    {
      if !cfg.nolint { return false; }
      if d.pos.filename == "" || d.pos.line == 0 { return false; }
      var path := d.pos.filename;
      if path !in nolintCache {
        var built := BuildRanges(disk, path);
        nolintCache := nolintCache[path := built];
      }
      var rs := nolintCache[path];
      for i := 0 to |rs|
        invariant forall j :: 0 <= j < i ==> !RangeHides(h, rs[j], d)
      {
        if d.pos.line < rs[i].fromLine || d.pos.line > rs[i].toLine { continue; }
        if RangeCoversLinter(h, rs[i], d.linter) { return true; }
      }
      return false;
    }

    /** excludesFile. */
    method CheckExcludesFile(disk: Files, path: string) returns (b: bool)
      requires Valid(disk)
      modifies this
      ensures Valid(disk) && b == ExcludesFile(h, disk, cfg, path)
    {
      if path == "" { return false; }
      var rel := RelativePath(h, cfg, path);
      if |cfg.targetDirs| > 0 && !MatchesTarget(cfg, rel) { return true; }
      var hit := FindMatch(cfg.pathPatterns, rel);
      if hit { return true; }
      if |cfg.pathExceptPatterns| > 0 {
        hit := FindMatch(cfg.pathExceptPatterns, rel);
        if !hit { return true; }
      }
      if cfg.generatedMode == MODE_DISABLE { return false; }
      b := CheckGenerated(disk, path);
    }

    /** ExcludesAllFiles. */
    method CheckExcludesAll(disk: Files, paths: seq<string>) returns (b: bool)
      requires Valid(disk)
      modifies this
      ensures Valid(disk) && b == ExcludesAll(h, disk, Some(cfg), paths)
    {
      if |paths| == 0 { return false; }
      for i := 0 to |paths|
        invariant Valid(disk)
        invariant forall j :: 0 <= j < i ==> ExcludesFile(h, disk, cfg, paths[j])
      {
        var e := CheckExcludesFile(disk, paths[i]);
        if !e { return false; }
      }
      return true;
    }

    method FindMatch(patterns: seq<string>, rel: string) returns (b: bool)
      ensures b == MatchesAny(h, patterns, rel)
    {
      for i := 0 to |patterns|
        invariant forall j :: 0 <= j < i ==> !h.matches(patterns[j], rel)
      {
        if h.matches(patterns[i], rel) { return true; }
      }
      return false;
    }

    /** dropDiagnostic. */
    method DropDiagnostic(disk: Files, d: Diagnostic) returns (b: bool)
      requires Valid(disk)
      modifies this
      ensures Valid(disk) && b == Drops(h, disk, cfg, d)
    {
      var rel := RelativePath(h, cfg, d.pos.filename);
      if |cfg.targetDirs| > 0 && !MatchesTarget(cfg, rel) { return true; }
      var hit := CheckSuppressed(disk, d);
      if hit { return true; }
      if d.linter in cfg.staticcheckDefaultDisabled || LibraryVersionSkew(d) { return true; }
      hit := FindMatch(cfg.pathPatterns, rel);
      if hit { return true; }
      if |cfg.pathExceptPatterns| > 0 {
        hit := FindMatch(cfg.pathExceptPatterns, rel);
        if !hit { return true; }
      }
      if cfg.generatedMode != MODE_DISABLE {
        hit := CheckGenerated(disk, d.pos.filename);
        if hit { return true; }
      }
      b := FindRule(d, rel);
    }

    method FindRule(d: Diagnostic, rel: string) returns (b: bool)
      ensures b <==> exists i :: 0 <= i < |cfg.rules| && RuleMatches(h, cfg.rules[i], d, rel)
    {
      for i := 0 to |cfg.rules|
        invariant forall j :: 0 <= j < i ==> !RuleMatches(h, cfg.rules[j], d, rel)
      {
        if RuleMatches(h, cfg.rules[i], d, rel) { return true; }
      }
      return false;
    }

    /** The loop of Apply and of AddPackage, over a given set of claimed lines. */
    method FilterLoop(disk: Files, ds: seq<Diagnostic>, start: set<FileLine>) returns (out: seq<Diagnostic>, seen: set<FileLine>)
      requires Valid(disk)
      modifies this
      ensures Valid(disk) && Keep(DropFn(h, disk, cfg), cfg.uniqByLine, ds, start) == Kept(out, seen)
    {
      out, seen := [], start;
      ghost var drop := DropFn(h, disk, cfg);
      for i := 0 to |ds|
        invariant Valid(disk)
        invariant Keep(drop, cfg.uniqByLine, ds[..i], start) == Kept(out, seen)
      {
        KeepSnoc(drop, cfg.uniqByLine, ds[..i], ds[i], start);
        assert ds[..i] + [ds[i]] == ds[..i + 1];
        var dropped := DropDiagnostic(disk, ds[i]);
        if dropped { continue; }
        if cfg.uniqByLine {
          if LineOf(ds[i]) in seen { continue; }
          seen := seen + {LineOf(ds[i])};
        }
        out := out + [ds[i]];
      }
      assert ds[..|ds|] == ds;
    }

    /** Apply. */
    method Apply(disk: Files, ds: seq<Diagnostic>) returns (out: seq<Diagnostic>)
      requires Valid(disk)
      modifies this
      ensures Valid(disk) && out == ApplySpec(h, disk, Some(cfg), ds)
      ensures cfg.uniqByLine ==> LinesApart(out)
      ensures forall i :: 0 <= i < |ds| && !Drops(h, disk, cfg, ds[i]) ==>
                if cfg.uniqByLine then Represented(ds, out, i) else ds[i] in out
    {
      forall i | 0 <= i < |ds| && !Drops(h, disk, cfg, ds[i])
        ensures var kept := Keep(DropFn(h, disk, cfg), cfg.uniqByLine, ds, {}).out;
                if cfg.uniqByLine then Represented(ds, kept, i) else ds[i] in kept
      {
        KeptRepresents(DropFn(h, disk, cfg), cfg.uniqByLine, ds, {}, i);
      }
      if cfg.uniqByLine { KeptLinesApart(DropFn(h, disk, cfg), ds, {}); }
      if |ds| == 0 { return ds; }
      if BatchNoOp(cfg) { return ds; }
      var seen;
      out, seen := FilterLoop(disk, ds, {});
    }
  }

  class Stream {
    const f: Filter
    var uniqSeen: Option<set<FileLine>>

    constructor (f: Filter)
      ensures this.f == f
      ensures uniqSeen == if f.cfg.uniqByLine then Some({}) else None
    {
      this.f := f;
      uniqSeen := if f.cfg.uniqByLine then Some({}) else None;
    }

    /** The lines this stream has already claimed. */
    function Seen(): set<FileLine>
      reads this
    {
      match uniqSeen case None => {} case Some(s) => s
    }

    /**
     * Not yet finished: under uniq-by-line the claimed set still exists.  Adding
     * to a finished stream would write to a nil map.
     */
    ghost predicate Open()
      reads this
    {
      f.cfg.uniqByLine ==> uniqSeen.Some?
    }

    /** AddPackage (and AddBatch). */
    method AddPackage(disk: Files, ds: seq<Diagnostic>) returns (kept: seq<Diagnostic>)
      requires Open() && f.Valid(disk)
      modifies this, f
      ensures Open() && f.Valid(disk)
      ensures StreamSpec(f.h, disk, Some(f.cfg), ds, old(Seen())) == Kept(kept, Seen())
      ensures f.cfg.uniqByLine ==> LinesApart(kept) && forall d :: d in kept ==> !TakenBefore(old(Seen()), d) && TakenBefore(Seen(), d)
      ensures forall i :: 0 <= i < |ds| && !Drops(f.h, disk, f.cfg, ds[i]) ==>
                if f.cfg.uniqByLine then TakenBefore(old(Seen()), ds[i]) || Represented(ds, kept, i) else ds[i] in kept
    {
      forall i | 0 <= i < |ds| && !Drops(f.h, disk, f.cfg, ds[i])
        ensures var out := Keep(DropFn(f.h, disk, f.cfg), f.cfg.uniqByLine, ds, Seen()).out;
                if f.cfg.uniqByLine then TakenBefore(Seen(), ds[i]) || Represented(ds, out, i) else ds[i] in out
      {
        KeptRepresents(DropFn(f.h, disk, f.cfg), f.cfg.uniqByLine, ds, Seen(), i);
      }
      if f.cfg.uniqByLine {
        KeptLinesApart(DropFn(f.h, disk, f.cfg), ds, Seen());
        KeptTaken(DropFn(f.h, disk, f.cfg), ds, Seen());
      }
      if |ds| == 0 { return ds; }
      if StreamNoOp(f.cfg) { return ds; }
      var seen;
      kept, seen := f.FilterLoop(disk, ds, Seen());
      if f.cfg.uniqByLine { uniqSeen := Some(seen); }
      else { KeepSeenFixed(DropFn(f.h, disk, f.cfg), ds, Seen()); }
    }

    /** Finish: the filter's memo tables are then right for any contents of the disk. */
    method Finish()
      requires f.WellFormed()
      modifies this, f
      ensures uniqSeen == None
      ensures forall disk :: f.Valid(disk)
    {
      f.generatedCache := map[];
      if f.cfg.nolint { f.nolintCache := map[]; }
      uniqSeen := None;
    }
  }

  lemma {:induction false} KeepSeenFixed(drop: Diagnostic -> bool, ds: seq<Diagnostic>, seen: set<FileLine>)
    ensures Keep(drop, false, ds, seen).seen == seen
    decreases ds
  {
    if ds != [] { KeepSeenFixed(drop, ds[1..], seen); }
  }
}
