// The token list ConfigDigest hashes (internal/exclusion/exclusion.go), and the
// filters whose tokens can be read in one way only.

module FilterTokens {
  import opened Strings
  import opened Sorting
  import opened Exclusion

  const NIL_MARKER: string := "\0<nil>"

  function ReToken(re: Option<string>): string
  {
    match re case None => NIL_MARKER case Some(p) => p
  }

  /** The four regular expressions of a rule, in the order written. */
  function Res(r: Rule): seq<string>
  {
    [ReToken(r.path), ReToken(r.pathExcept), ReToken(r.text), ReToken(r.source)]
  }

  /** What follows the linters of a rule. */
  function RestTokens(r: Rule): (ts: seq<string>)
    ensures |ts| == 8
  {
    ["path", Res(r)[0], "path-except", Res(r)[1], "text", Res(r)[2], "source", Res(r)[3]]
  }

  ghost function RuleTokens(r: Rule): seq<string>
  {
    ["linters"] + SortedElems(r.linters) + RestTokens(r)
  }

  ghost function RulesTokens(rules: seq<Rule>): seq<string>
  {
    if rules == [] then []
    else RulesTokens(rules[..|rules| - 1]) + RuleTokens(rules[|rules| - 1])
  }

  function TargetTokens(targets: seq<TargetDir>): (r: seq<string>)
    ensures |r| == 2 * |targets|
  {
    if targets == [] then []
    else
      var n := |targets| - 1;
      TargetTokens(targets[..n]) + [targets[n].dir, if targets[n].recursive then "recursive" else "flat"]
  }

  function FlagTokens(f: Config): (r: seq<string>)
    ensures |r| == 4
  {
    ["uniq-by-line", if f.uniqByLine then "true" else "false", "nolint", if f.nolint then "on" else "off"]
  }

  ghost function TailTokens(f: Config): seq<string>
  {
    ["generated", f.generatedMode, "staticcheck-default-disabled"] + SortedElems(f.staticcheckDefaultDisabled) +
    ["target-dirs"] + (TargetTokens(f.targetDirs) + FlagTokens(f))
  }

  function ListTokens(f: Config): seq<string>
  {
    ["paths"] + f.pathPatterns + ["paths-except"] + f.pathExceptPatterns
  }

  ghost function HeadTokens(f: Config): seq<string>
  {
    ListTokens(f) + ["rules"] + RulesTokens(f.rules)
  }

  /** Everything ConfigDigest writes, in order. */
  ghost function Tokens(f: Config): seq<string>
  {
    HeadTokens(f) + TailTokens(f)
  }

  // ---- what the tokens can tell ----

  function ReOf(t: string): Option<string>
  {
    if t == NIL_MARKER then None else Some(t)
  }

  /** A rule in which an expression spelled like the nil marker counts as absent. */
  function FoldRule(r: Rule): Rule
  {
    Rule(r.linters, ReOf(ReToken(r.path)), ReOf(ReToken(r.pathExcept)), ReOf(ReToken(r.text)), ReOf(ReToken(r.source)))
  }

  function FoldRules(rules: seq<Rule>): (r: seq<Rule>)
    ensures |r| == |rules| && forall i :: 0 <= i < |rules| ==> r[i] == FoldRule(rules[i])
  {
    seq(|rules|, i requires 0 <= i < |rules| => FoldRule(rules[i]))
  }

  /** A filter up to its base path, which is not written, and to that reading of its rules. */
  function Fold(f: Config): Config
  {
    f.(basePath := "", rules := FoldRules(f.rules))
  }

  // ---- what the program accepts ----

  /** A pattern that is not empty and compiles. */
  predicate Pattern(compiles: string -> bool, p: string)
  {
    p != "" && compiles(p)
  }

  predicate AllPatterns(compiles: string -> bool, ps: seq<string>)
  {
    forall i :: 0 <= i < |ps| ==> Pattern(compiles, ps[i])
  }

  function Conditions(r: Rule): nat
  {
    (if r.linters != {} then 1 else 0) + (if r.path.Some? || r.pathExcept.Some? then 1 else 0) +
    (if r.text.Some? then 1 else 0) + (if r.source.Some? then 1 else 0)
  }

  predicate Compiles(compiles: string -> bool, re: Option<string>)
  {
    re.Some? ==> Pattern(compiles, re.value)
  }

  /** BaseRule.Validate for exclusion rules. */
  predicate ValidRule(compiles: string -> bool, r: Rule)
  {
    && OnePath(r) && Conditions(r) >= 2
    && Compiles(compiles, r.path) && Compiles(compiles, r.pathExcept) && Compiles(compiles, r.text) && Compiles(compiles, r.source)
  }

  predicate OnePath(r: Rule) { r.path.None? || r.pathExcept.None? }

  predicate AllValid(compiles: string -> bool, rules: seq<Rule>)
  {
    forall i :: 0 <= i < |rules| ==> ValidRule(compiles, rules[i])
  }

  predicate KnownMode(f: Config)
  {
    f.generatedMode in {"lax", MODE_STRICT, MODE_DISABLE}
  }

  /** A configuration that config.Validate and the compilation of its patterns let through. */
  predicate ValidConfig(compiles: string -> bool, cfg: Option<Settings>)
  {
    cfg.Some? ==>
      && cfg.value.generated in {"", "lax", MODE_STRICT, MODE_DISABLE}
      && AllPatterns(compiles, cfg.value.paths) && AllPatterns(compiles, cfg.value.pathsExcept)
      && AllValid(compiles, cfg.value.rules) && AllValid(compiles, cfg.value.presetRules)
  }

  /** A filter the program can be running with. */
  predicate Accepted(compiles: string -> bool, f: Config)
  {
    && KnownMode(f) && f.nolint
    && AllPatterns(compiles, f.pathPatterns) && AllPatterns(compiles, f.pathExceptPatterns) && AllValid(compiles, f.rules)
    && (f.uniqByLine || f == NewFilter(None, f.basePath, f.targetDirs))
  }

  lemma AcceptedExactly(compiles: string -> bool, f: Config)
    ensures Accepted(compiles, f) <==>
              exists cfg :: ValidConfig(compiles, cfg) && f == NewFilter(cfg, f.basePath, f.targetDirs)
  {
    if Accepted(compiles, f) {
      var cfg := if f.uniqByLine
        then Some(Settings(f.pathPatterns, f.pathExceptPatterns, f.rules, [], f.generatedMode, f.staticcheckDefaultDisabled))
        else None;
      assert f.rules + [] == f.rules;
      assert ValidConfig(compiles, cfg) && f == NewFilter(cfg, f.basePath, f.targetDirs);
    }
  }

  /** No other filter the program accepts has these tokens. */
  ghost predicate Determined(compiles: string -> bool, f: Config)
  {
    forall g :: Accepted(compiles, g) && Tokens(g) == Tokens(f) ==> Fold(g) == Fold(f)
  }

  // ---- the condition ----

  ghost predicate Ascending(ls: seq<string>)
  {
    forall i, j :: 0 <= i < j < |ls| ==> Less(ls[i], ls[j])
  }

  /** ts is what a rule with at most one of the two path expressions writes. */
  ghost predicate PrintsRule(ts: seq<string>)
  {
    var n := |ts| - 8;
    && n >= 1 && ts[0] == "linters" && Ascending(ts[1..n])
    && ts[n] == "path" && ts[n + 2] == "path-except" && ts[n + 4] == "text" && ts[n + 6] == "source"
    && (ts[n + 1] == NIL_MARKER || ts[n + 3] == NIL_MARKER)
  }

  /** ts is what some list of such rules writes. */
  ghost predicate PrintsRules(ts: seq<string>)
    decreases |ts|
  {
    ts == [] || exists n :: 0 <= n < |ts| && PrintsRules(ts[..n]) && PrintsRule(ts[n..])
  }

  /** From position i on, the path-except patterns and the marker after them read as rules. */
  ghost predicate EmbedsRules(f: Config, i: nat)
  {
    && i < |f.pathExceptPatterns| && f.pathExceptPatterns[i] == "rules"
    && PrintsRules(f.pathExceptPatterns[i + 1..] + ["rules"])
  }

  /**
   * No pattern is spelled like the separator between the two lists, no tail of the
   * second list reads as rules, and no source expression is spelled like the marker
   * before the rules where the linters up to it could be patterns.
   */
  ghost predicate Unambiguous(compiles: string -> bool, f: Config)
  {
    ListsApart(f) && NoMarkerSource(compiles, f.rules) && NothingEmbedded(f)
  }

  predicate ListsApart(f: Config)
  {
    "paths-except" !in f.pathPatterns && "paths-except" !in f.pathExceptPatterns
  }

  predicate NoMarkerSource(compiles: string -> bool, rules: seq<Rule>)
  {
    forall m :: 0 <= m < |rules| && rules[m].source == Some("rules") ==> !LintersArePatterns(compiles, rules[..m + 1])
  }

  predicate LintersArePatterns(compiles: string -> bool, rules: seq<Rule>)
  {
    forall i, l :: 0 <= i < |rules| && l in rules[i].linters ==> l == "paths-except" || Pattern(compiles, l)
  }

  ghost predicate NothingEmbedded(f: Config)
  {
    forall i :: !EmbedsRules(f, i)
  }

  // ---- sorted listings ----

  lemma SortedAscends(s: set<string>)
    ensures Ascending(SortedElems(s))
  {
    var ls := SortedElems(s);
    forall i, j | 0 <= i < j < |ls|
      ensures Less(ls[i], ls[j])
    {
      assert Leq(Self(ls[i]), Self(ls[j])) && ls[i] != ls[j];
    }
  }

  function SetOf(ts: seq<string>): set<string>
  {
    set t | t in ts
  }

  lemma AscendingIsSorted(ls: seq<string>)
    requires Ascending(ls)
    ensures SortedElems(SetOf(ls)) == ls
  {
    forall i, j | 0 <= i < j < |ls|
      ensures ls[i] != ls[j]
    {
      LessIrreflexive(ls[i]);
    }
    SortedEnumeration(ls, SetOf(ls));
  }

  lemma SameListingSameSet(s: set<string>, t: set<string>)
    requires SortedElems(s) == SortedElems(t)
    ensures s == t
  {
    assert forall x :: x in s <==> x in SortedElems(s);
    assert forall x :: x in t <==> x in SortedElems(t);
  }

  // ---- tokens by position ----

  lemma CutEnd(a: seq<string>, b: seq<string>, c: seq<string>, d: seq<string>)
    requires a + b == c + d && |b| == |d|
    ensures a == c && b == d
  {
    assert a == (a + b)[..|a|] && b == (a + b)[|a|..];
    assert c == (c + d)[..|c|] && d == (c + d)[|c|..];
  }

  /** The last tokens of a list of rules: eight fixed ones, and before them the linters or their marker. */
  lemma RuleEnd(v: seq<string>, r: Rule)
    ensures var s, ls := v + RuleTokens(r), SortedElems(r.linters);
            && |s| == |v| + 9 + |ls|
            && s[|s| - 8..] == RestTokens(r)
            && s[|s| - 9] == (if ls == [] then "linters" else ls[|ls| - 1])
            && (|ls| >= 1 ==> s[|s| - 10] == if |ls| == 1 then "linters" else ls[|ls| - 2])
  {
  }

  lemma RuleEndAt(v: seq<string>, r: Rule, i: nat)
    requires i < 8
    ensures var s := v + RuleTokens(r); |s| >= 9 && s[|s| - 8 + i] == RestTokens(r)[i]
  {
    RuleEnd(v, r);
    var s := v + RuleTokens(r);
    assert s[|s| - 8..][i] == s[|s| - 8 + i];
  }

  /** A rule's tokens, without its linters' marker and its linters. */
  lemma RuleSplits(v: seq<string>, r: Rule)
    ensures v + RuleTokens(r) == (v + ["linters"] + SortedElems(r.linters)) + RestTokens(r)
  {
  }

  lemma StartsWithLinters(rules: seq<Rule>)
    ensures rules != [] ==> RulesTokens(rules) != [] && RulesTokens(rules)[0] == "linters"
  {
    if rules != [] {
      StartsWithLinters(rules[..|rules| - 1]);
    }
  }

  // ---- one list of rules, read from the end ----

  /** One reading lets the last rule start later than the other does, by exactly one token. */
  ghost predicate StartsLater(a: Rule, b: Rule)
  {
    Res(a) == ["path", "path-except", "text", "source"] && Res(b) == ["path-except", "text", "source", "linters"]
  }

  lemma BeforeLast(u: seq<string>, ls: seq<string>, t: nat)
    requires t < |ls| && Ascending(ls) && ls[t] == "linters"
    ensures t > 0 ==> var v := u + ["linters"] + ls[..t]; v[|v| - 2] != "source"
  {
    var v := u + ["linters"] + ls[..t];
    if t == 1 {
      assert v[|v| - 2] == "linters";
    } else if t > 1 {
      assert v[|v| - 2] == ls[t - 2] && Less(ls[t - 2], ls[t]);
    }
  }

  lemma LaterByOne(us: seq<Rule>, ls: seq<string>, vs: seq<Rule>, ms: seq<string>)
    requires RulesTokens(us) + ["linters"] + ls == RulesTokens(vs) + ["linters"] + ms
    requires Ascending(ls) && |ls| > |ms|
    ensures RulesTokens(vs) == RulesTokens(us) + ["linters"]
  {
    var u, v, t := RulesTokens(us), RulesTokens(vs), |ls| - |ms| - 1;
    var whole := u + ["linters"] + ls;
    assert whole == v + ["linters"] + ms;
    assert v == whole[..|v|] && v == u + ["linters"] + ls[..t];
    assert ls[t] == whole[|v|] == "linters";
    assert vs != [];
    RuleEndAt(RulesTokens(vs[..|vs| - 1]), vs[|vs| - 1], 6);
    assert v[|v| - 2] == "source";
    BeforeLast(u, ls, t);
    assert t == 0;
  }

  /** The tokens of neighbouring rules whose boundary has moved by one. */
  lemma MovedRes(v: seq<string>, a: Rule, x: seq<string>, b: Rule)
    requires x + RuleTokens(b) == v + RuleTokens(a) + ["linters"]
    ensures Res(a) == ["path", "path-except", "text", "source"]
    ensures Res(b) == ["path-except", "text", "source", "linters"]
  {
    var s, t := v + RuleTokens(a), x + RuleTokens(b);
    RuleEndAt(v, a, 1); RuleEndAt(v, a, 2); RuleEndAt(v, a, 3); RuleEndAt(v, a, 4);
    RuleEndAt(v, a, 5); RuleEndAt(v, a, 6); RuleEndAt(v, a, 7);
    RuleEndAt(x, b, 0); RuleEndAt(x, b, 1); RuleEndAt(x, b, 2); RuleEndAt(x, b, 3); RuleEndAt(x, b, 4);
    RuleEndAt(x, b, 5); RuleEndAt(x, b, 6); RuleEndAt(x, b, 7);
    assert |t| == |s| + 1 && t[|t| - 1] == "linters";
    assert forall i :: 0 <= i < |s| ==> t[i] == s[i];
  }

  lemma LastRule(rules: seq<Rule>)
    requires rules != []
    ensures RulesTokens(rules) == RulesTokens(rules[..|rules| - 1]) + RuleTokens(rules[|rules| - 1])
  {
  }

  lemma NotJustLinters(us: seq<Rule>, vs: seq<Rule>)
    requires vs != [] && RulesTokens(vs) == RulesTokens(us) + ["linters"]
    ensures us != []
  {
    LastRule(vs);
    RuleEnd(RulesTokens(vs[..|vs| - 1]), vs[|vs| - 1]);
  }

  lemma LaterStart(us: seq<Rule>, ls: seq<string>, vs: seq<Rule>, ms: seq<string>)
    requires RulesTokens(us) + ["linters"] + ls == RulesTokens(vs) + ["linters"] + ms
    requires Ascending(ls) && |ls| > |ms|
    ensures us != [] && vs != [] && StartsLater(us[|us| - 1], vs[|vs| - 1])
  {
    LaterByOne(us, ls, vs, ms);
    assert vs != [];
    NotJustLinters(us, vs);
    LastRule(us);
    LastRule(vs);
    MovedRes(RulesTokens(us[..|us| - 1]), us[|us| - 1], RulesTokens(vs[..|vs| - 1]), vs[|vs| - 1]);
  }

  predicate OnePaths(rules: seq<Rule>)
  {
    forall i :: 0 <= i < |rules| ==> OnePath(rules[i])
  }

  /** Rules with at most one path expression each are determined by what they write, whatever the other rules are. */
  lemma {:induction false} SameRules(rs: seq<Rule>, qs: seq<Rule>)
    requires RulesTokens(rs) == RulesTokens(qs) && OnePaths(rs)
    ensures FoldRules(rs) == FoldRules(qs)
    decreases |rs|
  {
    if rs == [] || qs == [] {
      StartsWithLinters(rs);
      StartsWithLinters(qs);
    } else {
      var us, vs := rs[..|rs| - 1], qs[..|qs| - 1];
      LastRule(rs);
      LastRule(qs);
      SameLast(us, rs[|rs| - 1], vs, qs[|qs| - 1]);
      SameRules(us, vs);
      FoldSnoc(rs);
      FoldSnoc(qs);
    }
  }

  lemma FoldSnoc(rs: seq<Rule>)
    requires rs != []
    ensures FoldRules(rs) == FoldRules(rs[..|rs| - 1]) + [FoldRule(rs[|rs| - 1])]
  {
  }

  lemma SameLast(us: seq<Rule>, r: Rule, vs: seq<Rule>, q: Rule)
    requires RulesTokens(us) + RuleTokens(r) == RulesTokens(vs) + RuleTokens(q) && OnePaths(us)
    ensures RulesTokens(us) == RulesTokens(vs) && FoldRule(r) == FoldRule(q)
  {
    var u, v, ls, ms := RulesTokens(us), RulesTokens(vs), SortedElems(r.linters), SortedElems(q.linters);
    RuleSplits(u, r);
    RuleSplits(v, q);
    CutEnd(u + ["linters"] + ls, RestTokens(r), v + ["linters"] + ms, RestTokens(q));
    SameRest(r, q);
    SameLength(us, r, vs, q);
    CutEnd(u + ["linters"], ls, v + ["linters"], ms);
    CutEnd(u, ["linters"], v, ["linters"]);
    SameListingSameSet(r.linters, q.linters);
  }

  lemma SameRest(r: Rule, q: Rule)
    requires RestTokens(r) == RestTokens(q)
    ensures Res(r) == Res(q) && (r.linters == q.linters ==> FoldRule(r) == FoldRule(q))
  {
    assert RestTokens(r)[1] == RestTokens(q)[1] && RestTokens(r)[3] == RestTokens(q)[3];
    assert RestTokens(r)[5] == RestTokens(q)[5] && RestTokens(r)[7] == RestTokens(q)[7];
  }

  lemma SameLength(us: seq<Rule>, r: Rule, vs: seq<Rule>, q: Rule)
    requires RulesTokens(us) + ["linters"] + SortedElems(r.linters) == RulesTokens(vs) + ["linters"] + SortedElems(q.linters)
    ensures OnePaths(us) ==> |SortedElems(r.linters)| == |SortedElems(q.linters)|
  {
    var ls, ms := SortedElems(r.linters), SortedElems(q.linters);
    SortedAscends(r.linters);
    SortedAscends(q.linters);
    if |ls| > |ms| {
      LaterStart(us, ls, vs, ms);
      NeitherNil(us[|us| - 1]);
    } else if |ls| < |ms| {
      LaterStart(vs, ms, us, ls);
      NeitherNil(us[|us| - 1]);
    }
  }

  lemma NeitherNil(r: Rule)
    requires Res(r)[0] != NIL_MARKER && Res(r)[1] != NIL_MARKER
    ensures !OnePath(r)
  {
  }

  // ---- the tail ----

  lemma {:induction false} TargetAt(targets: seq<TargetDir>, i: nat)
    requires i < |targets|
    ensures TargetTokens(targets)[2 * i] == targets[i].dir
    ensures TargetTokens(targets)[2 * i + 1] == if targets[i].recursive then "recursive" else "flat"
  {
    if i < |targets| - 1 {
      TargetAt(targets[..|targets| - 1], i);
    }
  }

  /** The token at each position of a tail. */
  lemma TailAt(f: Config, n: nat)
    requires n < |TailTokens(f)|
    ensures var t, sc, k := TailTokens(f)[n], SortedElems(f.staticcheckDefaultDisabled), |TargetTokens(f.targetDirs)|;
            && |TailTokens(f)| == 8 + |sc| + k
            && (n == 0 ==> t == "generated") && (n == 1 ==> t == f.generatedMode)
            && (n == 2 ==> t == "staticcheck-default-disabled")
            && (3 <= n < 3 + |sc| ==> t == sc[n - 3])
            && (n == 3 + |sc| ==> t == "target-dirs")
            && (4 + |sc| <= n < 4 + |sc| + k ==> t == TargetTokens(f.targetDirs)[n - 4 - |sc|])
            && (4 + |sc| + k <= n ==> t == FlagTokens(f)[n - 4 - |sc| - k])
  {
  }

  /** Inside a tail, another tail could start among the disabled checks only. */
  lemma TailStart(f: Config, n: nat)
    requires KnownMode(f) && 0 < n && n + 2 < |TailTokens(f)|
    requires TailTokens(f)[n] == "generated" && TailTokens(f)[n + 1] in {"lax", MODE_STRICT, MODE_DISABLE}
    ensures 3 <= n < 3 + |SortedElems(f.staticcheckDefaultDisabled)|
    ensures SortedElems(f.staticcheckDefaultDisabled)[n - 3] == "generated"
  {
    var sc, k := SortedElems(f.staticcheckDefaultDisabled), |TargetTokens(f.targetDirs)|;
    var t := TailTokens(f);
    TailAt(f, n);
    TailAt(f, n + 1);
    assert t[n] == "generated" && |t[n + 1]| in {3, 6, 7};
    if 4 + |sc| <= n < 4 + |sc| + k {
      TargetAt(f.targetDirs, (n - 4 - |sc|) / 2);
    }
  }

  lemma HeadEnds(g: Config)
    ensures var h := HeadTokens(g);
            |h| >= 2 && if g.rules == [] then h[|h| - 1] == "rules" else h[|h| - 2] == "source"
  {
    if g.rules != [] {
      LastRule(g.rules);
      var v := RulesTokens(g.rules[..|g.rules| - 1]);
      RuleEndAt(v, g.rules[|g.rules| - 1], 6);
      var r := RulesTokens(g.rules);
      assert HeadTokens(g)[|HeadTokens(g)| - 2] == r[|r| - 2];
    }
  }

  /** What stands before a "generated" among the disabled checks is not the end of a head. */
  lemma NoHeadBefore(f: Config, n: nat)
    requires KnownMode(f)
    requires 3 <= n < 3 + |SortedElems(f.staticcheckDefaultDisabled)|
    requires SortedElems(f.staticcheckDefaultDisabled)[n - 3] == "generated"
    ensures n < |TailTokens(f)| && TailTokens(f)[n - 1] != "rules" && TailTokens(f)[n - 2] != "source"
  {
    var sc := SortedElems(f.staticcheckDefaultDisabled);
    SortedAscends(f.staticcheckDefaultDisabled);
    TailAt(f, 0);
    TailAt(f, n - 1);
    TailAt(f, n - 2);
    assert n >= 4 ==> Less(sc[n - 4], sc[n - 3]);
    assert n >= 5 ==> Less(sc[n - 5], sc[n - 3]);
  }

  lemma TailNotLonger(f: Config, g: Config)
    requires KnownMode(f) && KnownMode(g) && Tokens(f) == Tokens(g)
    ensures |TailTokens(f)| <= |TailTokens(g)|
  {
    var n := |TailTokens(f)| - |TailTokens(g)|;
    if n > 0 {
      OneTailInside(f, g, n);
    }
  }

  lemma OneTailInside(f: Config, g: Config, n: nat)
    requires KnownMode(f) && KnownMode(g) && Tokens(f) == Tokens(g) && n > 0
    ensures |TailTokens(f)| != |TailTokens(g)| + n
  {
    var tf, tg, hf, hg := TailTokens(f), TailTokens(g), HeadTokens(f), HeadTokens(g);
    if |tf| == |tg| + n {
      assert hg == Tokens(f)[..|hg|] && hg == hf + tf[..n];
      assert tg == Tokens(f)[|hg|..] && tg == tf[n..];
      assert tg[0] == tf[n] && tg[1] == tf[n + 1];
      TailAt(g, 0);
      TailAt(g, 1);
      HeadEnds(g);
      assert n >= 2 ==> hg[|hg| - 1] == tf[n - 1] && hg[|hg| - 2] == tf[n - 2];
      TailStart(f, n);
      NoHeadBefore(f, n);
    }
  }

  lemma ChecksNotFewer(f: Config, g: Config)
    requires TailTokens(f) == TailTokens(g)
    ensures |SortedElems(f.staticcheckDefaultDisabled)| >= |SortedElems(g.staticcheckDefaultDisabled)|
  {
    var s, t := SortedElems(f.staticcheckDefaultDisabled), SortedElems(g.staticcheckDefaultDisabled);
    TailAt(f, 0);
    TailAt(g, 0);
    if |s| < |t| {
      SortedAscends(g.staticcheckDefaultDisabled);
      assert |s| + 2 < |t| ==> Less(t[|s|], t[|s| + 2]);
      TailAt(f, 3 + |s|);
      TailAt(g, 3 + |s|);
      KindAt(f);
      TailAt(g, 5 + |s|);
    }
  }

  /** Where there is a target, the second token after the marker is its kind. */
  lemma KindAt(f: Config)
    requires f.targetDirs != []
    ensures var n := 5 + |SortedElems(f.staticcheckDefaultDisabled)|;
            n < |TailTokens(f)| && TailTokens(f)[n] in {"recursive", "flat"}
  {
    TailAt(f, 0);
    TailAt(f, 5 + |SortedElems(f.staticcheckDefaultDisabled)|);
    TargetAt(f.targetDirs, 0);
  }

  lemma {:induction false} SameTargets(a: seq<TargetDir>, b: seq<TargetDir>)
    requires TargetTokens(a) == TargetTokens(b)
    ensures a == b
  {
    forall i | 0 <= i < |a|
      ensures a[i] == b[i]
    {
      TargetAt(a, i);
      TargetAt(b, i);
    }
  }

  /** The tail is read in one way. */
  lemma SameTail(f: Config, g: Config)
    requires TailTokens(f) == TailTokens(g)
    ensures f.generatedMode == g.generatedMode && f.staticcheckDefaultDisabled == g.staticcheckDefaultDisabled
    ensures f.targetDirs == g.targetDirs && f.uniqByLine == g.uniqByLine && f.nolint == g.nolint
  {
    ChecksNotFewer(f, g);
    ChecksNotFewer(g, f);
    TailAt(f, 1);
    TailAt(g, 1);
    var s, t := SortedElems(f.staticcheckDefaultDisabled), SortedElems(g.staticcheckDefaultDisabled);
    var a, b := ["generated", f.generatedMode, "staticcheck-default-disabled"], ["generated", g.generatedMode, "staticcheck-default-disabled"];
    var x, y := TargetTokens(f.targetDirs), TargetTokens(g.targetDirs);
    CutEnd(a + s + ["target-dirs"], x + FlagTokens(f), b + t + ["target-dirs"], y + FlagTokens(g));
    CutEnd(a + s, ["target-dirs"], b + t, ["target-dirs"]);
    CutEnd(a, s, b, t);
    CutEnd(x, FlagTokens(f), y, FlagTokens(g));
    SameListingSameSet(f.staticcheckDefaultDisabled, g.staticcheckDefaultDisabled);
    SameTargets(f.targetDirs, g.targetDirs);
    assert FlagTokens(f)[1] == FlagTokens(g)[1] && FlagTokens(f)[3] == FlagTokens(g)[3];
  }

  // ---- the marker before the rules ----

  /** The token at each position of a rule. */
  lemma RuleAt(r: Rule, o: nat)
    requires o < |RuleTokens(r)|
    ensures var t, ls := RuleTokens(r)[o], SortedElems(r.linters);
            && |RuleTokens(r)| == 9 + |ls|
            && (o == 0 ==> t == "linters") && (1 <= o < 1 + |ls| ==> t == ls[o - 1])
            && (1 + |ls| <= o ==> t == RestTokens(r)[o - 1 - |ls|])
  {
  }

  /** Within the tokens of one rule, only its source expression can be the marker before rules. */
  lemma MarkerInRule(r: Rule, o: nat)
    requires o < |RuleTokens(r)| && RuleTokens(r)[o] == "rules"
    requires o + 1 == |RuleTokens(r)| || RuleTokens(r)[o + 1] == "linters"
    ensures o + 1 == |RuleTokens(r)| && r.source == Some("rules")
  {
    SortedAscends(r.linters);
    RuleAt(r, o);
    if o + 1 < |RuleTokens(r)| {
      RuleAt(r, o + 1);
    }
  }

  /** A marker inside the tokens of rules ends one of them. */
  lemma {:induction false} MarkerInRules(rs: seq<Rule>, q: nat) returns (m: nat)
    requires q < |RulesTokens(rs)| && RulesTokens(rs)[q] == "rules"
    requires q + 1 == |RulesTokens(rs)| || RulesTokens(rs)[q + 1] == "linters"
    ensures m < |rs| && rs[m].source == Some("rules") && RulesTokens(rs)[..q + 1] == RulesTokens(rs[..m + 1])
    decreases |rs|
  {
    var us, r := rs[..|rs| - 1], rs[|rs| - 1];
    LastRule(rs);
    var u, all := RulesTokens(us), RulesTokens(rs);
    if q < |u| {
      assert all[q] == u[q] && (q + 1 < |u| ==> all[q + 1] == u[q + 1]);
      m := MarkerInRules(us, q);
      assert all[..q + 1] == u[..q + 1] && us[..m + 1] == rs[..m + 1];
    } else {
      var o := q - |u|;
      assert all[q] == RuleTokens(r)[o] && (o + 1 < |RuleTokens(r)| ==> all[q + 1] == RuleTokens(r)[o + 1]);
      MarkerInRule(r, o);
      m := |us|;
      assert rs[..m + 1] == rs && all[..q + 1] == all;
    }
  }

  lemma {:induction false} RulesPrint(rs: seq<Rule>)
    requires OnePaths(rs)
    ensures PrintsRules(RulesTokens(rs))
  {
    if rs != [] {
      var us, r := rs[..|rs| - 1], rs[|rs| - 1];
      var ts, n := RulesTokens(rs), |RulesTokens(us)|;
      RulesPrint(us);
      LastRule(rs);
      RulePrints(r);
      assert ts[..n] == RulesTokens(us) && ts[n..] == RuleTokens(r);
    }
  }

  lemma RulePrints(r: Rule)
    requires OnePath(r)
    ensures PrintsRule(RuleTokens(r))
  {
    var ts, n := RuleTokens(r), |RuleTokens(r)| - 8;
    SortedAscends(r.linters);
    assert ts[1..n] == SortedElems(r.linters);
    assert ts[n..] == RestTokens(r);
    assert forall i :: 0 <= i < 8 ==> ts[n + i] == RestTokens(r)[i];
  }

  /** Of two readings of the same head, the one with the earlier marker reads a marker as part of a rule. */
  lemma EarlierMarker(f: Config, g: Config) returns (m: nat)
    requires HeadTokens(f) == HeadTokens(g) && |ListTokens(f)| < |ListTokens(g)|
    ensures m < |f.rules| && f.rules[m].source == Some("rules")
    ensures ListTokens(g)[|ListTokens(f)|] == "rules"
    ensures ListTokens(g)[|ListTokens(f)| + 1..] + ["rules"] == RulesTokens(f.rules[..m + 1])
  {
    var h, lf, lg := HeadTokens(f), ListTokens(f), ListTokens(g);
    var rf, rg, q := RulesTokens(f.rules), RulesTokens(g.rules), |ListTokens(g)| - |ListTokens(f)| - 1;
    TwoMarkers(lf, rf, lg, rg);
    StartsWithLinters(g.rules);
    m := MarkerInRules(f.rules, q);
  }

  lemma TwoMarkers(lf: seq<string>, rf: seq<string>, lg: seq<string>, rg: seq<string>)
    requires lf + ["rules"] + rf == lg + ["rules"] + rg && |lf| < |lg|
    ensures var q := |lg| - |lf| - 1;
            && lg[|lf|] == "rules" && q < |rf| && rf[q] == "rules" && rf[q + 1..] == rg
            && lg[|lf| + 1..] + ["rules"] == rf[..q + 1]
  {
    var h, q := lf + ["rules"] + rf, |lg| - |lf| - 1;
    assert lg == h[..|lg|] && rf == h[|lf| + 1..] && rg == h[|lg| + 1..];
    assert h[|lf|] == "rules" && h[|lg|] == "rules";
    assert rf[..q] == h[|lf| + 1..|lg|] == lg[|lf| + 1..];
    assert rf[..q + 1] == rf[..q] + [rf[q]];
  }

  /** The token at each position of the two pattern lists. */
  lemma ListAt(f: Config, c: nat)
    requires 0 < c < |ListTokens(f)|
    ensures var t, p := ListTokens(f)[c], 1 + |f.pathPatterns|;
            && |ListTokens(f)| == p + 1 + |f.pathExceptPatterns|
            && (c < p ==> t == f.pathPatterns[c - 1]) && (c == p ==> t == "paths-except")
            && (c > p ==> t == f.pathExceptPatterns[c - p - 1])
  {
  }

  /** A marker inside the two pattern lists stands in the second one. */
  lemma MarkerInSecond(f: Config, g: Config)
    requires "paths-except" !in f.pathPatterns
    requires |ListTokens(g)| < |ListTokens(f)| && ListTokens(g) == ListTokens(f)[..|ListTokens(g)|]
    requires ListTokens(f)[|ListTokens(g)|] == "rules"
    ensures var i := |ListTokens(g)| - |f.pathPatterns| - 2;
            0 <= i < |f.pathExceptPatterns| && f.pathExceptPatterns[i] == "rules" &&
            ListTokens(f)[|ListTokens(g)| + 1..] == f.pathExceptPatterns[i + 1..]
  {
    var lf, lg, p := ListTokens(f), ListTokens(g), 1 + |f.pathPatterns|;
    var c := 1 + |g.pathPatterns|;
    assert lf[c] == lg[c] == "paths-except";
    ListAt(f, c);
    ListAt(f, |lg|);
  }

  /** Every linter of some rules is among their tokens, before the last one. */
  lemma {:induction false} LinterAmong(rs: seq<Rule>, i: nat, l: string)
    requires i < |rs| && l in rs[i].linters
    ensures RulesTokens(rs) != [] && l in RulesTokens(rs)[..|RulesTokens(rs)| - 1]
    decreases |rs|
  {
    var us, r, ts := rs[..|rs| - 1], rs[|rs| - 1], RulesTokens(rs);
    LastRule(rs);
    RuleEnd(RulesTokens(us), r);
    if i < |us| {
      LinterAmong(us, i, l);
      assert RulesTokens(us)[..|RulesTokens(us)| - 1] == ts[..|RulesTokens(us)| - 1];
    } else {
      assert l in SortedElems(r.linters);
      var j :| 0 <= j < |SortedElems(r.linters)| && SortedElems(r.linters)[j] == l;
      assert ts[|RulesTokens(us)| + 1 + j] == l;
    }
  }

  /** Linters that another filter reads among its patterns are patterns. */
  lemma LintersRead(compiles: string -> bool, g: Config, n: nat, rs: seq<Rule>)
    requires AllPatterns(compiles, g.pathPatterns) && AllPatterns(compiles, g.pathExceptPatterns)
    requires 0 < n <= |ListTokens(g)| && ListTokens(g)[n..] + ["rules"] == RulesTokens(rs)
    ensures LintersArePatterns(compiles, rs)
  {
    forall i, l | 0 <= i < |rs| && l in rs[i].linters
      ensures l == "paths-except" || Pattern(compiles, l)
    {
      LinterAmong(rs, i, l);
      assert RulesTokens(rs)[..|RulesTokens(rs)| - 1] == ListTokens(g)[n..];
      var c :| 0 <= c < |ListTokens(g)[n..]| && ListTokens(g)[n..][c] == l;
      assert ListTokens(g)[n + c] == l;
      ListAt(g, n + c);
    }
  }

  lemma MarkersAlign(compiles: string -> bool, f: Config, g: Config)
    requires HeadTokens(f) == HeadTokens(g) && Unambiguous(compiles, f) && Accepted(compiles, g)
    ensures |ListTokens(f)| == |ListTokens(g)|
  {
    if |ListTokens(f)| < |ListTokens(g)| {
      var m := EarlierMarker(f, g);
      LintersRead(compiles, g, |ListTokens(f)| + 1, f.rules[..m + 1]);
    } else if |ListTokens(g)| < |ListTokens(f)| {
      var m := EarlierMarker(g, f);
      assert ListTokens(g) == HeadTokens(f)[..|ListTokens(g)|];
      MarkerInSecond(f, g);
      RulesOnePath(compiles, g.rules);
      RulesPrint(g.rules[..m + 1]);
      assert EmbedsRules(f, |ListTokens(g)| - |f.pathPatterns| - 2);
    }
  }

  lemma SameLists(f: Config, g: Config)
    requires ListTokens(f) == ListTokens(g) && "paths-except" !in f.pathPatterns && "paths-except" !in f.pathExceptPatterns
    ensures f.pathPatterns == g.pathPatterns && f.pathExceptPatterns == g.pathExceptPatterns
  {
    var l, c, p := ListTokens(f), 1 + |g.pathPatterns|, 1 + |f.pathPatterns|;
    assert l[c] == ListTokens(g)[c] == "paths-except";
    ListAt(f, c);
    assert c == p;
    assert f.pathPatterns == l[1..p] && g.pathPatterns == l[1..p];
    assert f.pathExceptPatterns == l[p + 1..] && g.pathExceptPatterns == l[p + 1..];
  }

  /** The tokens of an unambiguous filter are no other filter's. */
  lemma ReadOnce(compiles: string -> bool, f: Config, g: Config)
    requires Accepted(compiles, f) && Accepted(compiles, g) && Unambiguous(compiles, f) && Tokens(f) == Tokens(g)
    ensures Fold(f) == Fold(g)
  {
    TailNotLonger(f, g);
    TailNotLonger(g, f);
    CutEnd(HeadTokens(f), TailTokens(f), HeadTokens(g), TailTokens(g));
    SameTail(f, g);
    MarkersAlign(compiles, f, g);
    HeadParts(f, g);
    SameLists(f, g);
    RulesOnePath(compiles, f.rules);
    SameRules(f.rules, g.rules);
  }

  lemma RulesOnePath(compiles: string -> bool, rules: seq<Rule>)
    requires AllValid(compiles, rules)
    ensures OnePaths(rules)
  {
    forall i | 0 <= i < |rules|
      ensures OnePath(rules[i])
    {
      assert ValidRule(compiles, rules[i]);
    }
  }

  lemma HeadParts(f: Config, g: Config)
    requires HeadTokens(f) == HeadTokens(g) && |ListTokens(f)| == |ListTokens(g)|
    ensures ListTokens(f) == ListTokens(g) && RulesTokens(f.rules) == RulesTokens(g.rules)
  {
    var h, n := HeadTokens(f), |ListTokens(f)|;
    assert ListTokens(f) == h[..n] && ListTokens(g) == h[..n];
    assert RulesTokens(f.rules) == h[n + 1..] && RulesTokens(g.rules) == h[n + 1..];
  }
}
