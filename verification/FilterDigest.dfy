// ConfigDigest (internal/exclusion/exclusion.go): which filters it tells apart,
// and the loop that feeds the hasher.

module FilterDigest {
  import opened Strings
  import opened Framing
  import opened Sorting
  import opened Diagnostics
  import opened Exclusion
  import opened FilterTokens

  ghost function ConfigHash(sha: Sha, f: Option<Config>): Digest
  {
    match f case None => ZERO_DIGEST case Some(c) => sha(Frames(Tokens(c)))
  }

  // ---- filters that share their tokens ----

  /** Another filter the program accepts, with the same tokens. */
  ghost predicate Collides(compiles: string -> bool, f: Config, g: Config)
  {
    Accepted(compiles, g) && Tokens(g) == Tokens(f) && Fold(g) != Fold(f)
  }

  lemma SameListsCollide(compiles: string -> bool, f: Config, g: Config)
    requires Accepted(compiles, f) && f.uniqByLine && g == f.(pathPatterns := g.pathPatterns, pathExceptPatterns := g.pathExceptPatterns)
    requires AllPatterns(compiles, g.pathPatterns) && AllPatterns(compiles, g.pathExceptPatterns)
    requires ListTokens(g) == ListTokens(f) && |g.pathPatterns| != |f.pathPatterns|
    ensures Collides(compiles, f, g)
  {
  }

  /** A path pattern spelled like the separator. */
  lemma SeparatorInPaths(compiles: string -> bool, f: Config, i: nat)
    requires Accepted(compiles, f) && i < |f.pathPatterns| && f.pathPatterns[i] == "paths-except"
    ensures Collides(compiles, f, f.(pathPatterns := f.pathPatterns[..i],
                                     pathExceptPatterns := f.pathPatterns[i + 1..] + ["paths-except"] + f.pathExceptPatterns))
  {
    var g := f.(pathPatterns := f.pathPatterns[..i],
                pathExceptPatterns := f.pathPatterns[i + 1..] + ["paths-except"] + f.pathExceptPatterns);
    assert f.pathPatterns == f.pathPatterns[..i] + ["paths-except"] + f.pathPatterns[i + 1..];
    assert ListTokens(g) == ListTokens(f);
    SameListsCollide(compiles, f, g);
  }

  /** A path-except pattern spelled like the separator. */
  lemma SeparatorInExcept(compiles: string -> bool, f: Config, i: nat)
    requires Accepted(compiles, f) && i < |f.pathExceptPatterns| && f.pathExceptPatterns[i] == "paths-except"
    ensures Collides(compiles, f, f.(pathPatterns := f.pathPatterns + ["paths-except"] + f.pathExceptPatterns[..i],
                                     pathExceptPatterns := f.pathExceptPatterns[i + 1..]))
  {
    var g := f.(pathPatterns := f.pathPatterns + ["paths-except"] + f.pathExceptPatterns[..i],
                pathExceptPatterns := f.pathExceptPatterns[i + 1..]);
    assert f.pathExceptPatterns == f.pathExceptPatterns[..i] + ["paths-except"] + f.pathExceptPatterns[i + 1..];
    assert ListTokens(g) == ListTokens(f);
    SameListsCollide(compiles, f, g);
  }

  lemma Assoc(a: seq<string>, b: seq<string>, c: seq<string>)
    ensures a + (b + c) == (a + b) + c
  {
  }

  lemma {:induction false} RulesAppend(a: seq<Rule>, b: seq<Rule>)
    ensures RulesTokens(a + b) == RulesTokens(a) + RulesTokens(b)
    decreases |b|
  {
    if b == [] {
      assert a + b == a;
    } else {
      var c, r := b[..|b| - 1], b[|b| - 1];
      RulesAppend(a, c);
      LastRule(b);
      LastRule(a + b);
      assert (a + b)[..|a + b| - 1] == a + c && (a + b)[|a + b| - 1] == r;
      Assoc(RulesTokens(a), RulesTokens(c), RuleTokens(r));
    }
  }

  lemma SameHeadCollide(compiles: string -> bool, f: Config, g: Config)
    requires Accepted(compiles, f) && f.uniqByLine && g == f.(pathExceptPatterns := g.pathExceptPatterns, rules := g.rules)
    requires AllPatterns(compiles, g.pathExceptPatterns) && AllValid(compiles, g.rules)
    requires HeadTokens(g) == HeadTokens(f) && |g.pathExceptPatterns| != |f.pathExceptPatterns|
    ensures Collides(compiles, f, g)
  {
    assert TailTokens(g) == TailTokens(f);
  }

  /** The words ConfigDigest writes are regular expressions, as plain words are. */
  predicate WordsCompile(compiles: string -> bool)
  {
    && compiles("rules") && compiles("linters") && compiles("path") && compiles("path-except") && compiles("paths-except")
    && compiles("text") && compiles("source") && compiles(NIL_MARKER)
  }

  lemma AppendPatterns(compiles: string -> bool, a: seq<string>, b: seq<string>)
    requires AllPatterns(compiles, a) && AllPatterns(compiles, b)
    ensures AllPatterns(compiles, a + b)
  {
  }

  lemma RestPatterns(compiles: string -> bool, r: Rule)
    requires WordsCompile(compiles) && ValidRule(compiles, r)
    ensures AllPatterns(compiles, RestTokens(r))
  {
  }

  /** Where the linters are patterns, so is everything a rule writes. */
  lemma {:induction false} TokensArePatterns(compiles: string -> bool, rs: seq<Rule>)
    requires WordsCompile(compiles) && AllValid(compiles, rs) && LintersArePatterns(compiles, rs)
    ensures AllPatterns(compiles, RulesTokens(rs))
    decreases |rs|
  {
    if rs != [] {
      var us, r := rs[..|rs| - 1], rs[|rs| - 1];
      TokensArePatterns(compiles, us);
      LintersAsPatterns(compiles, r);
      RestPatterns(compiles, r);
      AppendPatterns(compiles, ["linters"] + SortedElems(r.linters), RestTokens(r));
      AppendPatterns(compiles, RulesTokens(us), RuleTokens(r));
    }
  }

  lemma LintersAsPatterns(compiles: string -> bool, r: Rule)
    requires WordsCompile(compiles) && LintersArePatterns(compiles, [r])
    ensures AllPatterns(compiles, ["linters"] + SortedElems(r.linters))
  {
    var ls := SortedElems(r.linters);
    forall i | 0 <= i < |ls|
      ensures Pattern(compiles, ls[i])
    {
      assert ls[i] in [r][0].linters;
    }
  }

  /** A source expression spelled like the marker before the rules. */
  lemma SourceIsMarker(compiles: string -> bool, f: Config, m: nat) returns (g: Config)
    requires WordsCompile(compiles) && Accepted(compiles, f)
    requires m < |f.rules| && f.rules[m].source == Some("rules") && LintersArePatterns(compiles, f.rules[..m + 1])
    ensures Collides(compiles, f, g)
  {
    var rs, rest := f.rules[..m + 1], f.rules[m + 1..];
    var ts := RulesTokens(rs);
    EndsInMarker(rs);
    RulesAppend(rs, rest);
    assert rs + rest == f.rules;
    var more := ["rules"] + ts[..|ts| - 1];
    g := f.(pathExceptPatterns := f.pathExceptPatterns + more, rules := rest);
    MarkerMoved(ListTokens(f), ts, RulesTokens(rest));
    MoreExcept(f, g, more);
    TokensArePatterns(compiles, rs);
    AppendPatterns(compiles, ["rules"], ts[..|ts| - 1]);
    AppendPatterns(compiles, f.pathExceptPatterns, more);
    SameHeadCollide(compiles, f, g);
  }

  lemma MoreExcept(f: Config, g: Config, more: seq<string>)
    requires g.pathPatterns == f.pathPatterns && g.pathExceptPatterns == f.pathExceptPatterns + more
    ensures ListTokens(g) == ListTokens(f) + more
  {
  }

  lemma EndsInMarker(rs: seq<Rule>)
    requires rs != [] && rs[|rs| - 1].source == Some("rules")
    ensures var ts := RulesTokens(rs); ts != [] && ts[|ts| - 1] == "rules"
  {
    LastRule(rs);
    RuleEndAt(RulesTokens(rs[..|rs| - 1]), rs[|rs| - 1], 7);
  }

  lemma MarkerMoved(l: seq<string>, ts: seq<string>, rest: seq<string>)
    requires ts != [] && ts[|ts| - 1] == "rules"
    ensures l + (["rules"] + ts[..|ts| - 1]) + ["rules"] + rest == l + ["rules"] + (ts + rest)
  {
    assert ts == ts[..|ts| - 1] + ["rules"];
  }

  lemma CutTokens(ts: seq<string>, n: nat)
    requires n <= |ts|
    ensures ts == ts[..n] + ts[n..]
  {
  }

  lemma SnocTokens(rs: seq<Rule>, r: Rule)
    ensures RulesTokens(rs + [r]) == RulesTokens(rs) + RuleTokens(r)
  {
    assert (rs + [r])[..|rs|] == rs;
  }

  lemma {:induction false} PrintedBy(compiles: string -> bool, ts: seq<string>) returns (rs: seq<Rule>)
    requires PrintsRules(ts) && AllPatterns(compiles, ts)
    ensures RulesTokens(rs) == ts && AllValid(compiles, rs)
    decreases |ts|
  {
    if ts == [] {
      rs := [];
    } else {
      var n :| 0 <= n < |ts| && PrintsRules(ts[..n]) && PrintsRule(ts[n..]);
      var us := PrintedBy(compiles, ts[..n]);
      var r := PrintedByRule(compiles, ts[n..]);
      rs := us + [r];
      SnocTokens(us, r);
      CutTokens(ts, n);
    }
  }

  /** The nil marker stands for an absent path, and for itself in the other two places, so there are conditions enough. */
  lemma PrintedByRule(compiles: string -> bool, ts: seq<string>) returns (r: Rule)
    requires PrintsRule(ts) && AllPatterns(compiles, ts)
    ensures RuleTokens(r) == ts && ValidRule(compiles, r)
  {
    var n := |ts| - 8;
    r := Rule(SetOf(ts[1..n]), ReOf(ts[n + 1]), ReOf(ts[n + 3]), Some(ts[n + 5]), Some(ts[n + 7]));
    AscendingIsSorted(ts[1..n]);
    assert ts[n..] == RestTokens(r);
    assert ts == ["linters"] + ts[1..n] + ts[n..];
  }

  /** Path-except patterns that read as rules. */
  lemma PatternsAreRules(compiles: string -> bool, f: Config, i: nat) returns (g: Config)
    requires Accepted(compiles, f) && EmbedsRules(f, i)
    ensures Collides(compiles, f, g)
  {
    var except := f.pathExceptPatterns;
    assert Pattern(compiles, except[i]);
    AppendPatterns(compiles, except[i + 1..], ["rules"]);
    var rs := PrintedBy(compiles, except[i + 1..] + ["rules"]);
    g := f.(pathExceptPatterns := except[..i], rules := rs + f.rules);
    RulesAppend(rs, f.rules);
    SameTokensMoved(f, g, i, RulesTokens(rs));
    SameHeadCollide(compiles, f, g);
  }

  lemma SameTokensMoved(f: Config, g: Config, i: nat, ts: seq<string>)
    requires i < |f.pathExceptPatterns| && f.pathExceptPatterns[i] == "rules" && ts == f.pathExceptPatterns[i + 1..] + ["rules"]
    requires g.pathPatterns == f.pathPatterns && g.pathExceptPatterns == f.pathExceptPatterns[..i]
    requires RulesTokens(g.rules) == ts + RulesTokens(f.rules)
    ensures HeadTokens(g) == HeadTokens(f)
  {
    var except := f.pathExceptPatterns;
    assert except == except[..i] + ["rules"] + except[i + 1..];
    assert ListTokens(f) == ListTokens(g) + ["rules"] + except[i + 1..];
    Assoc(except[i + 1..], ["rules"], RulesTokens(f.rules));
    Assoc(ListTokens(g) + ["rules"], except[i + 1..], ["rules"] + RulesTokens(f.rules));
  }

  // ---- the exact condition ----

  lemma AmbiguousLists(compiles: string -> bool, f: Config) returns (g: Config)
    requires Accepted(compiles, f) && !ListsApart(f)
    ensures Collides(compiles, f, g)
  {
    if i :| 0 <= i < |f.pathPatterns| && f.pathPatterns[i] == "paths-except" {
      SeparatorInPaths(compiles, f, i);
      g := f.(pathPatterns := f.pathPatterns[..i],
              pathExceptPatterns := f.pathPatterns[i + 1..] + ["paths-except"] + f.pathExceptPatterns);
    } else {
      var i :| 0 <= i < |f.pathExceptPatterns| && f.pathExceptPatterns[i] == "paths-except";
      SeparatorInExcept(compiles, f, i);
      g := f.(pathPatterns := f.pathPatterns + ["paths-except"] + f.pathExceptPatterns[..i],
              pathExceptPatterns := f.pathExceptPatterns[i + 1..]);
    }
  }

  lemma AmbiguousSource(compiles: string -> bool, f: Config) returns (g: Config)
    requires WordsCompile(compiles) && Accepted(compiles, f) && !NoMarkerSource(compiles, f.rules)
    ensures Collides(compiles, f, g)
  {
    var m :| 0 <= m < |f.rules| && f.rules[m].source == Some("rules") && LintersArePatterns(compiles, f.rules[..m + 1]);
    g := SourceIsMarker(compiles, f, m);
  }

  lemma AmbiguousPatterns(compiles: string -> bool, f: Config) returns (g: Config)
    requires Accepted(compiles, f) && !NothingEmbedded(f)
    ensures Collides(compiles, f, g)
  {
    var i :| EmbedsRules(f, i);
    g := PatternsAreRules(compiles, f, i);
  }

  lemma AmbiguousCollides(compiles: string -> bool, f: Config) returns (g: Config)
    requires WordsCompile(compiles) && Accepted(compiles, f) && !Unambiguous(compiles, f)
    ensures Collides(compiles, f, g)
  {
    if !ListsApart(f) {
      g := AmbiguousLists(compiles, f);
    } else if !NoMarkerSource(compiles, f.rules) {
      g := AmbiguousSource(compiles, f);
    } else {
      g := AmbiguousPatterns(compiles, f);
    }
  }

  /** Among the filters the program accepts, the tokens of one are no other's if and only if it is unambiguous. */
  lemma DeterminedExactly(compiles: string -> bool, f: Config)
    requires WordsCompile(compiles) && Accepted(compiles, f)
    ensures Determined(compiles, f) <==> Unambiguous(compiles, f)
  {
    if Unambiguous(compiles, f) {
      forall g | Accepted(compiles, g) && Tokens(g) == Tokens(f)
        ensures Fold(g) == Fold(f)
      {
        ReadOnce(compiles, f, g);
      }
    } else {
      var g := AmbiguousCollides(compiles, f);
    }
  }

  lemma {:induction false} FoldedRulesTokens(rs: seq<Rule>, qs: seq<Rule>)
    requires |rs| == |qs| && forall i :: 0 <= i < |rs| ==> FoldRule(rs[i]) == FoldRule(qs[i])
    ensures RulesTokens(rs) == RulesTokens(qs)
    decreases |rs|
  {
    if rs != [] {
      FoldedRulesTokens(rs[..|rs| - 1], qs[..|qs| - 1]);
      SameFoldSameTokens(rs[|rs| - 1], qs[|qs| - 1]);
    }
  }

  lemma FoldedPointwise(rs: seq<Rule>, qs: seq<Rule>)
    requires FoldRules(rs) == FoldRules(qs)
    ensures |rs| == |qs| && forall i :: 0 <= i < |rs| ==> FoldRule(rs[i]) == FoldRule(qs[i])
  {
    assert |rs| == |FoldRules(rs)| == |qs|;
    assert forall i :: 0 <= i < |rs| ==> FoldRules(rs)[i] == FoldRules(qs)[i];
  }

  lemma SameFoldSameTokens(r: Rule, q: Rule)
    requires FoldRule(r) == FoldRule(q)
    ensures RuleTokens(r) == RuleTokens(q)
  {
    assert Res(r) == Res(q);
  }

  /** The base path is not hashed, and an expression spelled like the nil marker hashes like none. */
  lemma FoldedTokens(f: Config, g: Config)
    requires Fold(f) == Fold(g)
    ensures Tokens(f) == Tokens(g)
  {
    FoldedPointwise(f.rules, g.rules);
    FoldedRulesTokens(f.rules, g.rules);
    assert Fold(f).pathPatterns == f.pathPatterns && Fold(g).pathPatterns == g.pathPatterns;
  }

  /** Every rule that leaves its source expression out shares its tokens with one that has the marker there. */
  lemma NilCollides(compiles: string -> bool, f: Config, i: nat)
    requires WordsCompile(compiles) && Accepted(compiles, f) && i < |f.rules| && f.rules[i].source.None?
    ensures var g := f.(rules := f.rules[i := f.rules[i].(source := Some(NIL_MARKER))]);
            g != f && Accepted(compiles, g) && Tokens(g) == Tokens(f)
  {
    var g := f.(rules := f.rules[i := f.rules[i].(source := Some(NIL_MARKER))]);
    assert g.rules[i] != f.rules[i];
    assert FoldRules(g.rules) == FoldRules(f.rules);
    FoldedTokens(f, g);
    assert ValidRule(compiles, f.rules[i]);
    assert ValidRule(compiles, g.rules[i]);
  }

  // ---- what equal digests mean ----

  /** No expression is spelled like the nil marker. */
  predicate NilFree(f: Config)
  {
    forall i :: 0 <= i < |f.rules| ==> FoldRule(f.rules[i]) == f.rules[i]
  }

  lemma NilFreeFold(f: Config)
    requires NilFree(f)
    ensures FoldRules(f.rules) == f.rules
  {
  }

  /**
   * Digest soundness: a filter with the digest of an unambiguous one is that
   * filter up to its base path, so it decides alike on every relative path.
   */
  lemma DigestSound(compiles: string -> bool, sha: Sha, u: set<string>, f: Option<Config>, g: Option<Config>)
    requires CollisionFree(sha, u)
    requires f.Some? ==> Accepted(compiles, f.value) && NilFree(f.value) && Unambiguous(compiles, f.value) && Frames(Tokens(f.value)) in u
    requires g.Some? ==> Accepted(compiles, g.value) && NilFree(g.value) && Frames(Tokens(g.value)) in u
    requires ConfigHash(sha, f) == ConfigHash(sha, g)
    ensures f.Some? == g.Some?
    ensures f.Some? ==> g.value == f.value.(basePath := g.value.basePath)
  {
    if f.Some? && g.Some? {
      SameHash(sha, u, Frames(Tokens(f.value)), Frames(Tokens(g.value)));
      FramesInjective(Tokens(f.value), Tokens(g.value));
      ReadOnce(compiles, f.value, g.value);
      NilFreeFold(f.value);
      NilFreeFold(g.value);
      SameButBase(f.value, g.value);
    }
  }

  lemma SameButBase(f: Config, g: Config)
    requires Fold(f) == Fold(g) && FoldRules(f.rules) == f.rules && FoldRules(g.rules) == g.rules
    ensures g == f.(basePath := g.basePath)
  {
    var x, y := Fold(f), Fold(g);
    assert x.pathPatterns == y.pathPatterns && x.pathExceptPatterns == y.pathExceptPatterns && x.rules == y.rules;
  }

  /**
   * Two configurations the program accepts share a digest and decide differently:
   * one drops what the other keeps.
   */
  lemma CollisionChangesDecision(h: Host, disk: Files, base: string, d: Diagnostic)
    requires h.compiles("paths-except") && h.compiles("vendor") && !Suppressed(h, disk, d) && !LibraryVersionSkew(d)
    requires forall p :: p in {"paths-except", "vendor"} ==> !h.matches(p, RelativePath(h, NewFilter(None, base, []), d.pos.filename))
    ensures var f := NewFilter(Some(Settings(["paths-except", "vendor"], [], [], [], MODE_DISABLE, {})), base, []);
            var g := NewFilter(Some(Settings([], ["vendor", "paths-except"], [], [], MODE_DISABLE, {})), base, []);
            && Accepted(h.compiles, f) && Accepted(h.compiles, g) && Tokens(f) == Tokens(g)
            && !Drops(h, disk, f, d) && Drops(h, disk, g, d)
  {
    var f := NewFilter(Some(Settings(["paths-except", "vendor"], [], [], [], MODE_DISABLE, {})), base, []);
    var g := NewFilter(Some(Settings([], ["vendor", "paths-except"], [], [], MODE_DISABLE, {})), base, []);
    SeparatorInPaths(h.compiles, f, 0);
    assert f.pathPatterns[..0] == [] && f.pathPatterns[1..] + ["paths-except"] + [] == g.pathExceptPatterns;
    var rel := RelativePath(h, f, d.pos.filename);
    assert rel == RelativePath(h, g, d.pos.filename) == RelativePath(h, NewFilter(None, base, []), d.pos.filename);
    assert !MatchesAny(h, f.pathPatterns, rel) && !MatchesAny(h, g.pathExceptPatterns, rel);
  }

  // ---- the hashing loop ----

  /** The strings written so far; each is hashed length-prefixed, as in NewActionID. */
  class TokenWriter {
    var tokens: seq<string>

    constructor ()
      ensures tokens == []
    {
      tokens := [];
    }

    method WriteStr(s: string)
      modifies this
      ensures tokens == old(tokens) + [s]
    {
      tokens := tokens + [s];
    }

    method WriteAll(ss: seq<string>)
      modifies this
      ensures tokens == old(tokens) + ss
    {
      for i := 0 to |ss|
        invariant tokens == old(tokens) + ss[..i]
      {
        WriteStr(ss[i]);
        assert ss[..i] + [ss[i]] == ss[..i + 1];
      }
      assert ss[..|ss|] == ss;
    }

    /** A set, enumerated in any order and sorted. */
    method WriteSet(elems: set<string>)
      modifies this
      ensures tokens == old(tokens) + SortedElems(elems)
    {
      var ls := EnumerateSet(elems);
      SortedListing(ls, elems);
      WriteAll(Sort(Self, ls));
    }

    method WriteRule(r: Rule)
      modifies this
      ensures tokens == old(tokens) + RuleTokens(r)
    {
      WriteStr("linters");
      WriteSet(r.linters);
      WriteAll(["path", ReToken(r.path), "path-except", ReToken(r.pathExcept),
                "text", ReToken(r.text), "source", ReToken(r.source)]);
    }

    method WriteRules(rules: seq<Rule>)
      modifies this
      ensures tokens == old(tokens) + RulesTokens(rules)
    {
      for i := 0 to |rules|
        invariant tokens == old(tokens) + RulesTokens(rules[..i])
      {
        assert rules[..i + 1][..i] == rules[..i];
        WriteRule(rules[i]);
      }
      assert rules[..|rules|] == rules;
    }

    method WriteTargets(targets: seq<TargetDir>)
      modifies this
      ensures tokens == old(tokens) + TargetTokens(targets)
    {
      for i := 0 to |targets|
        invariant tokens == old(tokens) + TargetTokens(targets[..i])
      {
        assert targets[..i + 1][..i] == targets[..i];
        WriteStr(targets[i].dir);
        WriteStr(if targets[i].recursive then "recursive" else "flat");
      }
      assert targets[..|targets|] == targets;
    }

    method WriteTail(f: Config)
      modifies this
      ensures tokens == old(tokens) + TailTokens(f)
    {
      WriteAll(["generated", f.generatedMode, "staticcheck-default-disabled"]);
      WriteSet(f.staticcheckDefaultDisabled);
      WriteStr("target-dirs");
      WriteTargets(f.targetDirs);
      WriteAll(FlagTokens(f));
    }
  }

  /** ConfigDigest, for any enumeration order of its sets. */
  method ConfigDigest(sha: Sha, f: Option<Config>) returns (d: Digest)
    ensures d == ConfigHash(sha, f)
  {
    if f.None? { return ZERO_DIGEST; }
    var c := f.value;
    var w := new TokenWriter();
    w.WriteStr("paths");
    w.WriteAll(c.pathPatterns);
    w.WriteStr("paths-except");
    w.WriteAll(c.pathExceptPatterns);
    assert w.tokens == ListTokens(c);
    w.WriteStr("rules");
    w.WriteRules(c.rules);
    w.WriteTail(c);
    d := NewActionID(sha, w.tokens);
  }
}
