// Segment globbing with "**" (internal/bench/exclude.go).

module Glob {
  import opened Paths

  /** filepath.Match on one segment: matched, and the pattern is well formed. */
  type SegmentMatch = (string, string) -> bool

  /** The i-th pattern takes the name between its two cuts: "**" any run, every other one segment that it matches. */
  ghost predicate Takes(m: SegmentMatch, pat: seq<string>, name: seq<string>, cuts: seq<nat>, i: nat)
    requires |cuts| == |pat| + 1 && i < |pat|
  {
    && cuts[i] <= cuts[i + 1] <= |name|
    && (pat[i] != "**" ==> cuts[i + 1] == cuts[i] + 1 && m(pat[i], name[cuts[i]]))
  }

  /** cuts divides the whole name among the patterns, in order. */
  ghost predicate IsCut(m: SegmentMatch, pat: seq<string>, name: seq<string>, cuts: seq<nat>)
  {
    && |cuts| == |pat| + 1 && cuts[0] == 0 && cuts[|pat|] == |name|
    && (forall i :: 0 <= i < |pat| ==> Takes(m, pat, name, cuts, i))
  }

  ghost predicate Matches(m: SegmentMatch, pat: seq<string>, name: seq<string>)
  {
    exists cuts :: IsCut(m, pat, name, cuts)
  }

  function Shifted(cuts: seq<nat>, offset: nat): seq<nat>
  {
    seq(|cuts|, i requires 0 <= i < |cuts| => cuts[i] + offset)
  }

  /** A cut of the rest extends to a cut of the whole. */
  lemma CutFront(m: SegmentMatch, pat: seq<string>, name: seq<string>, i: nat, cuts: seq<nat>)
    requires pat != [] && i <= |name| && IsCut(m, pat[1..], name[i..], cuts)
    requires pat[0] != "**" ==> i == 1 && m(pat[0], name[0])
    ensures Matches(m, pat, name)
  {
    var all := [0] + Shifted(cuts, i);
    forall j | 0 <= j < |pat|
      ensures Takes(m, pat, name, all, j)
    {
      if j > 0 {
        assert Takes(m, pat[1..], name[i..], cuts, j - 1);
        assert pat[j] == pat[1..][j - 1] && all[j] == cuts[j - 1] + i && all[j + 1] == cuts[j] + i;
      }
    }
    assert IsCut(m, pat, name, all);
  }

  /** A cut of the whole restricts to a cut of the rest. */
  lemma CutRest(m: SegmentMatch, pat: seq<string>, name: seq<string>, cuts: seq<nat>)
    requires pat != [] && IsCut(m, pat, name, cuts)
    ensures cuts[1] <= |name| && Matches(m, pat[1..], name[cuts[1]..])
  {
    var i := cuts[1];
    assert Takes(m, pat, name, cuts, 0);
    CutsAscend(m, pat, name, cuts, 1);
    var rest := seq(|pat|, j requires 0 <= j < |pat| => (cuts[j + 1] - i) as nat);
    forall j | 0 <= j < |pat| - 1
      ensures Takes(m, pat[1..], name[i..], rest, j)
    {
      assert Takes(m, pat, name, cuts, j + 1);
    }
    assert IsCut(m, pat[1..], name[i..], rest);
  }

  lemma {:induction false} CutsAscend(m: SegmentMatch, pat: seq<string>, name: seq<string>, cuts: seq<nat>, i: nat)
    requires IsCut(m, pat, name, cuts) && i <= |pat|
    ensures forall j :: i <= j <= |pat| ==> cuts[i] <= cuts[j]
    decreases |pat| - i
  {
    if i < |pat| {
      assert Takes(m, pat, name, cuts, i);
      CutsAscend(m, pat, name, cuts, i + 1);
    }
  }

  lemma StarStep(m: SegmentMatch, pat: seq<string>, name: seq<string>)
    requires pat != [] && pat[0] == "**"
    ensures Matches(m, pat, name) <==> exists i :: 0 <= i <= |name| && Matches(m, pat[1..], name[i..])
  {
    if Matches(m, pat, name) {
      var cuts :| IsCut(m, pat, name, cuts);
      CutRest(m, pat, name, cuts);
    }
    if i :| 0 <= i <= |name| && Matches(m, pat[1..], name[i..]) {
      var cuts :| IsCut(m, pat[1..], name[i..], cuts);
      CutFront(m, pat, name, i, cuts);
    }
  }

  lemma PlainStep(m: SegmentMatch, pat: seq<string>, name: seq<string>)
    requires pat != [] && pat[0] != "**"
    ensures Matches(m, pat, name) <==> name != [] && m(pat[0], name[0]) && Matches(m, pat[1..], name[1..])
  {
    if Matches(m, pat, name) {
      var cuts :| IsCut(m, pat, name, cuts);
      assert Takes(m, pat, name, cuts, 0);
      CutRest(m, pat, name, cuts);
    }
    if name != [] && m(pat[0], name[0]) && Matches(m, pat[1..], name[1..]) {
      var cuts :| IsCut(m, pat[1..], name[1..], cuts);
      CutFront(m, pat, name, 1, cuts);
    }
  }

  lemma NoPattern(m: SegmentMatch, name: seq<string>)
    ensures Matches(m, [], name) <==> name == []
  {
    if name == [] {
      assert IsCut(m, [], name, [0]);
    }
  }

  lemma LastStar(m: SegmentMatch, name: seq<string>)
    ensures Matches(m, ["**"], name)
  {
    assert IsCut(m, ["**"], name, [0, |name|]);
  }

  /** matchSegs holds exactly when the name can be cut as the pattern asks. */
  method MatchSegs(m: SegmentMatch, pattern: seq<string>, segments: seq<string>) returns (ok: bool)
    ensures ok <==> Matches(m, pattern, segments)
    decreases |pattern|
  {
    var pat, name := pattern, segments;
    while |pat| > 0
      invariant |pat| <= |pattern|
      invariant Matches(m, pat, name) <==> Matches(m, pattern, segments)
      decreases |pat|
    {
      if pat[0] == "**" {
        if |pat| == 1 {
          assert pat == ["**"];
          LastStar(m, name);
          return true;
        }
        StarStep(m, pat, name);
        for i := 0 to |name| + 1
          invariant forall j :: 0 <= j < i ==> !Matches(m, pat[1..], name[j..])
        {
          var found := MatchSegs(m, pat[1..], name[i..]);
          if found { return true; }
        }
        return false;
      }
      PlainStep(m, pat, name);
      if |name| == 0 { return false; }
      if !m(pat[0], name[0]) { return false; }
      pat := pat[1..];
      name := name[1..];
    }
    NoPattern(m, name);
    return |name| == 0;
  }

  /** matchDoubleStar. */
  method MatchDoubleStar(m: SegmentMatch, pattern: string, name: string) returns (ok: bool)
    ensures ok <==> Matches(m, Split(pattern), Split(name))
  {
    ok := MatchSegs(m, Split(pattern), Split(name));
  }
}
