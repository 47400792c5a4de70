// The parts of Go's path/filepath (on a slash-separated host) that decide how
// files are named: Base, Dir, Clean and a two-element Join.

module Paths {

  predicate IsAbs(p: string)
  {
    p != "" && p[0] == '/'
  }

  function TrimSlashes(p: string): (r: string)
    ensures r <= p
    ensures r == "" || r[|r| - 1] != '/'
    ensures p != "" && p[|p| - 1] != '/' ==> r == p
  {
    if p == "" || p[|p| - 1] != '/' then p else TrimSlashes(p[..|p| - 1])
  }

  /** What follows the last slash. */
  function AfterLastSlash(p: string): (r: string)
    ensures |r| <= |p| && r == p[|p| - |r|..]
    ensures '/' !in r
    ensures r == p || p[|p| - |r| - 1] == '/'
  {
    if p == "" || p[|p| - 1] == '/' then "" else AfterLastSlash(p[..|p| - 1]) + [p[|p| - 1]]
  }

  lemma {:induction false} AfterSlash(p: string, i: nat)
    requires i < |p| && p[i] == '/' && '/' !in p[i + 1..]
    ensures AfterLastSlash(p) == p[i + 1..]
  {
    assert i < |p| - 1 ==> p[|p| - 1] in p[i + 1..];
    if i < |p| - 1 {
      var q := p[..|p| - 1];
      assert q[i + 1..] + [p[|p| - 1]] == p[i + 1..];
      AfterSlash(q, i);
    }
  }

  lemma AfterLastSlashUnique(pre: string, base: string)
    requires '/' !in base
    ensures AfterLastSlash(pre + "/" + base) == base
  {
    var p := pre + "/" + base;
    assert p[|pre| + 1..] == base;
    AfterSlash(p, |pre|);
  }

  /** filepath.Base. */
  function Base(p: string): (r: string)
    ensures r != "" && (r == "/" || '/' !in r)
  {
    if p == "" then "."
    else
      var t := TrimSlashes(p);
      if t == "" then "/"
      else
        var b := AfterLastSlash(t);
        assert t == t[..|t| - |b|] + b;
        b
  }

  // ---- Clean ----

  function Split(p: string): (segs: seq<string>)
    ensures segs != [] && forall i :: 0 <= i < |segs| ==> '/' !in segs[i]
  {
    if p == "" then [""]
    else
      var rest := Split(p[1..]);
      if p[0] == '/' then [""] + rest else [[p[0]] + rest[0]] + rest[1..]
  }

  function JoinSegs(segs: seq<string>): string
  {
    if segs == [] then ""
    else if |segs| == 1 then segs[0]
    else segs[0] + "/" + JoinSegs(segs[1..])
  }

  /** Clean's scan: empty and "." segments vanish, ".." backs up where it can. */
  function Fold(rooted: bool, out: seq<string>, segs: seq<string>): seq<string>
    decreases segs
  {
    if segs == [] then out
    else
      var s := segs[0];
      var next :=
        if s == "" || s == "." then out
        else if s == ".." then
          if out != [] && out[|out| - 1] != ".." then out[..|out| - 1]
          else if rooted then out
          else out + [s]
        else out + [s];
      Fold(rooted, next, segs[1..])
  }

  /** filepath.Clean. */
  function Clean(p: string): string
  {
    if p == "" then "."
    else
      var segs := Fold(IsAbs(p), [], Split(p));
      if IsAbs(p) then "/" + JoinSegs(segs)
      else if segs == [] then "."
      else JoinSegs(segs)
  }

  /** filepath.Dir. */
  function Dir(p: string): string
  {
    Clean(p[..|p| - |AfterLastSlash(p)|])
  }

  /** filepath.Join of two elements; empty elements are skipped. */
  function Join(a: string, b: string): string
  {
    if a != "" then Clean(a + "/" + b)
    else if b != "" then Clean(b)
    else ""
  }

  // ---- absolute paths that are already clean ----

  predicate PlainSegment(s: string)
  {
    s != "" && s != "." && s != ".." && '/' !in s
  }

  predicate PlainSegments(segs: seq<string>)
  {
    forall i :: 0 <= i < |segs| ==> PlainSegment(segs[i])
  }

  function AbsPath(segs: seq<string>): string
  {
    "/" + JoinSegs(segs)
  }

  lemma {:induction false} SplitPlain(s: string)
    requires '/' !in s
    ensures Split(s) == [s]
  {
    if s != "" {
      SplitPlain(s[1..]);
      assert s == [s[0]] + s[1..];
    }
  }

  lemma {:induction false} SplitAtSlash(s: string, rest: string)
    requires '/' !in s
    ensures Split(s + "/" + rest) == [s] + Split(rest)
  {
    var p := s + "/" + rest;
    if s == "" {
      assert p[1..] == rest;
    } else {
      assert p[1..] == s[1..] + "/" + rest;
      SplitAtSlash(s[1..], rest);
      assert s == [s[0]] + s[1..];
    }
  }

  lemma {:induction false} SplitJoin(segs: seq<string>)
    requires PlainSegments(segs) && segs != []
    ensures Split(JoinSegs(segs)) == segs
  {
    if |segs| == 1 {
      SplitPlain(segs[0]);
    } else {
      SplitJoin(segs[1..]);
      SplitAtSlash(segs[0], JoinSegs(segs[1..]));
      assert segs == [segs[0]] + segs[1..];
    }
  }

  lemma {:induction false} FoldPlain(rooted: bool, out: seq<string>, segs: seq<string>)
    requires PlainSegments(segs)
    ensures Fold(rooted, out, segs) == out + segs
    decreases segs
  {
    if segs != [] {
      FoldPlain(rooted, out + [segs[0]], segs[1..]);
      assert out + [segs[0]] + segs[1..] == out + segs;
    }
  }

  lemma {:induction false} JoinSnoc(segs: seq<string>, last: string)
    requires segs != []
    ensures JoinSegs(segs + [last]) == JoinSegs(segs) + "/" + last
  {
    if |segs| > 1 {
      JoinSnoc(segs[1..], last);
      assert (segs + [last])[1..] == segs[1..] + [last];
    } else {
      assert (segs + [last])[1..] == [last];
    }
  }

  /** A clean directory path with a slash after it cleans to itself. */
  lemma CleanDirSlash(segs: seq<string>)
    requires PlainSegments(segs)
    ensures Clean(AbsPath(segs) + "/") == AbsPath(segs)
    ensures Clean(AbsPath(segs)) == AbsPath(segs)
  {
    var p := AbsPath(segs);
    FoldPlain(true, [], segs);
    if segs == [] {
      assert p + "/" == "//" && "//"[1..] == "/" && "/"[1..] == "";
      assert Split("/") == ["", ""];
      assert Split("//") == ["", "", ""];
      assert Fold(true, [], ["", "", ""]) == Fold(true, [], ["", ""]) == Fold(true, [], [""]) == Fold(true, [], []);
    } else {
      SplitJoin(segs);
      assert p[1..] == JoinSegs(segs);
      SplitTrailing(segs);
      assert (p + "/")[1..] == JoinSegs(segs) + "/";
      assert Split(p + "/") == [""] + (segs + [""]);
      assert ([""] + (segs + [""]))[1..] == segs + [""];
      FoldSnocEmpty(true, [], segs);
      assert Fold(true, [], Split(p + "/")) == Fold(true, [], segs + [""]) == [] + segs == segs;
    }
  }

  lemma {:induction false} SplitTrailing(segs: seq<string>)
    requires PlainSegments(segs) && segs != []
    ensures Split(JoinSegs(segs) + "/") == segs + [""]
  {
    if |segs| == 1 {
      SplitAtSlash(segs[0], "");
      assert segs[0] + "/" + "" == segs[0] + "/";
    } else {
      SplitTrailing(segs[1..]);
      SplitAtSlash(segs[0], JoinSegs(segs[1..]) + "/");
      assert JoinSegs(segs) + "/" == segs[0] + "/" + (JoinSegs(segs[1..]) + "/");
      assert segs == [segs[0]] + segs[1..];
    }
  }

  lemma {:induction false} FoldSnocEmpty(rooted: bool, out: seq<string>, segs: seq<string>)
    requires PlainSegments(segs)
    ensures Fold(rooted, out, segs + [""]) == out + segs
    decreases segs
  {
    if segs == [] {
      assert segs + [""] == [""];
      assert Fold(rooted, out, [""]) == Fold(rooted, out, []);
    } else {
      assert (segs + [""])[1..] == segs[1..] + [""];
      FoldSnocEmpty(rooted, out + [segs[0]], segs[1..]);
      assert out + [segs[0]] + segs[1..] == out + segs;
    }
  }
}
