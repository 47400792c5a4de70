// levenshtein and suggestion (internal/registry/validate.go).

module EditDistance {
  import opened Strings

  // ---- the meaning: chains of single-byte edits ----

  /** b arises from a by inserting, deleting or replacing one byte. */
  ghost predicate OneEdit(a: string, b: string)
  {
    exists pre, mid, mid', post ::
      a == pre + mid + post && b == pre + mid' + post && |mid| <= 1 && |mid'| <= 1 && mid != mid'
  }

  ghost predicate IsChain(c: seq<string>)
  {
    c != [] && forall i :: 0 <= i < |c| - 1 ==> OneEdit(c[i], c[i + 1])
  }

  /** a can be turned into b by n single-byte edits. */
  ghost predicate Within(a: string, b: string, n: nat)
  {
    exists c :: IsChain(c) && |c| == n + 1 && c[0] == a && c[n] == b
  }

  // ---- the recurrence the rows follow ----

  function Min3(a: int, b: int, c: int): (r: int)
    ensures r <= a && r <= b && r <= c && (r == a || r == b || r == c)
  {
    if a < b then if a < c then a else c
    else if b < c then b else c
  }

  function Init(s: string): string requires s != "" { s[..|s| - 1] }
  function Last(s: string): char requires s != "" { s[|s| - 1] }

  function Lev(a: string, b: string): nat
    decreases |a| + |b|
  {
    if a == "" then |b|
    else if b == "" then |a|
    else Min3(Lev(Init(a), b) + 1, Lev(a, Init(b)) + 1,
              Lev(Init(a), Init(b)) + if Last(a) == Last(b) then 0 else 1)
  }

  lemma Snoc(s: string, x: char)
    ensures Init(s + [x]) == s && Last(s + [x]) == x
  {
  }

  lemma Unsnoc(s: string)
    requires s != ""
    ensures s == Init(s) + [Last(s)]
  {
  }

  lemma {:induction false} LevSelf(a: string)
    ensures Lev(a, a) == 0
  {
    if a != "" { LevSelf(Init(a)); }
  }

  /** Adding a byte at the end of either word moves the distance by at most one. */
  lemma {:induction false} LevGrow(a: string, b: string, x: char)
    ensures Lev(a, b + [x]) <= Lev(a, b) + 1
    ensures Lev(a, b) <= Lev(a, b + [x]) + 1
    decreases |a| + |b|
  {
    Snoc(b, x);
    if a != "" {
      LevGrow(Init(a), b, x);
      LevDrop(a, b);
    }
  }

  lemma {:induction false} LevDrop(a: string, b: string)
    requires a != ""
    ensures Lev(a, b) <= Lev(Init(a), b) + 1
    decreases |a| + |b|, 0
  {
    if b != "" { }
  }

  /** Replacing the last byte moves the distance by at most one. */
  lemma {:induction false} LevReplace(a: string, b: string, x: char, y: char)
    ensures Lev(a, b + [y]) <= Lev(a, b + [x]) + 1
    decreases |a|
  {
    Snoc(b, x);
    Snoc(b, y);
    if a != "" {
      LevReplace(Init(a), b, x, y);
    }
  }

  /** A common last byte: a unit change of the rest is a unit change of the whole. */
  lemma {:induction false} LevUnderSnoc(a: string, b: string, c: string, x: char)
    requires forall a' :: |a'| <= |a| ==> Lev(a', c) <= Lev(a', b) + 1
    ensures Lev(a, c + [x]) <= Lev(a, b + [x]) + 1
    decreases |a|
  {
    Snoc(b, x);
    Snoc(c, x);
    if a == "" {
      assert Lev("", c) <= Lev("", b) + 1;
    } else {
      LevUnderSnoc(Init(a), b, c, x);
      assert Lev(a, c) <= Lev(a, b) + 1;
      assert Lev(Init(a), c) <= Lev(Init(a), b) + 1;
    }
  }

  lemma {:induction false} LevEditAt(a: string, pre: string, mid: string, mid': string, post: string)
    requires |mid| <= 1 && |mid'| <= 1
    ensures Lev(a, pre + mid' + post) <= Lev(a, pre + mid + post) + 1
    decreases |post|
  {
    if post == "" {
      assert pre + mid + post == pre + mid && pre + mid' + post == pre + mid';
      if mid == "" && mid' == "" {
      } else if mid == "" {
        assert pre + mid' == pre + [mid'[0]] && pre + mid == pre;
        LevGrow(a, pre, mid'[0]);
      } else if mid' == "" {
        assert pre + mid == pre + [mid[0]] && pre + mid' == pre;
        LevGrow(a, pre, mid[0]);
      } else {
        assert pre + mid == pre + [mid[0]] && pre + mid' == pre + [mid'[0]];
        LevReplace(a, pre, mid[0], mid'[0]);
      }
    } else {
      var p, x := Init(post), Last(post);
      Unsnoc(post);
      forall a' | |a'| <= |a| ensures Lev(a', pre + mid' + p) <= Lev(a', pre + mid + p) + 1 {
        LevEditAt(a', pre, mid, mid', p);
      }
      LevUnderSnoc(a, pre + mid + p, pre + mid' + p, x);
      assert pre + mid + post == pre + mid + p + [x] && pre + mid' + post == pre + mid' + p + [x];
    }
  }

  /** Every chain is at least as long as the recurrence says. */
  lemma {:induction false} ChainBound(c: seq<string>, i: nat)
    requires IsChain(c) && i < |c|
    ensures Lev(c[0], c[i]) <= i
  {
    if i == 0 {
      LevSelf(c[0]);
    } else {
      ChainBound(c, i - 1);
      assert OneEdit(c[i - 1], c[i]);
      var pre, mid, mid', post :| c[i - 1] == pre + mid + post && c[i] == pre + mid' + post && |mid| <= 1 && |mid'| <= 1 && mid != mid';
      LevEditAt(c[0], pre, mid, mid', post);
    }
  }

  // ---- a chain of that length exists ----

  lemma EditIs(pre: string, mid: string, mid': string, post: string)
    requires |mid| <= 1 && |mid'| <= 1 && mid != mid'
    ensures OneEdit(pre + mid + post, pre + mid' + post)
  {
  }

  lemma EditSymmetric(a: string, b: string)
    requires OneEdit(a, b)
    ensures OneEdit(b, a)
  {
  }

  lemma EditUnderSnoc(a: string, b: string, x: char)
    requires OneEdit(a, b)
    ensures OneEdit(a + [x], b + [x])
  {
    var pre, mid, mid', post :| a == pre + mid + post && b == pre + mid' + post && |mid| <= 1 && |mid'| <= 1 && mid != mid';
    EditIs(pre, mid, mid', post + [x]);
    assert a + [x] == pre + mid + (post + [x]) && b + [x] == pre + mid' + (post + [x]);
  }

  lemma WithinSelf(a: string)
    ensures Within(a, a, 0)
  {
    assert IsChain([a]);
  }

  lemma WithinThen(a: string, b: string, c: string, n: nat)
    requires Within(a, b, n) && OneEdit(b, c)
    ensures Within(a, c, n + 1)
  {
    var p :| IsChain(p) && |p| == n + 1 && p[0] == a && p[n] == b;
    var q := p + [c];
    forall i | 0 <= i < |q| - 1 ensures OneEdit(q[i], q[i + 1]) {
      if i < n { assert q[i] == p[i] && q[i + 1] == p[i + 1]; }
    }
    assert IsChain(q) && q[n + 1] == c;
  }

  lemma WithinReversed(a: string, b: string, n: nat)
    requires Within(a, b, n)
    ensures Within(b, a, n)
  {
    var p :| IsChain(p) && |p| == n + 1 && p[0] == a && p[n] == b;
    var q := seq(n + 1, i requires 0 <= i <= n => p[n - i]);
    forall i | 0 <= i < |q| - 1 ensures OneEdit(q[i], q[i + 1]) {
      assert OneEdit(p[n - i - 1], p[n - i - 1 + 1]);
      EditSymmetric(p[n - i - 1], p[n - i]);
    }
    assert IsChain(q) && q[0] == b && q[n] == a;
  }

  lemma {:induction false} WithinJoin(a: string, b: string, c: string, m: nat, n: nat)
    requires Within(a, b, m) && Within(b, c, n)
    ensures Within(a, c, m + n)
    decreases n
  {
    if n > 0 {
      var d := LastStep(b, c, n);
      WithinJoin(a, b, d, m, n - 1);
      WithinThen(a, d, c, m + n - 1);
    } else {
      assert b == c;
    }
  }

  lemma LastStep(b: string, c: string, n: nat) returns (d: string)
    requires n > 0 && Within(b, c, n)
    ensures Within(b, d, n - 1) && OneEdit(d, c)
  {
    var p :| IsChain(p) && |p| == n + 1 && p[0] == b && p[n] == c;
    var q := p[..n];
    forall i | 0 <= i < |q| - 1
      ensures OneEdit(q[i], q[i + 1])
    {
      assert OneEdit(p[i], p[i + 1]);
    }
    d := p[n - 1];
    assert OneEdit(p[n - 1], p[n - 1 + 1]);
    assert IsChain(q) && |q| == n && q[0] == b && q[n - 1] == d;
  }

  lemma WithinUnderSnoc(a: string, b: string, n: nat, x: char)
    requires Within(a, b, n)
    ensures Within(a + [x], b + [x], n)
  {
    var p :| IsChain(p) && |p| == n + 1 && p[0] == a && p[n] == b;
    var q := seq(n + 1, i requires 0 <= i <= n => p[i] + [x]);
    forall i | 0 <= i < |q| - 1 ensures OneEdit(q[i], q[i + 1]) {
      assert OneEdit(p[i], p[i + 1]);
      EditUnderSnoc(p[i], p[i + 1], x);
    }
    assert IsChain(q) && q[0] == a + [x] && q[n] == b + [x];
  }

  lemma AppendIsEdit(s: string)
    requires s != ""
    ensures OneEdit(Init(s), s) && OneEdit(s, Init(s))
  {
    EditIs(Init(s), "", [Last(s)], "");
    assert Init(s) + "" + "" == Init(s) && Init(s) + [Last(s)] + "" == s;
    EditSymmetric(Init(s), s);
  }

  lemma FirstEdit(a: string, b: string, c: string, n: nat)
    requires OneEdit(a, b) && Within(b, c, n)
    ensures Within(a, c, n + 1)
  {
    WithinSelf(a);
    WithinThen(a, a, b, 0);
    WithinJoin(a, b, c, 1, n);
  }

  lemma ReachByDeleting(a: string, b: string, n: nat)
    requires a != "" && Within(Init(a), b, n)
    ensures Within(a, b, n + 1)
  {
    AppendIsEdit(a);
    FirstEdit(a, Init(a), b, n);
  }

  lemma ReachByInserting(a: string, b: string, n: nat)
    requires b != "" && Within(a, Init(b), n)
    ensures Within(a, b, n + 1)
  {
    AppendIsEdit(b);
    WithinThen(a, Init(b), b, n);
  }

  lemma ReachByLast(a: string, b: string, n: nat)
    requires a != "" && b != "" && Within(Init(a), Init(b), n)
    ensures Within(a, b, n + if Last(a) == Last(b) then 0 else 1)
  {
    WithinUnderSnoc(Init(a), Init(b), n, Last(a));
    Unsnoc(a);
    Unsnoc(b);
    if Last(a) != Last(b) {
      EditIs(Init(b), [Last(a)], [Last(b)], "");
      assert Init(b) + [Last(a)] + "" == Init(b) + [Last(a)] && Init(b) + [Last(b)] + "" == b;
      WithinThen(a, Init(b) + [Last(a)], b, n);
    }
  }

  lemma {:induction false} LevReached(a: string, b: string)
    ensures Within(a, b, Lev(a, b))
    decreases |a| + |b|
  {
    if a == "" && b == "" {
      WithinSelf("");
    } else if a == "" || (b != "" && Lev(a, b) == Lev(a, Init(b)) + 1) {
      LevReached(a, Init(b));
      ReachByInserting(a, b, Lev(a, Init(b)));
    } else if b == "" || Lev(a, b) == Lev(Init(a), b) + 1 {
      LevReached(Init(a), b);
      ReachByDeleting(a, b, Lev(Init(a), b));
    } else {
      LevReached(Init(a), Init(b));
      ReachByLast(a, b, Lev(Init(a), Init(b)));
    }
  }

  /** The recurrence is the least number of single-byte edits. */
  lemma LevIsLeast(a: string, b: string, n: nat)
    ensures Within(a, b, Lev(a, b))
    ensures Within(a, b, n) ==> Lev(a, b) <= n
  {
    LevReached(a, b);
    if Within(a, b, n) {
      var p :| IsChain(p) && |p| == n + 1 && p[0] == a && p[n] == b;
      ChainBound(p, n);
    }
  }

  lemma LevAtMostReversed(a: string, b: string)
    ensures Lev(a, b) <= Lev(b, a)
  {
    LevReached(b, a);
    WithinReversed(b, a, Lev(b, a));
    LevIsLeast(a, b, Lev(b, a));
  }

  lemma LevTriangle(a: string, b: string, c: string)
    ensures Lev(a, c) <= Lev(a, b) + Lev(b, c)
  {
    LevReached(a, b);
    LevReached(b, c);
    WithinJoin(a, b, c, Lev(a, b), Lev(b, c));
    LevIsLeast(a, c, Lev(a, b) + Lev(b, c));
  }

  /** ... and therefore a metric. */
  lemma LevIsMetric(a: string, b: string, c: string)
    ensures Lev(a, b) == 0 <==> a == b
    ensures Lev(a, b) == Lev(b, a)
    ensures Lev(a, c) <= Lev(a, b) + Lev(b, c)
  {
    LevTriangle(a, b, c);
    LevAtMostReversed(a, b);
    LevAtMostReversed(b, a);
    LevSelf(a);
    LevReached(a, b);
  }

  // ---- the two-row computation ----

  /** The table entry for the prefixes of length i and j. */
  function Cell(a: string, b: string, i: nat, j: nat): nat
    requires i <= |a| && j <= |b|
    decreases i + j
  {
    if i == 0 then j
    else if j == 0 then i
    else Min3(Cell(a, b, i - 1, j) + 1, Cell(a, b, i, j - 1) + 1,
              Cell(a, b, i - 1, j - 1) + if a[i - 1] == b[j - 1] then 0 else 1)
  }

  lemma PrefixParts(a: string, i: nat, p: string)
    requires 0 < i <= |a| && p == a[..i]
    ensures p != "" && Init(p) == a[..i - 1] && Last(p) == a[i - 1]
  {
  }

  lemma {:induction false} CellIsLev(a: string, b: string, i: nat, j: nat, p: string, q: string)
    requires i <= |a| && j <= |b| && p == a[..i] && q == b[..j]
    ensures Cell(a, b, i, j) == Lev(p, q)
    decreases i + j
  {
    if i > 0 && j > 0 {
      PrefixParts(a, i, p);
      PrefixParts(b, j, q);
      CellIsLev(a, b, i - 1, j, Init(p), q);
      CellIsLev(a, b, i, j - 1, p, Init(q));
      CellIsLev(a, b, i - 1, j - 1, Init(p), Init(q));
    }
  }

  lemma CellStep(a: string, b: string, i: nat, j: nat, up: int, left: int, diag: int, best: int)
    requires 0 < i <= |a| && 0 < j <= |b|
    requires up == Cell(a, b, i - 1, j) && left == Cell(a, b, i, j - 1) && diag == Cell(a, b, i - 1, j - 1)
    requires best == Min3(up + 1, left + 1, diag + if a[i - 1] == b[j - 1] then 0 else 1)
    ensures best == Cell(a, b, i, j)
  {
  }

  method FillCell(a: string, b: string, i: nat, j: nat, prev: array<int>, cur: array<int>)
    requires 0 < i <= |a| && 0 < j <= |b| && prev != cur && prev.Length == cur.Length == |b| + 1
    requires prev[j] == Cell(a, b, i - 1, j) && cur[j - 1] == Cell(a, b, i, j - 1) && prev[j - 1] == Cell(a, b, i - 1, j - 1)
    modifies cur
    ensures cur[j] == Cell(a, b, i, j) && forall k :: 0 <= k <= |b| && k != j ==> cur[k] == old(cur[k])
  {
    var cost := 1;
    if a[i - 1] == b[j - 1] { cost := 0; }
    var best := Min3(prev[j] + 1, cur[j - 1] + 1, prev[j - 1] + cost);
    CellStep(a, b, i, j, prev[j], cur[j - 1], prev[j - 1], best);
    cur[j] := best;
  }

  method FillRow(a: string, b: string, i: nat, prev: array<int>, cur: array<int>)
    requires 0 < i <= |a| && prev != cur && prev.Length == cur.Length == |b| + 1
    requires forall k :: 0 <= k <= |b| ==> prev[k] == Cell(a, b, i - 1, k)
    modifies cur
    ensures forall k :: 0 <= k <= |b| ==> cur[k] == Cell(a, b, i, k)
  {
    cur[0] := i;
    for j := 1 to |b| + 1
      invariant forall k :: 0 <= k < j ==> cur[k] == Cell(a, b, i, k)
    {
      FillCell(a, b, i, j, prev, cur);
    }
  }

  /** levenshtein: two rows, overwritten and swapped. */
  method Levenshtein(a: string, b: string) returns (d: nat)
    ensures d == Lev(a, b)
  {
    if a == b {
      LevSelf(a);
      return 0;
    }
    if |a| == 0 { return |b|; }
    if |b| == 0 { return |a|; }
    var prev, cur := new int[|b| + 1], new int[|b| + 1];
    for j := 0 to |b| + 1
      invariant forall k :: 0 <= k < j ==> prev[k] == Cell(a, b, 0, k)
    {
      prev[j] := j;
    }
    for i := 1 to |a| + 1
      invariant prev != cur && prev.Length == cur.Length == |b| + 1 && fresh(prev) && fresh(cur)
      invariant forall k :: 0 <= k <= |b| ==> prev[k] == Cell(a, b, i - 1, k)
    {
      FillRow(a, b, i, prev, cur);
      prev, cur := cur, prev;
    }
    assert a[..|a|] == a && b[..|b|] == b;
    CellIsLev(a, b, |a|, |b|, a, b);
    assert a[..|a|] == a && b[..|b|] == b;
    d := prev[|b|];
  }

  // ---- the suggestion ----

  const MAX_DISTANCE := 3

  /** n is the alphabetically first of the names closest to want. */
  ghost predicate Best(names: seq<string>, want: string, n: string)
  {
    && n in names
    && forall m :: m in names ==> Lev(want, n) < Lev(want, m) || (Lev(want, n) == Lev(want, m) && Leq(n, m))
  }

  method Suggestion(names: seq<string>, want: string) returns (r: string)
    ensures (exists n :: n in names && Lev(want, n) <= MAX_DISTANCE) ==> Best(names, want, r) && Lev(want, r) <= MAX_DISTANCE
    ensures (forall n :: n in names ==> Lev(want, n) > MAX_DISTANCE) ==> r == ""
  {
    var name, dist := "", MAX_DISTANCE + 1;
    for i := 0 to |names|
      invariant dist <= MAX_DISTANCE + 1
      invariant dist == MAX_DISTANCE + 1 ==> name == "" && forall m :: m in names[..i] ==> Lev(want, m) > MAX_DISTANCE
      invariant dist <= MAX_DISTANCE ==> Best(names[..i], want, name) && Lev(want, name) == dist
    {
      var n := names[i];
      var d := Levenshtein(want, n);
      assert names[..i + 1] == names[..i] + [n];
      LessTotal(n, name);
      if dist <= MAX_DISTANCE && (d < dist || (d == dist && Less(n, name))) {
        forall m | m in names[..i] ensures Lev(want, n) < Lev(want, m) || (Lev(want, n) == Lev(want, m) && Leq(n, m)) {
          if Lev(want, n) == Lev(want, m) { LeqTransitive(n, name, m); }
        }
      }
      if d < dist || (d == dist && Less(n, name)) {
        name, dist := n, d;
      }
    }
    assert names[..|names|] == names;
    if dist > MAX_DISTANCE { return ""; }
    return name;
  }
}
