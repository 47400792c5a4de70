// The pairing of two diagnostic lists (cmd/compare-lints/main.go).

module Compare {
  import opened Strings
  import opened Sorting
  import opened SortedRows

  datatype Diag = Diag(file: string, line: int, column: int, linter: string, message: string, source: string)

  /** The pairing identity; column and source do not take part. */
  datatype Key = Key(file: string, line: int, linter: string, stem: string)

  /** messageStem: the linter and the message give the normalised message. */
  type Stem = (string, string) -> string

  function KeyFn(stem: Stem): Diag -> Key
  {
    (d: Diag) => Key(d.file, d.line, d.linter, stem(d.linter, d.message))
  }

  function LinterOf(d: Diag): string { d.linter }

  function Itself(d: Diag): Diag { d }

  predicate Any(d: Diag) { true }

  // ---- counting ----

  /** How many diagnostics are classified as k. */
  function Count<K(==)>(f: Diag -> K, ds: seq<Diag>, k: K): nat
  {
    if ds == [] then 0
    else Count(f, ds[..|ds| - 1], k) + if f(ds[|ds| - 1]) == k then 1 else 0
  }

  function Min(a: nat, b: nat): nat { if a < b then a else b }

  lemma CountSnoc<K>(f: Diag -> K, ds: seq<Diag>, d: Diag, k: K)
    ensures Count(f, ds + [d], k) == Count(f, ds, k) + if f(d) == k then 1 else 0
  {
    assert (ds + [d])[..|ds|] == ds;
  }

  lemma {:induction false} CountAppend<K>(f: Diag -> K, a: seq<Diag>, b: seq<Diag>, k: K)
    ensures Count(f, a + b, k) == Count(f, a, k) + Count(f, b, k)
  {
    if b == [] {
      assert a + b == a;
    } else {
      var n := |b| - 1;
      assert a + b == (a + b[..n]) + [b[n]];
      CountAppend(f, a, b[..n], k);
      CountSnoc(f, a + b[..n], b[n], k);
    }
  }

  lemma CountOne<K>(f: Diag -> K, d: Diag, k: K)
    ensures Count(f, [d], k) == if f(d) == k then 1 else 0
  {
    CountSnoc(f, [], d, k);
    assert [] + [d] == [d];
  }

  lemma CountMiddle<K>(f: Diag -> K, a: seq<Diag>, d: Diag, b: seq<Diag>, k: K)
    ensures Count(f, a + ([d] + b), k) == Count(f, a + b, k) + if f(d) == k then 1 else 0
  {
    CountAppend(f, a, [d] + b, k);
    CountAppend(f, [d], b, k);
    CountAppend(f, a, b, k);
    CountOne(f, d, k);
  }

  lemma CountWithout<K>(f: Diag -> K, ds: seq<Diag>, i: nat, k: K)
    requires i < |ds|
    ensures Count(f, ds, k) == Count(f, ds[..i] + ds[i + 1..], k) + if f(ds[i]) == k then 1 else 0
  {
    SplitAround(ds, i);
    CountMiddle(f, ds[..i], ds[i], ds[i + 1..], k);
  }

  lemma SplitAround(ds: seq<Diag>, i: nat)
    requires i < |ds|
    ensures ds == ds[..i] + ([ds[i]] + ds[i + 1..])
  {
  }

  lemma {:induction false} CountPositive<K>(f: Diag -> K, ds: seq<Diag>, k: K)
    requires Count(f, ds, k) > 0
    ensures exists i :: 0 <= i < |ds| && f(ds[i]) == k
  {
    var n := |ds| - 1;
    if f(ds[n]) != k {
      CountPositive(f, ds[..n], k);
      var i :| 0 <= i < n && f(ds[..n][i]) == k;
      assert f(ds[i]) == k;
    }
  }

  /** Lists with the same counts under a finer classification have them under a coarser one. */
  lemma {:induction false} CountCoarser<K(!new), L>(f: Diag -> K, g: Diag -> L, a: seq<Diag>, b: seq<Diag>, l: L)
    requires forall k :: Count(f, a, k) == Count(f, b, k)
    requires forall c, d :: f(c) == f(d) ==> g(c) == g(d)
    ensures Count(g, a, l) == Count(g, b, l)
    decreases |a|
  {
    if a == [] {
      if b != [] {
        CountWithout(f, b, 0, f(b[0]));
      }
    } else {
      var k := f(a[0]);
      CountWithout(f, a, 0, k);
      CountPositive(f, b, k);
      var i :| 0 <= i < |b| && f(b[i]) == k;
      var a', b' := a[..0] + a[1..], b[..i] + b[i + 1..];
      forall x
        ensures Count(f, a', x) == Count(f, b', x)
      {
        CountWithout(f, a, 0, x);
        CountWithout(f, b, i, x);
      }
      CountCoarser(f, g, a', b', l);
      CountWithout(g, a, 0, l);
      CountWithout(g, b, i, l);
    }
  }

  /** Permutations have the same counts. */
  lemma CountPermuted<K>(f: Diag -> K, a: seq<Diag>, b: seq<Diag>, k: K)
    requires multiset(a) == multiset(b)
    ensures Count(f, a, k) == Count(f, b, k)
  {
    forall d
      ensures Count(Itself, a, d) == Count(Itself, b, d)
    {
      CountIsMultiplicity(a, d);
      CountIsMultiplicity(b, d);
    }
    CountCoarser(Itself, f, a, b, k);
  }

  lemma {:induction false} CountIsMultiplicity(a: seq<Diag>, d: Diag)
    ensures Count(Itself, a, d) == multiset(a)[d]
  {
    if a != [] {
      CountIsMultiplicity(a[..|a| - 1], d);
      assert a == a[..|a| - 1] + [a[|a| - 1]];
    }
  }

  // ---- positions and ranks ----

  /** The position among the diagnostics with the same key. */
  function Rank(key: Diag -> Key, ds: seq<Diag>, p: nat): nat
    requires p < |ds|
  {
    Count(key, ds[..p], key(ds[p]))
  }

  /** The positions below n with key k, in ascending order. */
  function Positions(key: Diag -> Key, ds: seq<Diag>, n: nat, k: Key): seq<nat>
    requires n <= |ds|
  {
    if n == 0 then []
    else Positions(key, ds, n - 1, k) + if key(ds[n - 1]) == k then [n - 1] else []
  }

  /** The r-th position with key k is the one of rank r. */
  lemma {:induction false} PositionsByRank(key: Diag -> Key, ds: seq<Diag>, n: nat, k: Key)
    requires n <= |ds|
    ensures |Positions(key, ds, n, k)| == Count(key, ds[..n], k)
    ensures forall r :: 0 <= r < |Positions(key, ds, n, k)| ==>
              var p := Positions(key, ds, n, k)[r]; p < n && key(ds[p]) == k && Rank(key, ds, p) == r
    ensures forall p :: 0 <= p < n && key(ds[p]) == k ==>
              Rank(key, ds, p) < |Positions(key, ds, n, k)| && Positions(key, ds, n, k)[Rank(key, ds, p)] == p
  {
    if n > 0 {
      PositionsByRank(key, ds, n - 1, k);
      assert ds[..n] == ds[..n - 1] + [ds[n - 1]];
      CountSnoc(key, ds[..n - 1], ds[n - 1], k);
    }
  }

  // ---- marks ----

  /** The diagnostics that carry no mark, in order. */
  function Unmatched(ds: seq<Diag>, marks: seq<bool>): seq<Diag>
    requires |marks| == |ds|
  {
    if ds == [] then []
    else
      var n := |ds| - 1;
      Unmatched(ds[..n], marks[..n]) + if marks[n] then [] else [ds[n]]
  }

  /** Those that the other list can pair, counted within their key. */
  predicate Pairs(key: Diag -> Key, ds: seq<Diag>, others: seq<Diag>, p: nat)
    requires p < |ds|
  {
    Rank(key, ds, p) < Count(key, others, key(ds[p]))
  }

  function PairMarks(key: Diag -> Key, ds: seq<Diag>, others: seq<Diag>): (marks: seq<bool>)
    ensures |marks| == |ds|
  {
    seq(|ds|, p requires 0 <= p < |ds| => Pairs(key, ds, others, p))
  }

  /** What is left of ds after pairing it with others. */
  function Leftover(key: Diag -> Key, ds: seq<Diag>, others: seq<Diag>): seq<Diag>
  {
    Unmatched(ds, PairMarks(key, ds, others))
  }

  /** Taking a mark's diagnostic out of the unmatched ones. */
  lemma {:induction false} MarkMoves(ds: seq<Diag>, marks: seq<bool>, p: nat)
    requires |marks| == |ds| && p < |ds| && !marks[p]
    ensures multiset(Unmatched(ds, marks)) == multiset(Unmatched(ds, marks[p := true])) + multiset{ds[p]}
  {
    var n := |ds| - 1;
    if p == n {
      assert marks[p := true][..n] == marks[..n];
    } else {
      MarkMoves(ds[..n], marks[..n], p);
      assert marks[p := true][..n] == marks[..n][p := true];
    }
  }

  lemma UnmatchedStep(ds: seq<Diag>, marks: seq<bool>, m: nat)
    requires m < |ds| == |marks|
    ensures Unmatched(ds[..m + 1], marks[..m + 1]) == Unmatched(ds[..m], marks[..m]) + if marks[m] then [] else [ds[m]]
  {
    assert ds[..m + 1][..m] == ds[..m] && marks[..m + 1][..m] == marks[..m];
  }

  lemma CountSnocIf<K>(f: Diag -> K, ds: seq<Diag>, skip: bool, d: Diag, k: K)
    ensures Count(f, ds + if skip then [] else [d], k) == Count(f, ds, k) + if !skip && f(d) == k then 1 else 0
  {
    if skip {
      assert ds + [] == ds;
    } else {
      CountSnoc(f, ds, d, k);
    }
  }

  function Surplus(a: nat, b: nat): nat { a - Min(a, b) }

  /** The leftovers of one key after one more diagnostic, from those before it. */
  lemma OneMoreLeft(key: Diag -> Key, ds: seq<Diag>, others: seq<Diag>, m: nat, k: Key)
    requires m < |ds|
    ensures Surplus(Count(key, ds[..m], k), Count(key, others, k)) + (if !Pairs(key, ds, others, m) && key(ds[m]) == k then 1 else 0)
         == Surplus(Count(key, ds[..m + 1], k), Count(key, others, k))
  {
    assert ds[..m + 1] == ds[..m] + [ds[m]];
    CountSnoc(key, ds[..m], ds[m], k);
  }

  /** Of each key exactly the surplus is left over. */
  lemma {:induction false} LeftoverCount(key: Diag -> Key, ds: seq<Diag>, others: seq<Diag>, marks: seq<bool>, n: nat, k: Key)
    requires n <= |ds| && marks == PairMarks(key, ds, others)
    ensures Count(key, Unmatched(ds[..n], marks[..n]), k) == Surplus(Count(key, ds[..n], k), Count(key, others, k))
  {
    if n > 0 {
      var m := n - 1;
      LeftoverCount(key, ds, others, marks, m, k);
      OneMoreLeft(key, ds, others, m, k);
      UnmatchedStep(ds, marks, m);
      CountSnocIf(key, Unmatched(ds[..m], marks[..m]), marks[m], ds[m], k);
    }
  }

  lemma LeftoverTotal(key: Diag -> Key, ds: seq<Diag>, others: seq<Diag>, k: Key)
    ensures Count(key, Leftover(key, ds, others), k) == Surplus(Count(key, ds, k), Count(key, others, k))
  {
    var marks := PairMarks(key, ds, others);
    LeftoverCount(key, ds, others, marks, |ds|, k);
    assert ds[..|ds|] == ds && marks[..|ds|] == marks;
  }

  lemma CountSplit<K>(f: Diag -> K, a: seq<Diag>, b: seq<Diag>, c: seq<Diag>, k: K)
    requires multiset(a) + multiset(b) == multiset(c)
    ensures Count(f, a, k) + Count(f, b, k) == Count(f, c, k)
  {
    CountAppend(f, a, b, k);
    CountPermuted(f, a + b, c, k);
  }

  // ---- the result ----

  /** over pairs g with c as far as possible; gOnly and cOnly are what remains. */
  ghost predicate Paired(key: Diag -> Key, g: seq<Diag>, c: seq<Diag>, over: seq<Diag>, gOnly: seq<Diag>, cOnly: seq<Diag>)
  {
    && gOnly == Leftover(key, g, c) && cOnly == Leftover(key, c, g)
    && multiset(over) + multiset(cOnly) == multiset(c)
  }

  lemma OverlapCount(key: Diag -> Key, g: seq<Diag>, c: seq<Diag>, over: seq<Diag>, gOnly: seq<Diag>, cOnly: seq<Diag>, k: Key)
    requires Paired(key, g, c, over, gOnly, cOnly)
    ensures Count(key, over, k) == Min(Count(key, g, k), Count(key, c, k))
  {
    CountSplit(key, over, cOnly, c, k);
    LeftoverTotal(key, c, g, k);
  }

  /** The overlap takes the smaller count of every key, the leftovers the surplus. */
  lemma PairedCounts(key: Diag -> Key, g: seq<Diag>, c: seq<Diag>, over: seq<Diag>, gOnly: seq<Diag>, cOnly: seq<Diag>, k: Key)
    requires Paired(key, g, c, over, gOnly, cOnly)
    ensures Count(key, over, k) == Min(Count(key, g, k), Count(key, c, k))
    ensures Count(key, over, k) + Count(key, gOnly, k) == Count(key, g, k)
    ensures Count(key, over, k) + Count(key, cOnly, k) == Count(key, c, k)
    ensures Count(key, gOnly, k) == 0 || Count(key, cOnly, k) == 0
  {
    OverlapCount(key, g, c, over, gOnly, cOnly, k);
    LeftoverTotal(key, g, c, k);
    LeftoverTotal(key, c, g, k);
    SurplusSplits(Count(key, g, k), Count(key, c, k));
  }

  lemma SurplusSplits(a: nat, b: nat)
    ensures Min(a, b) + Surplus(a, b) == a && Min(a, b) + Surplus(b, a) == b
    ensures Surplus(a, b) == 0 || Surplus(b, a) == 0
  {
  }

  /** The overlap stands for the paired part of g, though its entries come from c. */
  lemma PairedSide(key: Diag -> Key, g: seq<Diag>, c: seq<Diag>, over: seq<Diag>, gOnly: seq<Diag>, cOnly: seq<Diag>)
    requires Paired(key, g, c, over, gOnly, cOnly)
    ensures forall k :: Count(key, over + gOnly, k) == Count(key, g, k)
  {
    forall k
      ensures Count(key, over + gOnly, k) == Count(key, g, k)
    {
      PairedCounts(key, g, c, over, gOnly, cOnly, k);
      CountAppend(key, over, gOnly, k);
    }
  }

  lemma SameLength(key: Diag -> Key, a: seq<Diag>, b: seq<Diag>)
    requires forall k :: Count(key, a, k) == Count(key, b, k)
    ensures |a| == |b|
  {
    CountCoarser(key, Any, a, b, true);
    CountAll(a);
    CountAll(b);
  }

  lemma SameLinters(stem: Stem, a: seq<Diag>, b: seq<Diag>, l: string)
    requires forall k :: Count(KeyFn(stem), a, k) == Count(KeyFn(stem), b, k)
    ensures Count(LinterOf, a, l) == Count(LinterOf, b, l)
  {
    CountCoarser(KeyFn(stem), LinterOf, a, b, l);
  }

  lemma SizeSplit(a: seq<Diag>, b: seq<Diag>, c: seq<Diag>)
    requires multiset(a) + multiset(b) == multiset(c)
    ensures |a| + |b| == |c|
  {
    assert |multiset(a) + multiset(b)| == |multiset(c)|;
  }

  lemma SideTotals(stem: Stem, g: seq<Diag>, over: seq<Diag>, gOnly: seq<Diag>, l: string)
    requires forall k :: Count(KeyFn(stem), over + gOnly, k) == Count(KeyFn(stem), g, k)
    ensures Count(LinterOf, g, l) == Count(LinterOf, over, l) + Count(LinterOf, gOnly, l)
    ensures |g| == |over| + |gOnly|
  {
    SameLength(KeyFn(stem), over + gOnly, g);
    SameLinters(stem, over + gOnly, g, l);
    CountAppend(LinterOf, over, gOnly, l);
  }

  /** Each side's total is overlap plus leftovers, for every linter and overall. */
  lemma GolangciTotals(stem: Stem, g: seq<Diag>, c: seq<Diag>, over: seq<Diag>, gOnly: seq<Diag>, cOnly: seq<Diag>, l: string)
    requires Paired(KeyFn(stem), g, c, over, gOnly, cOnly)
    ensures Count(LinterOf, g, l) == Count(LinterOf, over, l) + Count(LinterOf, gOnly, l)
    ensures |g| == |over| + |gOnly|
  {
    PairedSide(KeyFn(stem), g, c, over, gOnly, cOnly);
    SideTotals(stem, g, over, gOnly, l);
  }

  lemma PlaidTotals(stem: Stem, g: seq<Diag>, c: seq<Diag>, over: seq<Diag>, gOnly: seq<Diag>, cOnly: seq<Diag>, l: string)
    requires Paired(KeyFn(stem), g, c, over, gOnly, cOnly)
    ensures Count(LinterOf, c, l) == Count(LinterOf, over, l) + Count(LinterOf, cOnly, l)
    ensures |c| == |over| + |cOnly|
  {
    CountSplit(LinterOf, over, cOnly, c, l);
    SizeSplit(over, cOnly, c);
  }

  lemma {:induction false} CountAll(ds: seq<Diag>)
    ensures Count(Any, ds, true) == |ds|
  {
    if ds != [] {
      CountAll(ds[..|ds| - 1]);
    }
  }

  // ---- the same by file, line and linter ----

  predicate Like(stem: Stem, d: Diag, file: string, line: int, linter: string, message: string)
  {
    d.file == file && d.line == line && d.linter == linter && stem(d.linter, d.message) == message
  }

  /** How many diagnostics of the list stand in that file and line, come from that linter and say that. */
  function Alike(stem: Stem, ds: seq<Diag>, file: string, line: int, linter: string, message: string): nat
  {
    if ds == [] then 0
    else (if Like(stem, ds[0], file, line, linter, message) then 1 else 0) + Alike(stem, ds[1..], file, line, linter, message)
  }

  lemma {:induction false} AlikeIsCount(stem: Stem, ds: seq<Diag>, file: string, line: int, linter: string, message: string)
    ensures Alike(stem, ds, file, line, linter, message) == Count(KeyFn(stem), ds, Key(file, line, linter, message))
  {
    var k := Key(file, line, linter, message);
    if ds != [] {
      AlikeIsCount(stem, ds[1..], file, line, linter, message);
      CountAppend(KeyFn(stem), [ds[0]], ds[1..], k);
      CountOne(KeyFn(stem), ds[0], k);
      assert [ds[0]] + ds[1..] == ds;
    }
  }

  /** Only diagnostics of one file, line and linter with one normalised message pair, and as many as both sides have. */
  lemma PairedPlainly(stem: Stem, g: seq<Diag>, c: seq<Diag>, over: seq<Diag>, gOnly: seq<Diag>, cOnly: seq<Diag>,
                      file: string, line: int, linter: string, message: string)
    requires Paired(KeyFn(stem), g, c, over, gOnly, cOnly)
    ensures var n := (ds: seq<Diag>) => Alike(stem, ds, file, line, linter, message);
            && n(over) == (if n(g) < n(c) then n(g) else n(c))
            && n(over) + n(gOnly) == n(g) && n(over) + n(cOnly) == n(c)
  {
    PairedCounts(KeyFn(stem), g, c, over, gOnly, cOnly, Key(file, line, linter, message));
    AlikeIsCount(stem, g, file, line, linter, message);
    AlikeIsCount(stem, c, file, line, linter, message);
    AlikeIsCount(stem, over, file, line, linter, message);
    AlikeIsCount(stem, gOnly, file, line, linter, message);
    AlikeIsCount(stem, cOnly, file, line, linter, message);
  }

  // ---- the code ----

  /** index holds, for every key that occurs among the first n, its positions in order. */
  ghost predicate Indexed(key: Diag -> Key, ds: seq<Diag>, n: nat, index: map<Key, seq<nat>>)
    requires n <= |ds|
  {
    forall k :: if k in index then index[k] == Positions(key, ds, n, k) && index[k] != [] else Positions(key, ds, n, k) == []
  }

  method IndexByKey(key: Diag -> Key, ds: seq<Diag>) returns (index: map<Key, seq<nat>>)
    ensures Indexed(key, ds, |ds|, index)
  {
    index := map[];
    for i := 0 to |ds|
      invariant Indexed(key, ds, i, index)
    {
      var k := key(ds[i]);
      index := index[k := (if k in index then index[k] else []) + [i]];
    }
  }

  /** marks holds of exactly the pairing positions whose key is in done. */
  ghost predicate MarkedFor(key: Diag -> Key, ds: seq<Diag>, others: seq<Diag>, done: set<Key>, marks: seq<bool>)
  {
    |marks| == |ds| && forall p :: 0 <= p < |ds| ==> (marks[p] <==> key(ds[p]) in done && Pairs(key, ds, others, p))
  }

  /** Marking the first n positions of a key decides the key. */
  lemma MarkStep(key: Diag -> Key, ds: seq<Diag>, others: seq<Diag>, done: set<Key>, k: Key, n: nat, marks: seq<bool>, marks': seq<bool>)
    requires MarkedFor(key, ds, others, done, marks) && k !in done && |marks'| == |ds|
    requires n == Min(Count(key, ds, k), Count(key, others, k)) && n <= |Positions(key, ds, |ds|, k)|
    requires forall p :: 0 <= p < |ds| ==> (marks'[p] <==> marks[p] || p in Positions(key, ds, |ds|, k)[..n])
    ensures MarkedFor(key, ds, others, done + {k}, marks')
  {
    var ps := Positions(key, ds, |ds|, k);
    PositionsByRank(key, ds, |ds|, k);
    assert ds[..|ds|] == ds;
    forall p | 0 <= p < |ds|
      ensures p in ps[..n] <==> key(ds[p]) == k && Pairs(key, ds, others, p)
    {
      if key(ds[p]) == k && Pairs(key, ds, others, p) {
        assert ps[..n][Rank(key, ds, p)] == p;
      }
    }
  }

  /** Once every key of ds or others is decided, the marks are the pairing marks. */
  lemma MarksComplete(key: Diag -> Key, ds: seq<Diag>, others: seq<Diag>, done: set<Key>, marks: seq<bool>)
    requires MarkedFor(key, ds, others, done, marks)
    requires forall p :: 0 <= p < |ds| && Pairs(key, ds, others, p) ==> key(ds[p]) in done
    ensures marks == PairMarks(key, ds, others)
  {
  }

  /** What marking part of a key leaves: the overlap and the unmatched rest make up c. */
  ghost predicate Balanced(c: seq<Diag>, marks: seq<bool>, over: seq<Diag>)
  {
    |marks| == |c| && multiset(over) + multiset(Unmatched(c, marks)) == multiset(c)
  }

  lemma BalanceStep(c: seq<Diag>, marks: seq<bool>, over: seq<Diag>, p: nat)
    requires Balanced(c, marks, over) && p < |c| && !marks[p]
    ensures Balanced(c, marks[p := true], over + [c[p]])
  {
    MarkMoves(c, marks, p);
  }

  lemma {:induction false} NothingMatched(c: seq<Diag>, marks: seq<bool>)
    requires |marks| == |c| && forall p :: 0 <= p < |c| ==> !marks[p]
    ensures Unmatched(c, marks) == c
  {
    if c != [] {
      NothingMatched(c[..|c| - 1], marks[..|c| - 1]);
    }
  }

  /** marks' is marks with the listed positions added. */
  ghost predicate Adds(marks: seq<bool>, ps: seq<nat>, marks': seq<bool>)
  {
    |marks'| == |marks| && forall p :: 0 <= p < |marks| ==> (marks'[p] <==> marks[p] || p in ps)
  }

  lemma AddsStep(before: seq<bool>, ps: seq<nat>, i: nat, marks: seq<bool>)
    requires i < |ps| && ps[i] < |before| && Adds(before, ps[..i], marks)
    ensures Adds(before, ps[..i + 1], marks[ps[i] := true])
  {
    assert ps[..i + 1] == ps[..i] + [ps[i]];
  }

  /** The inner loop: pairs the first n positions of one key. */
  method MarkKey(c: seq<Diag>, matchedG: array<bool>, matchedC: array<bool>, gIdxs: seq<nat>, cIdxs: seq<nat>, before: seq<Diag>)
    returns (over: seq<Diag>)
    requires matchedG != matchedC && Balanced(c, matchedC[..], before)
    requires forall i :: 0 <= i < |gIdxs| ==> gIdxs[i] < matchedG.Length
    requires forall i :: 0 <= i < |cIdxs| ==> cIdxs[i] < matchedC.Length && !matchedC[cIdxs[i]]
    requires forall i, j :: 0 <= i < j < |cIdxs| ==> cIdxs[i] != cIdxs[j]
    modifies matchedG, matchedC
    ensures Adds(old(matchedG[..]), gIdxs[..Min(|gIdxs|, |cIdxs|)], matchedG[..])
    ensures Adds(old(matchedC[..]), cIdxs[..Min(|gIdxs|, |cIdxs|)], matchedC[..])
    ensures Balanced(c, matchedC[..], over)
  {
    var n := if |cIdxs| < |gIdxs| then |cIdxs| else |gIdxs|;
    over := before;
    for i := 0 to n
      invariant Adds(old(matchedG[..]), gIdxs[..i], matchedG[..])
      invariant Adds(old(matchedC[..]), cIdxs[..i], matchedC[..])
      invariant Balanced(c, matchedC[..], over)
    {
      assert cIdxs[i] !in cIdxs[..i];
      ghost var marksG, marksC := matchedG[..], matchedC[..];
      AddsStep(old(matchedG[..]), gIdxs, i, marksG);
      AddsStep(old(matchedC[..]), cIdxs, i, marksC);
      BalanceStep(c, marksC, over, cIdxs[i]);
      matchedG[gIdxs[i]] := true;
      matchedC[cIdxs[i]] := true;
      assert matchedG[..] == marksG[gIdxs[i] := true] && matchedC[..] == marksC[cIdxs[i] := true];
      over := over + [c[cIdxs[i]]];
    }
  }

  lemma PositionsAscend(key: Diag -> Key, ds: seq<Diag>, k: Key)
    ensures var ps := Positions(key, ds, |ds|, k);
            |ps| == Count(key, ds, k) &&
            (forall i :: 0 <= i < |ps| ==> ps[i] < |ds| && key(ds[ps[i]]) == k) &&
            (forall i, j :: 0 <= i < j < |ps| ==> ps[i] != ps[j])
  {
    PositionsByRank(key, ds, |ds|, k);
    assert ds[..|ds|] == ds;
  }

  /** A key of the index that has no partner is decided without marking anything. */
  lemma UnpairedStep(key: Diag -> Key, ds: seq<Diag>, others: seq<Diag>, done: set<Key>, k: Key, marks: seq<bool>)
    requires MarkedFor(key, ds, others, done, marks) && k !in done && Min(Count(key, ds, k), Count(key, others, k)) == 0
    ensures MarkedFor(key, ds, others, done + {k}, marks)
  {
    MarkStep(key, ds, others, done, k, 0, marks, marks);
  }

  lemma {:induction false} CountFound(key: Diag -> Key, ds: seq<Diag>, p: nat)
    requires p < |ds|
    ensures Count(key, ds, key(ds[p])) > 0
  {
    CountWithout(key, ds, p, key(ds[p]));
  }

  /** One round of the pairing loop. */
  method PairKey(key: Diag -> Key, g: seq<Diag>, c: seq<Diag>, matchedG: array<bool>, matchedC: array<bool>,
                 gIdxs: seq<nat>, cByKey: map<Key, seq<nat>>, k: Key, ghost done: set<Key>, before: seq<Diag>)
    returns (over: seq<Diag>)
    requires matchedG != matchedC && k !in done && Indexed(key, c, |c|, cByKey) && gIdxs == Positions(key, g, |g|, k)
    requires MarkedFor(key, g, c, done, matchedG[..]) && MarkedFor(key, c, g, done, matchedC[..]) && Balanced(c, matchedC[..], before)
    modifies matchedG, matchedC
    ensures MarkedFor(key, g, c, done + {k}, matchedG[..]) && MarkedFor(key, c, g, done + {k}, matchedC[..])
    ensures Balanced(c, matchedC[..], over)
  {
    PositionsAscend(key, g, k);
    PositionsAscend(key, c, k);
    if k !in cByKey {
      UnpairedStep(key, g, c, done, k, matchedG[..]);
      UnpairedStep(key, c, g, done, k, matchedC[..]);
      return before;
    }
    ghost var marksG, marksC := matchedG[..], matchedC[..];
    over := MarkKey(c, matchedG, matchedC, gIdxs, cByKey[k], before);
    MarkStep(key, g, c, done, k, Min(|gIdxs|, |cByKey[k]|), marksG, matchedG[..]);
    MarkStep(key, c, g, done, k, Min(|gIdxs|, |cByKey[k]|), marksC, matchedC[..]);
  }

  lemma AllDecided(key: Diag -> Key, g: seq<Diag>, c: seq<Diag>, gByKey: map<Key, seq<nat>>)
    requires Indexed(key, g, |g|, gByKey)
    ensures forall p :: 0 <= p < |g| ==> key(g[p]) in gByKey
    ensures forall p :: 0 <= p < |c| && Pairs(key, c, g, p) ==> key(c[p]) in gByKey
  {
    forall p | 0 <= p < |g|
      ensures key(g[p]) in gByKey
    {
      CountFound(key, g, p);
      PositionsAscend(key, g, key(g[p]));
    }
    forall p | 0 <= p < |c| && Pairs(key, c, g, p)
      ensures key(c[p]) in gByKey
    {
      PositionsAscend(key, g, key(c[p]));
    }
  }

  lemma PairingComplete(key: Diag -> Key, g: seq<Diag>, c: seq<Diag>, gByKey: map<Key, seq<nat>>, marksG: seq<bool>, marksC: seq<bool>)
    requires Indexed(key, g, |g|, gByKey)
    requires MarkedFor(key, g, c, gByKey.Keys, marksG) && MarkedFor(key, c, g, gByKey.Keys, marksC)
    ensures marksG == PairMarks(key, g, c) && marksC == PairMarks(key, c, g)
  {
    AllDecided(key, g, c, gByKey);
    MarksComplete(key, g, c, gByKey.Keys, marksG);
    MarksComplete(key, c, g, gByKey.Keys, marksC);
  }

  /** The pairing loop, over the keys in any order. */
  method PairAll(key: Diag -> Key, g: seq<Diag>, c: seq<Diag>, matchedG: array<bool>, matchedC: array<bool>) returns (over: seq<Diag>)
    requires matchedG != matchedC && matchedG.Length == |g| && matchedC.Length == |c|
    requires (forall p :: 0 <= p < |g| ==> !matchedG[p]) && (forall p :: 0 <= p < |c| ==> !matchedC[p])
    modifies matchedG, matchedC
    ensures matchedG[..] == PairMarks(key, g, c) && matchedC[..] == PairMarks(key, c, g)
    ensures Balanced(c, matchedC[..], over)
  {
    var gByKey := IndexByKey(key, g);
    var cByKey := IndexByKey(key, c);
    over := [];
    NothingMatched(c, matchedC[..]);
    var todo := gByKey.Keys;
    ghost var done: set<Key> := {};
    while todo != {}
      invariant todo + done == gByKey.Keys && todo !! done
      invariant MarkedFor(key, g, c, done, matchedG[..]) && MarkedFor(key, c, g, done, matchedC[..])
      invariant Balanced(c, matchedC[..], over)
      decreases todo
    {
      var k :| k in todo;
      over := PairKey(key, g, c, matchedG, matchedC, gByKey[k], cByKey, k, done, over);
      todo, done := todo - {k}, done + {k};
    }
    assert done == gByKey.Keys;
    PairingComplete(key, g, c, gByKey, matchedG[..], matchedC[..]);
  }

  method CollectUnmatched(ds: seq<Diag>, matched: array<bool>) returns (only: seq<Diag>)
    requires matched.Length == |ds|
    ensures only == Unmatched(ds, matched[..])
  {
    only := [];
    for i := 0 to |ds|
      invariant only == Unmatched(ds[..i], matched[..i])
    {
      assert ds[..i + 1][..i] == ds[..i] && matched[..i + 1][..i] == matched[..i];
      if !matched[i] {
        only := only + [ds[i]];
      }
    }
    assert ds[..|ds|] == ds && matched[..|ds|] == matched[..];
  }

  /** The pairing part of compare. */
  method Pair(key: Diag -> Key, g: seq<Diag>, c: seq<Diag>) returns (over: seq<Diag>, gOnly: seq<Diag>, cOnly: seq<Diag>)
    ensures Paired(key, g, c, over, gOnly, cOnly)
  {
    var matchedG := new bool[|g|](_ => false);
    var matchedC := new bool[|c|](_ => false);
    over := PairAll(key, g, c, matchedG, matchedC);
    gOnly := CollectUnmatched(g, matchedG);
    cOnly := CollectUnmatched(c, matchedC);
  }

  // ---- the per-linter table ----

  datatype LinterStat = LinterStat(linter: string, golangci: nat, plaid: nat, overlap: nat, golangciOnly: nat, plaidOnly: nat)

  function StatName(s: LinterStat): string { s.linter }

  function StatFn(g: seq<Diag>, c: seq<Diag>, over: seq<Diag>, gOnly: seq<Diag>, cOnly: seq<Diag>): string -> LinterStat
  {
    (l: string) => LinterStat(l, Count(LinterOf, g, l), Count(LinterOf, c, l),
                              Count(LinterOf, over, l), Count(LinterOf, gOnly, l), Count(LinterOf, cOnly, l))
  }

  function Linters(ds: seq<Diag>): set<string>
  {
    set d | d in ds :: d.linter
  }

  /** counts holds the number of diagnostics of every linter that occurs. */
  ghost predicate CountsOf(ds: seq<Diag>, counts: map<string, nat>)
  {
    counts.Keys == Linters(ds) && forall l :: At(counts, l) == Count(LinterOf, ds, l)
  }

  function At(counts: map<string, nat>, l: string): nat
  {
    if l in counts then counts[l] else 0
  }

  method CountLinters(ds: seq<Diag>) returns (counts: map<string, nat>)
    ensures CountsOf(ds, counts)
  {
    counts := map[];
    for i := 0 to |ds|
      invariant CountsOf(ds[..i], counts)
    {
      assert ds[..i + 1] == ds[..i] + [ds[i]];
      var l := ds[i].linter;
      counts := counts[l := At(counts, l) + 1];
    }
    assert ds[..|ds|] == ds;
  }

  /** One row per listed linter, in the order listed. */
  method Rows(listed: seq<string>, g: seq<Diag>, c: seq<Diag>, over: seq<Diag>, gOnly: seq<Diag>, cOnly: seq<Diag>,
              gCount: map<string, nat>, cCount: map<string, nat>) returns (stats: seq<LinterStat>)
    requires CountsOf(g, gCount) && CountsOf(c, cCount)
    ensures stats == Map(StatFn(g, c, over, gOnly, cOnly), listed)
  {
    var oCount := CountLinters(over);
    var gOnlyCount := CountLinters(gOnly);
    var cOnlyCount := CountLinters(cOnly);
    stats := [];
    for i := 0 to |listed|
      invariant stats == Map(StatFn(g, c, over, gOnly, cOnly), listed[..i])
    {
      var n := listed[i];
      stats := stats + [LinterStat(n, At(gCount, n), At(cCount, n), At(oCount, n), At(gOnlyCount, n), At(cOnlyCount, n))];
    }
    assert listed[..|listed|] == listed;
  }

  /** The table, whatever order the linters are enumerated in. */
  ghost function Table(g: seq<Diag>, c: seq<Diag>, over: seq<Diag>, gOnly: seq<Diag>, cOnly: seq<Diag>): seq<LinterStat>
  {
    Map(StatFn(g, c, over, gOnly, cOnly), SortedElems(Linters(g) + Linters(c)))
  }

  lemma SortedTable(listed: seq<string>, g: seq<Diag>, c: seq<Diag>, over: seq<Diag>, gOnly: seq<Diag>, cOnly: seq<Diag>)
    requires Enumerates(listed, Linters(g) + Linters(c))
    ensures Sort(StatName, Map(StatFn(g, c, over, gOnly, cOnly), listed)) == Table(g, c, over, gOnly, cOnly)
  {
    SortMap(Self, StatName, StatFn(g, c, over, gOnly, cOnly), listed);
    SortedListing(listed, Linters(g) + Linters(c));
  }

  /** compare: the pairing and its per-linter table, sorted by linter. */
  method RunCompare(stem: Stem, g: seq<Diag>, c: seq<Diag>)
    returns (over: seq<Diag>, gOnly: seq<Diag>, cOnly: seq<Diag>, perLinter: seq<LinterStat>)
    ensures Paired(KeyFn(stem), g, c, over, gOnly, cOnly)
    ensures perLinter == Table(g, c, over, gOnly, cOnly)
  {
    over, gOnly, cOnly := Pair(KeyFn(stem), g, c);
    var gCount := CountLinters(g);
    var cCount := CountLinters(c);
    var listed := EnumerateSet(gCount.Keys + cCount.Keys);
    var stats := Rows(listed, g, c, over, gOnly, cOnly, gCount, cCount);
    SortedTable(listed, g, c, over, gOnly, cOnly);
    perLinter := Sort(StatName, stats);
  }

  /** How many diagnostics of the list come from the linter. */
  function Of(linter: string, ds: seq<Diag>): nat
  {
    if ds == [] then 0 else (if ds[0].linter == linter then 1 else 0) + Of(linter, ds[1..])
  }

  lemma {:induction false} OfIsCount(linter: string, ds: seq<Diag>)
    ensures Of(linter, ds) == Count(LinterOf, ds, linter)
  {
    if ds != [] {
      OfIsCount(linter, ds[1..]);
      CountAppend(LinterOf, [ds[0]], ds[1..], linter);
      CountOne(LinterOf, ds[0], linter);
      assert [ds[0]] + ds[1..] == ds;
    }
  }

  /** The rows stand in strictly ascending order of linters, and each holds the linter's five counts. */
  lemma TableMeaning(g: seq<Diag>, c: seq<Diag>, over: seq<Diag>, gOnly: seq<Diag>, cOnly: seq<Diag>, i: nat)
    requires i < |Table(g, c, over, gOnly, cOnly)|
    ensures var s := Table(g, c, over, gOnly, cOnly)[i];
            s == LinterStat(s.linter, Of(s.linter, g), Of(s.linter, c), Of(s.linter, over), Of(s.linter, gOnly), Of(s.linter, cOnly))
    ensures forall j :: 0 <= j < i ==> Less(Table(g, c, over, gOnly, cOnly)[j].linter, Table(g, c, over, gOnly, cOnly)[i].linter)
  {
    var ls := SortedElems(Linters(g) + Linters(c));
    OfIsCount(ls[i], g);
    OfIsCount(ls[i], c);
    OfIsCount(ls[i], over);
    OfIsCount(ls[i], gOnly);
    OfIsCount(ls[i], cOnly);
    forall j | 0 <= j < i
      ensures Less(ls[j], ls[i])
    {
      assert Leq(Self(ls[j]), Self(ls[i])) && ls[j] != ls[i];
    }
  }

  /** Every linter of either side has a row, and no other. */
  lemma TableCovers(g: seq<Diag>, c: seq<Diag>, over: seq<Diag>, gOnly: seq<Diag>, cOnly: seq<Diag>, linter: string)
    ensures (exists s :: s in Table(g, c, over, gOnly, cOnly) && s.linter == linter) <==> Of(linter, g) + Of(linter, c) > 0
  {
    var ls, t := SortedElems(Linters(g) + Linters(c)), Table(g, c, over, gOnly, cOnly);
    OfSome(linter, g);
    OfSome(linter, c);
    assert linter in ls <==> linter in Linters(g) + Linters(c);
    if linter in ls {
      var i :| 0 <= i < |ls| && ls[i] == linter;
      assert t[i] in t && t[i].linter == linter;
    }
    if s :| s in t && s.linter == linter {
      var i :| 0 <= i < |t| && t[i] == s;
      assert ls[i] == linter;
    }
  }

  lemma {:induction false} OfSome(linter: string, ds: seq<Diag>)
    ensures Of(linter, ds) > 0 <==> linter in Linters(ds)
  {
    if ds != [] {
      OfSome(linter, ds[1..]);
      assert forall d :: d in ds <==> d == ds[0] || d in ds[1..];
    }
  }

  /** In every row of the table each side's total is overlap plus leftovers. */
  lemma TableAddsUp(stem: Stem, g: seq<Diag>, c: seq<Diag>, over: seq<Diag>, gOnly: seq<Diag>, cOnly: seq<Diag>, i: nat)
    requires Paired(KeyFn(stem), g, c, over, gOnly, cOnly) && i < |Table(g, c, over, gOnly, cOnly)|
    ensures var s := Table(g, c, over, gOnly, cOnly)[i];
            s.golangci == s.overlap + s.golangciOnly && s.plaid == s.overlap + s.plaidOnly
  {
    var l := SortedElems(Linters(g) + Linters(c))[i];
    GolangciTotals(stem, g, c, over, gOnly, cOnly, l);
    PlaidTotals(stem, g, c, over, gOnly, cOnly, l);
  }
}
