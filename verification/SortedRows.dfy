// The shape shared by the three sorted hashes of internal/l0/l0.go: rows sorted
// by name and fed to one hasher, each row self-delimiting.

module SortedRows {
  import opened Strings
  import opened Framing
  import opened Sorting

  /** A sorted line of one of the hashes: framed name, framed fields, raw digest. */
  datatype Row = Row(name: string, fields: seq<string>, digest: Digest)

  function NameOf(r: Row): string { r.name }

  function RowBytes(r: Row): string
  {
    Frame(r.name) + Frames(r.fields) + r.digest
  }

  function RowsBytes(rows: seq<Row>): string
  {
    if rows == [] then "" else RowBytes(rows[0]) + RowsBytes(rows[1..])
  }

  ghost predicate Width(rows: seq<Row>, w: nat)
  {
    forall i :: 0 <= i < |rows| ==> |rows[i].fields| == w
  }

  lemma FirstFrame(a: seq<string>, x: string)
    requires a != []
    ensures Frames(a) + x == Frame(a[0]) + (Frames(a[1..]) + x)
  {
  }

  lemma {:induction false} FieldsPrefix(a: seq<string>, x: string, b: seq<string>, y: string)
    requires |a| == |b|
    requires Frames(a) + x == Frames(b) + y && |Frames(a) + x| < TWO64
    ensures a == b && x == y
  {
    if a == [] {
      assert Frames(a) + x == x && Frames(b) + y == y;
    } else {
      FirstFrame(a, x);
      FirstFrame(b, y);
      FramePrefix(a[0], Frames(a[1..]) + x, b[0], Frames(b[1..]) + y);
      FieldsPrefix(a[1..], x, b[1..], y);
      assert a == [a[0]] + a[1..] && b == [b[0]] + b[1..];
    }
  }

  lemma RowPrefix(a: Row, x: string, b: Row, y: string)
    requires |a.fields| == |b.fields|
    requires RowBytes(a) + x == RowBytes(b) + y && |RowBytes(a) + x| < TWO64
    ensures a == b && x == y
  {
    var s, t := a.digest + x, b.digest + y;
    RowShape(a, x);
    RowShape(b, y);
    FramePrefix(a.name, Frames(a.fields) + s, b.name, Frames(b.fields) + t);
    FieldsPrefix(a.fields, s, b.fields, t);
    assert s[..32] == a.digest && s[32..] == x;
    assert t[..32] == b.digest && t[32..] == y;
  }

  lemma RowShape(r: Row, x: string)
    ensures RowBytes(r) + x == Frame(r.name) + (Frames(r.fields) + (r.digest + x))
  {
  }

  lemma {:induction false} RowsInjective(a: seq<Row>, b: seq<Row>, w: nat)
    requires Width(a, w) && Width(b, w)
    requires RowsBytes(a) == RowsBytes(b) && |RowsBytes(a)| < TWO64
    ensures a == b
  {
    if a != [] && b != [] {
      RowPrefix(a[0], RowsBytes(a[1..]), b[0], RowsBytes(b[1..]));
      RowsInjective(a[1..], b[1..], w);
      assert a == [a[0]] + a[1..] && b == [b[0]] + b[1..];
    }
  }

  lemma {:induction false} RowsBytesAppend(rows: seq<Row>, r: Row)
    ensures RowsBytes(rows + [r]) == RowsBytes(rows) + RowBytes(r)
  {
    if rows == [] {
      assert rows + [r] == [r];
    } else {
      assert (rows + [r])[1..] == rows[1..] + [r];
      RowsBytesAppend(rows[1..], r);
    }
  }

  /** The loop shared by HashFiles, HashAnalyzerSet and HashDepClosure. */
  method HashSortedRows(sha: Sha, rows: seq<Row>) returns (h: Digest)
    ensures h == sha(RowsBytes(Sort(NameOf, rows)))
  {
    var sorted := Sort(NameOf, rows);
    var fed := "";
    for i := 0 to |sorted|
      invariant fed == RowsBytes(sorted[..i])
    {
      var r := sorted[i];
      fed := fed + (Frame(r.name) + Frames(r.fields) + r.digest);
      RowsBytesAppend(sorted[..i], r);
      assert sorted[..i] + [r] == sorted[..i + 1];
    }
    assert sorted[..|sorted|] == sorted;
    h := sha(fed);
  }

  // ---- mapping through a sort ----

  function Map<A, B>(f: A -> B, s: seq<A>): (r: seq<B>)
    ensures |r| == |s| && forall i :: 0 <= i < |s| ==> r[i] == f(s[i])
  {
    seq(|s|, i requires 0 <= i < |s| => f(s[i]))
  }

  lemma {:induction false} InsertMap<A(!new), B(!new)>(ka: A -> string, kb: B -> string, f: A -> B, x: A, s: seq<A>)
    requires forall a :: kb(f(a)) == ka(a)
    ensures Map(f, Insert(ka, x, s)) == Insert(kb, f(x), Map(f, s))
  {
    if s != [] && Less(ka(s[0]), ka(x)) {
      InsertMap(ka, kb, f, x, s[1..]);
      MapFront(f, s);
      MapFront(f, Insert(ka, x, s));
    } else {
      MapFront(f, Insert(ka, x, s));
    }
  }

  lemma MapFront<A, B>(f: A -> B, s: seq<A>)
    requires s != []
    ensures Map(f, s)[0] == f(s[0]) && Map(f, s)[1..] == Map(f, s[1..])
    ensures Map(f, s) == [f(s[0])] + Map(f, s[1..])
  {
  }

  lemma {:induction false} SortMap<A(!new), B(!new)>(ka: A -> string, kb: B -> string, f: A -> B, s: seq<A>)
    requires forall a :: kb(f(a)) == ka(a)
    ensures Map(f, Sort(ka, s)) == Sort(kb, Map(f, s))
  {
    if s != [] {
      SortMap(ka, kb, f, s[1..]);
      InsertMap(ka, kb, f, s[0], Sort(ka, s[1..]));
      MapFront(f, s);
    }
  }
}
