// Sorting by a string key: the in-place insertion sort of the canonical JSON
// printer, a functional sort standing for the library's sort.Slice and
// sort.Strings, and the uniqueness of the sorted order.

module Sorting {
  import opened Strings

  ghost predicate SortedBy<T(!new)>(key: T -> string, s: seq<T>)
  {
    forall i, j :: 0 <= i < j < |s| ==> Leq(key(s[i]), key(s[j]))
  }

  function Self(s: string): string { s }

  lemma RemoveAt<T>(s: seq<T>, i: nat)
    requires i < |s|
    ensures multiset(s) == multiset(s[..i] + s[i + 1..]) + multiset{s[i]}
  {
    assert s == s[..i] + ([s[i]] + s[i + 1..]);
  }

  lemma SameElements<T>(a: seq<T>, b: seq<T>)
    requires multiset(a) == multiset(b)
    ensures |a| == |b|
    ensures forall x :: x in a ==> x in b
  {
    assert |multiset(a)| == |multiset(b)|;
    forall x | x in a ensures x in b {
      assert x in multiset(b);
    }
  }

  lemma CancelOne<T>(m: multiset<T>, n: multiset<T>, x: T)
    requires m + multiset{x} == n + multiset{x}
    ensures m == n
  {
    assert m == (m + multiset{x}) - multiset{x};
    assert n == (n + multiset{x}) - multiset{x};
  }

  /** Taking one common element out of two permutations leaves permutations. */
  lemma RemoveCommon<T>(a: seq<T>, b: seq<T>, i: nat)
    requires a != [] && i < |b| && a[0] == b[i] && multiset(a) == multiset(b)
    ensures multiset(a[1..]) == multiset(b[..i] + b[i + 1..])
  {
    RemoveAt(a, 0);
    RemoveAt(b, i);
    assert a[..0] + a[1..] == a[1..];
    CancelOne(multiset(a[1..]), multiset(b[..i] + b[i + 1..]), a[0]);
  }

  /** Elements with the same key are the same. */
  ghost predicate KeysApart<T(!new)>(key: T -> string, a: seq<T>)
  {
    forall x, y :: x in a && y in a && key(x) == key(y) ==> x == y
  }

  lemma TailsAgree<T(!new)>(key: T -> string, a: seq<T>, b: seq<T>)
    requires a != [] && b != [] && a[0] == b[0] && multiset(a) == multiset(b)
    ensures multiset(a[1..]) == multiset(b[1..])
  {
    RemoveCommon(a, b, 0);
    assert b[..0] + b[1..] == b[1..];
  }

  /** Where the key tells elements apart, the sorted order is unique. */
  lemma {:induction false} SortedUnique<T(!new)>(key: T -> string, a: seq<T>, b: seq<T>)
    requires SortedBy(key, a) && SortedBy(key, b)
    requires multiset(a) == multiset(b) && KeysApart(key, a)
    ensures a == b
  {
    if a == [] {
      assert |multiset(b)| == 0;
    } else {
      SameHead(key, a, b);
      TailsAgree(key, a, b);
      SortedUnique(key, a[1..], b[1..]);
      assert a == [a[0]] + a[1..] && b == [b[0]] + b[1..];
    }
  }

  lemma SameHead<T(!new)>(key: T -> string, a: seq<T>, b: seq<T>)
    requires SortedBy(key, a) && SortedBy(key, b)
    requires multiset(a) == multiset(b) && a != [] && KeysApart(key, a)
    ensures b != [] && a[0] == b[0]
  {
    assert |multiset(b)| == |a|;
    SameElements(b, a);
    LeastFirst(key, a, b[0]);
    SameElements(a, b);
    LeastFirst(key, b, a[0]);
    LeqAntisymmetric(key(a[0]), key(b[0]));
  }

  lemma LeastFirst<T(!new)>(key: T -> string, s: seq<T>, x: T)
    requires SortedBy(key, s) && x in s
    ensures Leq(key(s[0]), key(x))
  {
  }

  // ---- functional sort ----

  function Insert<T(!new)>(key: T -> string, x: T, s: seq<T>): (r: seq<T>)
    ensures multiset(r) == multiset(s) + multiset{x}
  {
    if s == [] then [x]
    else if Less(key(s[0]), key(x)) then
      var r := Insert(key, x, s[1..]);
      assert s == [s[0]] + s[1..];
      [s[0]] + r
    else [x] + s
  }

  function Sort<T(!new)>(key: T -> string, s: seq<T>): (r: seq<T>)
    ensures multiset(r) == multiset(s)
  {
    if s == [] then []
    else
      assert s == [s[0]] + s[1..];
      Insert(key, s[0], Sort(key, s[1..]))
  }

  lemma {:induction false} InsertSorted<T(!new)>(key: T -> string, x: T, s: seq<T>)
    requires SortedBy(key, s)
    ensures SortedBy(key, Insert(key, x, s))
  {
    if s != [] {
      if Less(key(s[0]), key(x)) {
        InsertSorted(key, x, s[1..]);
        var r := Insert(key, x, s[1..]);
        forall j | 0 <= j < |r| ensures Leq(key(s[0]), key(r[j])) {
          assert r[j] in multiset(r);
          assert r[j] == x || r[j] in s[1..];
        }
      } else {
        LessTotal(key(s[0]), key(x));
        forall j | 0 <= j < |s| ensures Leq(key(x), key(s[j])) {
          LeqTransitive(key(x), key(s[0]), key(s[j]));
        }
      }
    }
  }

  lemma {:induction false} SortSorted<T(!new)>(key: T -> string, s: seq<T>)
    ensures SortedBy(key, Sort(key, s))
  {
    if s != [] {
      SortSorted(key, s[1..]);
      InsertSorted(key, s[0], Sort(key, s[1..]));
    }
  }

  /** The enumeration order of distinctly keyed elements does not survive sorting. */
  lemma SortOrderFree<T(!new)>(key: T -> string, a: seq<T>, b: seq<T>)
    requires multiset(a) == multiset(b)
    requires forall x, y :: x in a && y in a && key(x) == key(y) ==> x == y
    ensures Sort(key, a) == Sort(key, b)
  {
    SortSorted(key, a);
    SortSorted(key, b);
    forall x | x in Sort(key, a) ensures x in a {
      assert x in multiset(Sort(key, a));
    }
    SortedUnique(key, Sort(key, a), Sort(key, b));
  }

  // ---- sets of strings, enumerated in any order and then sorted ----

  ghost predicate Enumerates(s: seq<string>, elems: set<string>)
  {
    && (forall i, j :: 0 <= i < j < |s| ==> s[i] != s[j])
    && (forall x :: x in s <==> x in elems)
  }

  ghost predicate SortedListingOf(r: seq<string>, elems: set<string>)
  {
    Enumerates(r, elems) && SortedBy(Self, r)
  }

  /** The sorted listing of a set, independent of any enumeration order. */
  ghost function SortedElems(elems: set<string>): (r: seq<string>)
    ensures Enumerates(r, elems)
    ensures SortedBy(Self, r)
  {
    ListingExists(elems);
    var r :| SortedListingOf(r, elems);
    r
  }

  lemma {:induction false} ListingExists(elems: set<string>)
    ensures exists r :: SortedListingOf(r, elems)
    decreases elems
  {
    if elems == {} {
      assert SortedListingOf([], elems);
    } else {
      LeastExists(elems);
      var m :| m in elems && forall x :: x in elems ==> Leq(m, x);
      ListingExists(elems - {m});
      var r :| SortedListingOf(r, elems - {m});
      LeastInFront(m, r, elems);
    }
  }

  lemma LeastInFront(m: string, r: seq<string>, elems: set<string>)
    requires m in elems && (forall x :: x in elems ==> Leq(m, x)) && SortedListingOf(r, elems - {m})
    ensures SortedListingOf([m] + r, elems)
  {
    forall i, j | 0 <= i < j < |[m] + r|
      ensures Leq(Self(([m] + r)[i]), Self(([m] + r)[j])) && ([m] + r)[i] != ([m] + r)[j]
    {
      assert r[j - 1] in r;
    }
    assert forall x :: x in [m] + r <==> x == m || x in r;
  }

  lemma {:induction false} LeastExists(elems: set<string>)
    requires elems != {}
    ensures exists m :: m in elems && forall x :: x in elems ==> Leq(m, x)
  {
    var e :| e in elems;
    if elems == {e} {
      assert e in elems && forall x :: x in elems ==> Leq(e, x);
    } else {
      var rest := elems - {e};
      assert rest != {};
      LeastExists(rest);
      var m :| m in rest && forall x :: x in rest ==> Leq(m, x);
      LessTotal(m, e);
      var l := if Less(m, e) then m else e;
      forall x | x in elems ensures Leq(l, x) {
        if x != e && l == e { LeqTransitive(e, m, x); }
      }
      assert l in elems;
    }
  }

  lemma {:induction false} EnumerationMultiset(a: seq<string>, elems: set<string>)
    requires Enumerates(a, elems)
    ensures multiset(a) == multiset(elems)
  {
    if a == [] {
      assert elems == {};
    } else {
      var rest := elems - {a[0]};
      forall x | x in rest ensures x in a[1..] {
        assert x in a && x != a[0];
      }
      EnumerationMultiset(a[1..], rest);
      assert a == [a[0]] + a[1..];
      assert a[0] in elems && elems == rest + {a[0]};
    }
  }

  /** Collecting a set in any order and sorting gives its one sorted listing. */
  lemma SortedListing(a: seq<string>, elems: set<string>)
    requires Enumerates(a, elems)
    ensures Sort(Self, a) == SortedElems(elems)
  {
    EnumerationMultiset(a, elems);
    EnumerationMultiset(SortedElems(elems), elems);
    SortSorted(Self, a);
    SortedUnique(Self, Sort(Self, a), SortedElems(elems));
  }

  lemma SortedEnumeration(a: seq<string>, elems: set<string>)
    requires Enumerates(a, elems) && SortedBy(Self, a)
    ensures a == SortedElems(elems)
  {
    EnumerationMultiset(a, elems);
    EnumerationMultiset(SortedElems(elems), elems);
    SortedUnique(Self, a, SortedElems(elems));
  }

  /** `for k := range m { keys = append(keys, k) }`: any order is possible. */
  method EnumerateSet(elems: set<string>) returns (s: seq<string>)
    ensures Enumerates(s, elems)
  {
    s := [];
    var rest := elems;
    while rest != {}
      invariant rest <= elems
      invariant Enumerates(s, elems - rest)
      decreases rest
    {
      var x :| x in rest;
      s := s + [x];
      rest := rest - {x};
    }
  }

  // ---- the in-place insertion sort ----

  lemma SwapMultiset<T>(s: seq<T>, i: nat, j: nat)
    requires i < |s| && j < |s|
    ensures multiset(s[i := s[j]][j := s[i]]) == multiset(s)
  {
    assert multiset(s[i := s[j]]) == multiset(s) - multiset{s[i]} + multiset{s[j]};
  }

  method SwapDown(s: array<string>, j: nat)
    requires 0 < j < s.Length
    modifies s
    ensures s[..] == old(s[..])[j - 1 := old(s[j])][j := old(s[j - 1])]
    ensures multiset(s[..]) == old(multiset(s[..]))
  {
    SwapMultiset(s[..], j - 1, j);
    s[j - 1], s[j] := s[j], s[j - 1];
  }

  /** codec.go's sortStrings. */
  method SortStrings(s: array<string>)
    modifies s
    ensures SortedBy(Self, s[..])
    ensures multiset(s[..]) == old(multiset(s[..]))
  {
    var i := 1;
    while i < s.Length
      invariant 1 <= i
      invariant forall p, q :: 0 <= p < q < i && q < s.Length ==> Leq(s[p], s[q])
      invariant multiset(s[..]) == old(multiset(s[..]))
    {
      var j := i;
      while j > 0 && Less(s[j], s[j - 1])
        invariant 0 <= j <= i < s.Length
        invariant forall p, q :: 0 <= p < q <= i && q != j ==> Leq(s[p], s[q])
        invariant multiset(s[..]) == old(multiset(s[..]))
      {
        SwapDown(s, j);
        j := j - 1;
      }
      if j > 0 { LessTotal(s[j], s[j - 1]); }
      forall p | 0 <= p < j ensures Leq(s[p], s[j]) {
        if p < j - 1 { LeqTransitive(s[p], s[j - 1], s[j]); }
      }
      i := i + 1;
    }
  }
}
