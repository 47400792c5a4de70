// The salt of an analyzer's configuration (internal/analyzers/configsalt.go):
// empty values are dropped at every depth before the rest is printed and hashed.

module ConfigSalt {
  import opened Strings
  import opened Sorting
  import opened Framing
  import opened CanonicalJson

  // ---- what counts as empty ----

  /** null, "", and arrays and objects holding nothing but empty values. */
  ghost predicate Empty(v: Json)
  {
    match v
    case Null => true
    case Str(s) => s == ""
    case Arr(es) => forall i :: 0 <= i < |es| ==> Empty(es[i])
    case Obj(m) => forall k :: k in m ==> Empty(m[k])
    case _ => false
  }

  /** No empty value is left at any depth. */
  ghost predicate Trimmed(v: Json)
  {
    && !Empty(v)
    && (v.Arr? ==> forall i :: 0 <= i < |v.elems| ==> Trimmed(v.elems[i]))
    && (v.Obj? ==> forall k :: k in v.members ==> Trimmed(v.members[k]))
  }

  // ---- canonicalize ----

  /** None stands for Go's nil. */
  ghost function Canon(v: Json): Option<Json>
    decreases v, 1, 0
  {
    match v
    case Null => None
    case Bool(_) => Some(v)
    case Num(_) => Some(v)
    case Str(s) => if s == "" then None else Some(v)
    case Arr(es) => if CanonElems(v, |es|) == [] then None else Some(Arr(CanonElems(v, |es|)))
    case Obj(m) => if CanonMembers(v) == map[] then None else Some(Obj(CanonMembers(v)))
  }

  /** What is left of the first n elements. */
  ghost function CanonElems(v: Json, n: nat): seq<Json>
    requires v.Arr? && n <= |v.elems|
    decreases v, 0, n
  {
    if n == 0 then []
    else CanonElems(v, n - 1) + Kept(Canon(v.elems[n - 1]))
  }

  function Kept(c: Option<Json>): seq<Json>
  {
    if c.None? then [] else [c.value]
  }

  ghost function CanonMembers(v: Json): map<string, Json>
    requires v.Obj?
    decreases v, 0, 0
  {
    map k | k in v.members && Canon(v.members[k]).Some? :: Canon(v.members[k]).value
  }

  /** The value the salt stands for. */
  ghost function Normal(v: Json): Json
  {
    if Canon(v).Some? then Canon(v).value else Null
  }

  // ---- the code: ordered objects ----

  /** The values canonicalize returns: orderedObject lists its keys and values side by side. */
  datatype Ordered = Leaf(v: Json) | List(items: seq<Ordered>) | Record(keys: seq<string>, values: seq<Ordered>)

  ghost predicate Represents(o: Ordered, v: Json)
  {
    match o
    case Leaf(x) => x == v && !v.Arr? && !v.Obj?
    case List(items) => v.Arr? && |items| == |v.elems| && forall i :: 0 <= i < |items| ==> Represents(items[i], v.elems[i])
    case Record(keys, values) =>
      && v.Obj? && keys == SortedElems(v.members.Keys) && |values| == |keys|
      && forall i :: 0 <= i < |keys| ==> keys[i] in v.members && Represents(values[i], v.members[keys[i]])
  }

  ghost predicate Stands(c: Option<Ordered>, w: Option<Json>)
  {
    if w.None? then c.None? else c.Some? && Represents(c.value, w.value)
  }

  method Canonicalize(v: Json) returns (c: Option<Ordered>)
    ensures Stands(c, Canon(v))
    decreases v, 1
  {
    match v
    case Null => c := None;
    case Bool(_) => c := Some(Leaf(v));
    case Num(_) => c := Some(Leaf(v));
    case Str(s) => c := if s == "" then None else Some(Leaf(v));
    case Arr(_) => c := CanonicalizeArray(v);
    case Obj(_) => c := CanonicalizeObject(v);
  }

  method CanonicalizeArray(v: Json) returns (c: Option<Ordered>)
    requires v.Arr?
    ensures Stands(c, Canon(v))
    decreases v, 0
  {
    var out: seq<Ordered> := [];
    for i := 0 to |v.elems|
      invariant |out| == |CanonElems(v, i)|
      invariant forall j :: 0 <= j < |out| ==> Represents(out[j], CanonElems(v, i)[j])
    {
      var ce := Canonicalize(v.elems[i]);
      if ce.None? { continue; }
      out := out + [ce.value];
    }
    c := if out == [] then None else Some(List(out));
  }

  /** The keys among the first n that are in left. */
  ghost predicate KeptKeys(left: set<string>, all: seq<string>, n: nat, keys: seq<string>)
    requires n <= |all|
  {
    && SortedBy(Self, keys)
    && (forall i, j :: 0 <= i < j < |keys| ==> keys[i] != keys[j])
    && (forall k :: k in keys <==> k in all[..n] && k in left)
  }

  lemma KeysBefore(left: set<string>, all: seq<string>, n: nat, keys: seq<string>, i: nat)
    requires n < |all| && SortedBy(Self, all) && (forall i, j :: 0 <= i < j < |all| ==> all[i] != all[j])
    requires KeptKeys(left, all, n, keys) && i < |keys|
    ensures Leq(keys[i], all[n]) && keys[i] != all[n]
  {
    assert keys[i] in keys;
    var j :| 0 <= j < n && all[j] == keys[i];
    assert Leq(Self(all[j]), Self(all[n]));
  }

  lemma KeptKeysStep(left: set<string>, all: seq<string>, n: nat, keys: seq<string>)
    requires n < |all| && SortedBy(Self, all) && (forall i, j :: 0 <= i < j < |all| ==> all[i] != all[j])
    requires KeptKeys(left, all, n, keys)
    ensures KeptKeys(left, all, n + 1, if all[n] in left then keys + [all[n]] else keys)
  {
    assert all[..n + 1] == all[..n] + [all[n]];
    forall i | 0 <= i < |keys|
      ensures Leq(keys[i], all[n]) && keys[i] != all[n]
    {
      KeysBefore(left, all, n, keys, i);
    }
  }

  ghost predicate ValuesStand(m: map<string, Json>, keys: seq<string>, values: seq<Ordered>)
  {
    |values| == |keys| && forall j :: 0 <= j < |keys| ==> keys[j] in m && Represents(values[j], m[keys[j]])
  }

  lemma ValuesStandStep(m: map<string, Json>, keys: seq<string>, values: seq<Ordered>, k: string, o: Ordered)
    requires ValuesStand(m, keys, values) && k in m && Represents(o, m[k])
    ensures ValuesStand(m, keys + [k], values + [o])
  {
  }

  lemma RecordStands(v: Json, all: seq<string>, keys: seq<string>, values: seq<Ordered>)
    requires v.Obj? && all == SortedElems(v.members.Keys)
    requires KeptKeys(CanonMembers(v).Keys, all, |all|, keys) && ValuesStand(CanonMembers(v), keys, values)
    ensures Stands(if keys == [] then None else Some(Record(keys, values)), Canon(v))
  {
    assert all[..|all|] == all;
    var m := CanonMembers(v);
    SortedEnumeration(keys, m.Keys);
    if keys == [] {
      assert forall k :: k !in m.Keys;
      assert m == map[];
    } else {
      assert keys[0] in m.Keys;
      assert Represents(Record(keys, values), Obj(m));
    }
  }

  method CanonicalizeObject(v: Json) returns (c: Option<Ordered>)
    requires v.Obj?
    ensures Stands(c, Canon(v))
    decreases v, 0
  {
    var all := CanonicalJson.SortedKeys(v.members);
    var keys: seq<string>, values: seq<Ordered> := [], [];
    ghost var m := CanonMembers(v);
    for i := 0 to |all|
      invariant KeptKeys(m.Keys, all, i, keys) && ValuesStand(m, keys, values)
    {
      assert all[i] in all;
      var cv := Canonicalize(v.members[all[i]]);
      KeptKeysStep(m.Keys, all, i, keys);
      if cv.None? { continue; }
      ValuesStandStep(m, keys, values, all[i], cv.value);
      keys := keys + [all[i]];
      values := values + [cv.value];
    }
    RecordStands(v, all, keys, values);
    c := if keys == [] then None else Some(Record(keys, values));
  }

  /** MarshalJSON: keys in slice order. */
  method Marshal(q: Quote, o: Ordered, ghost v: Json) returns (buf: string)
    requires Represents(o, v)
    ensures buf == Print(q, v)
    decreases o, 1
  {
    match o
    case Leaf(x) => buf := CanonicalJson.WriteCanonical(q, x);
    case List(_) => buf := MarshalList(q, o, v);
    case Record(_, _) => buf := MarshalRecord(q, o, v);
  }

  method MarshalList(q: Quote, o: Ordered, ghost v: Json) returns (buf: string)
    requires o.List? && Represents(o, v)
    ensures buf == Print(q, v)
    decreases o, 0
  {
    buf := "[";
    for i := 0 to |o.items|
      invariant buf + ArrayRest(q, v, i) == "[" + ArrayRest(q, v, 0)
    {
      var e := Marshal(q, o.items[i], v.elems[i]);
      Regroup(buf, Comma(i), e + ArrayRest(q, v, i + 1));
      Regroup(buf + Comma(i), e, ArrayRest(q, v, i + 1));
      if i > 0 { buf := buf + ","; }
      buf := buf + e;
    }
    buf := buf + "]";
  }

  method MarshalMember(q: Quote, o: Ordered, i: nat, ghost v: Json, buf: string) returns (out: string)
    requires o.Record? && i < |o.keys| && i < |o.values| && Represents(o.values[i], v)
    ensures out == buf + Comma(i) + q(o.keys[i]) + ":" + Print(q, v)
    decreases o, 0, 0
  {
    out := buf;
    if i > 0 { out := out + ","; }
    out := out + q(o.keys[i]);
    out := out + ":";
    var e := Marshal(q, o.values[i], v);
    out := out + e;
  }

  method MarshalRecord(q: Quote, o: Ordered, ghost v: Json) returns (buf: string)
    requires o.Record? && v.Obj? && ValuesStand(v.members, o.keys, o.values)
    requires forall k :: k in o.keys ==> k in v.members
    ensures buf == "{" + ObjectRest(q, v, o.keys, 0)
    decreases o, 0, 1
  {
    buf := "{";
    for i := 0 to |o.keys|
      invariant buf + ObjectRest(q, v, o.keys, i) == "{" + ObjectRest(q, v, o.keys, 0)
    {
      ObjectRestStep(q, v, o.keys, i, buf);
      buf := MarshalMember(q, o, i, v.members[o.keys[i]], buf);
    }
    buf := buf + "}";
  }

  ghost function Salt(sha: Sha, q: Quote, analyzer: string, v: Json): Digest
  {
    sha(Frames([analyzer, Print(q, Normal(v))]))
  }

  /** ConfigSalt, after the configuration has been decoded to generic JSON. */
  method ComputeSalt(sha: Sha, q: Quote, analyzer: string, v: Json) returns (salt: Digest)
    ensures salt == Salt(sha, q, analyzer, v)
  {
    var c := Canonicalize(v);
    var canonical := "null";
    if c.Some? {
      canonical := Marshal(q, c.value, Canon(v).value);
    }
    salt := NewActionID(sha, [analyzer, canonical]);
  }

  // ---- normal forms ----

  /** nil is returned exactly for empty values. */
  lemma {:induction false} NilExactly(v: Json)
    ensures Canon(v).None? <==> Empty(v)
    decreases v, 1, 0
  {
    match v
    case Arr(es) => NilElems(v, |es|);
    case Obj(m) =>
      forall k | k in m
        ensures k !in CanonMembers(v) <==> Empty(m[k])
      {
        NilExactly(m[k]);
      }
      assert CanonMembers(v) == map[] <==> forall k :: k in m ==> k !in CanonMembers(v);
    case _ =>
  }

  lemma {:induction false} NilElems(v: Json, n: nat)
    requires v.Arr? && n <= |v.elems|
    ensures CanonElems(v, n) == [] <==> forall i :: 0 <= i < n ==> Empty(v.elems[i])
    decreases v, 0, n
  {
    if n > 0 {
      NilElems(v, n - 1);
      NilExactly(v.elems[n - 1]);
    }
  }

  /** Nothing empty is left at any depth. */
  lemma {:induction false} CanonTrimmed(v: Json)
    ensures Canon(v).Some? ==> Trimmed(Canon(v).value)
    decreases v, 1, 0
  {
    match v
    case Arr(es) =>
      TrimmedElems(v, |es|);
      if CanonElems(v, |es|) != [] {
        assert Trimmed(CanonElems(v, |es|)[0]);
      }
    case Obj(m) =>
      forall k | k in CanonMembers(v)
        ensures Trimmed(CanonMembers(v)[k])
      {
        CanonTrimmed(m[k]);
      }
    case _ =>
  }

  lemma {:induction false} TrimmedElems(v: Json, n: nat)
    requires v.Arr? && n <= |v.elems|
    ensures forall i :: 0 <= i < |CanonElems(v, n)| ==> Trimmed(CanonElems(v, n)[i])
    decreases v, 0, n
  {
    if n > 0 {
      TrimmedElems(v, n - 1);
      CanonTrimmed(v.elems[n - 1]);
    }
  }

  /** A value without empty parts is left as it is: canonicalize is idempotent. */
  lemma {:induction false} TrimmedFixed(v: Json)
    requires Trimmed(v)
    ensures Canon(v) == Some(v)
    decreases v, 1, 0
  {
    match v
    case Arr(es) =>
      FixedElems(v, |es|);
      assert es[..|es|] == es;
    case Obj(m) =>
      forall k | k in m
        ensures k in CanonMembers(v) && CanonMembers(v)[k] == m[k]
      {
        TrimmedFixed(m[k]);
      }
      assert CanonMembers(v) == m;
    case _ =>
  }

  lemma {:induction false} FixedElems(v: Json, n: nat)
    requires v.Arr? && n <= |v.elems| && forall i :: 0 <= i < |v.elems| ==> Trimmed(v.elems[i])
    ensures CanonElems(v, n) == v.elems[..n]
    decreases v, 0, n
  {
    if n > 0 {
      FixedElems(v, n - 1);
      TrimmedFixed(v.elems[n - 1]);
    }
  }

  /** The positions below n that do not hold an empty value. */
  ghost function FullAt(v: Json, n: nat): seq<nat>
    requires v.Arr? && n <= |v.elems|
  {
    if n == 0 then [] else FullAt(v, n - 1) + if Empty(v.elems[n - 1]) then [] else [n - 1]
  }

  /** The elements kept are the non-empty ones, each canonical, in their old order. */
  lemma {:induction false} ElemsInOrder(v: Json, n: nat)
    requires v.Arr? && n <= |v.elems|
    ensures |CanonElems(v, n)| == |FullAt(v, n)|
    ensures forall i :: 0 <= i < |FullAt(v, n)| ==> FullAt(v, n)[i] < n && CanonElems(v, n)[i] == Normal(v.elems[FullAt(v, n)[i]])
    ensures forall i, j :: 0 <= i < j < |FullAt(v, n)| ==> FullAt(v, n)[i] < FullAt(v, n)[j]
  {
    if n > 0 {
      ElemsInOrder(v, n - 1);
      NilExactly(v.elems[n - 1]);
    }
  }

  // ---- erasing one empty part ----

  ghost predicate ErasesElem(v: Json, w: Json, i: nat)
    requires v.Arr? && w.Arr?
  {
    i < |v.elems| && Empty(v.elems[i]) && w.elems == v.elems[..i] + v.elems[i + 1..]
  }

  ghost predicate ErasesMember(v: Json, w: Json, k: string)
    requires v.Obj? && w.Obj?
  {
    k in v.members && Empty(v.members[k]) && w.members == v.members - {k}
  }

  /** w is v with one empty part gone, or v is empty and w is null. */
  ghost predicate Erase(v: Json, w: Json)
    decreases v, 1
  {
    || (Empty(v) && w == Null)
    || (v.Arr? && w.Arr? && ((exists i :: ErasesElem(v, w, i)) || exists i :: ErasesInElem(v, w, i)))
    || (v.Obj? && w.Obj? && ((exists k :: ErasesMember(v, w, k)) || exists k :: ErasesInMember(v, w, k)))
  }

  ghost predicate ErasesInElem(v: Json, w: Json, i: nat)
    requires v.Arr? && w.Arr?
    decreases v, 0
  {
    |w.elems| == |v.elems| && i < |v.elems| && Erase(v.elems[i], w.elems[i]) && w.elems == v.elems[i := w.elems[i]]
  }

  ghost predicate ErasesInMember(v: Json, w: Json, k: string)
    requires v.Obj? && w.Obj?
    decreases v, 0
  {
    k in v.members && k in w.members && Erase(v.members[k], w.members[k]) && w.members == v.members[k := w.members[k]]
  }

  /** Erasing an empty part does not change what is kept. */
  lemma {:induction false} EraseInvisible(v: Json, w: Json)
    requires Erase(v, w)
    ensures Canon(v) == Canon(w)
    decreases v, 1
  {
    if Empty(v) && w == Null {
      NilExactly(v);
    } else if v.Arr? {
      ArrayErase(v, w);
    } else {
      ObjectErase(v, w);
    }
  }

  lemma {:induction false} ArrayErase(v: Json, w: Json)
    requires v.Arr? && w.Arr? && Erase(v, w)
    ensures Canon(v) == Canon(w)
    decreases v, 0, 1
  {
    if i: nat :| ErasesElem(v, w, i) {
      ElemGone(v, w, i);
    } else {
      var i: nat :| ErasesInElem(v, w, i);
      ElemChanged(v, w, i);
    }
  }

  lemma ElemGone(v: Json, w: Json, i: nat)
    requires v.Arr? && w.Arr? && ErasesElem(v, w, i)
    ensures Canon(v) == Canon(w)
  {
    assert |w.elems| == |v.elems| - 1;
    NilExactly(v.elems[i]);
    ElemErased(v, w, i, |v.elems|);
    SameElemsSameCanon(v, w);
  }

  lemma SameElemsSameCanon(v: Json, w: Json)
    requires v.Arr? && w.Arr? && CanonElems(v, |v.elems|) == CanonElems(w, |w.elems|)
    ensures Canon(v) == Canon(w)
  {
  }

  lemma {:induction false} ElemChanged(v: Json, w: Json, i: nat)
    requires v.Arr? && w.Arr? && ErasesInElem(v, w, i)
    ensures Canon(v) == Canon(w)
    decreases v, 0, 0
  {
    EraseInvisible(v.elems[i], w.elems[i]);
    ElemsAlike(v, w, |v.elems|);
    SameElemsSameCanon(v, w);
  }

  lemma {:induction false} ObjectErase(v: Json, w: Json)
    requires v.Obj? && w.Obj? && Erase(v, w)
    ensures Canon(v) == Canon(w)
    decreases v, 0
  {
    if k :| ErasesMember(v, w, k) {
      NilExactly(v.members[k]);
    } else {
      var k :| ErasesInMember(v, w, k);
      EraseInvisible(v.members[k], w.members[k]);
    }
    assert CanonMembers(v) == CanonMembers(w);
  }

  lemma {:induction false} ElemsAlike(v: Json, w: Json, n: nat)
    requires v.Arr? && w.Arr? && n <= |v.elems| && n <= |w.elems|
    requires forall i :: 0 <= i < n ==> Canon(v.elems[i]) == Canon(w.elems[i])
    ensures CanonElems(v, n) == CanonElems(w, n)
  {
    if n > 0 {
      ElemsAlike(v, w, n - 1);
    }
  }

  lemma {:induction false} ElemErased(v: Json, w: Json, i: nat, n: nat)
    requires v.Arr? && w.Arr? && ErasesElem(v, w, i) && Canon(v.elems[i]).None? && i < n <= |v.elems|
    ensures CanonElems(v, n) == CanonElems(w, n - 1)
  {
    if n == i + 1 {
      ElemsAlike(v, w, i);
    } else {
      ElemErased(v, w, i, n - 1);
      assert v.elems[n - 1] == w.elems[n - 2];
    }
  }

  // ---- erasing many ----

  ghost predicate IsErasure(p: seq<Json>)
  {
    |p| > 0 && forall i :: 0 <= i < |p| - 1 ==> Erase(p[i], p[i + 1])
  }

  ghost predicate ErasedBy(p: seq<Json>, v: Json, w: Json)
  {
    IsErasure(p) && p[0] == v && p[|p| - 1] == w
  }

  /** w arises from v by erasing empty parts, one after the other. */
  ghost predicate Erases(v: Json, w: Json)
  {
    exists p :: ErasedBy(p, v, w)
  }

  lemma ErasesSelf(v: Json)
    ensures Erases(v, v)
  {
    assert ErasedBy([v], v, v);
  }

  lemma EraseThen(v: Json, u: Json, w: Json)
    requires Erase(v, u) && Erases(u, w)
    ensures Erases(v, w)
  {
    var p :| ErasedBy(p, u, w);
    assert ErasedBy([v] + p, v, w);
  }

  lemma ErasesThen(v: Json, u: Json, w: Json)
    requires Erases(v, u) && Erases(u, w)
    ensures Erases(v, w)
  {
    var p :| ErasedBy(p, v, u);
    var q :| ErasedBy(q, u, w);
    var r := p + q[1..];
    forall i | 0 <= i < |r| - 1
      ensures Erase(r[i], r[i + 1])
    {
      if i >= |p| - 1 {
        assert r[i] == q[i - |p| + 1] && r[i + 1] == q[i - |p| + 2];
      }
    }
    assert ErasedBy(r, v, w);
  }

  lemma LiftElem(es: seq<Json>, i: nat, w: Json)
    requires i < |es| && Erases(es[i], w)
    ensures Erases(Arr(es), Arr(es[i := w]))
  {
    var p :| ErasedBy(p, es[i], w);
    var r := seq(|p|, j requires 0 <= j < |p| => Arr(es[i := p[j]]));
    forall j | 0 <= j < |r| - 1
      ensures Erase(r[j], r[j + 1])
    {
      assert ErasesInElem(r[j], r[j + 1], i);
    }
    assert es[i := es[i]] == es;
    assert ErasedBy(r, Arr(es), Arr(es[i := w]));
  }

  lemma LiftMember(m: map<string, Json>, k: string, w: Json)
    requires k in m && Erases(m[k], w)
    ensures Erases(Obj(m), Obj(m[k := w]))
  {
    var p :| ErasedBy(p, m[k], w);
    var r := seq(|p|, j requires 0 <= j < |p| => Obj(m[k := p[j]]));
    forall j | 0 <= j < |r| - 1
      ensures Erase(r[j], r[j + 1])
    {
      assert ErasesInMember(r[j], r[j + 1], k);
    }
    assert m[k := m[k]] == m;
    assert ErasedBy(r, Obj(m), Obj(m[k := w]));
  }

  /** Erasing empty parts as long as there are any ends in the normal form. */
  lemma {:induction false} ErasesToNormal(v: Json)
    ensures Erases(v, Normal(v))
    decreases v, 1, 0
  {
    NilExactly(v);
    if Empty(v) {
      ErasesSelf(Null);
      EraseThen(v, Null, Null);
    } else {
      match v
      case Arr(es) =>
        assert CanonElems(v, 0) + es[0..] == es;
        ElemsToNormal(v, 0);
      case Obj(m) =>
        assert Partly(v, m.Keys) == m;
        MembersToNormal(v, m.Keys);
      case _ => ErasesSelf(v);
    }
  }

  lemma WithoutMiddle(a: seq<Json>, e: Json, b: seq<Json>)
    ensures var es := a + ([e] + b); es[|a|] == e && es[..|a|] + es[|a| + 1..] == a + b
  {
  }

  lemma WithMiddle(a: seq<Json>, e: Json, b: seq<Json>, x: Json)
    ensures var es := a + ([e] + b); es[|a|] == e && es[|a| := x] == a + [x] + b
  {
  }

  lemma {:induction false} ElemsToNormal(v: Json, i: nat)
    requires v.Arr? && i <= |v.elems|
    ensures Erases(Arr(CanonElems(v, i) + v.elems[i..]), Arr(CanonElems(v, |v.elems|)))
    decreases v, 0, 1 + |v.elems| - i
  {
    var kept, rest, goal := CanonElems(v, i), v.elems[i..], Arr(CanonElems(v, |v.elems|));
    if i == |v.elems| {
      assert kept + rest == kept;
      ErasesSelf(Arr(kept));
    } else {
      var e, after := v.elems[i], v.elems[i + 1..];
      assert rest == [e] + after;
      ElemsToNormal(v, i + 1);
      ElemToNormal(v, i, kept, e, after, goal);
    }
  }

  /** One element on the way: an empty one is erased, another one brought to its normal form. */
  lemma {:induction false} ElemToNormal(v: Json, i: nat, kept: seq<Json>, e: Json, after: seq<Json>, goal: Json)
    requires v.Arr? && i < |v.elems| && e == v.elems[i] && kept == CanonElems(v, i)
    requires Erases(Arr(CanonElems(v, i + 1) + after), goal)
    ensures Erases(Arr(kept + ([e] + after)), goal)
    decreases v, 0, 0
  {
    var es, n := kept + ([e] + after), |kept|;
    NilExactly(e);
    if Canon(e).None? {
      WithoutMiddle(kept, e, after);
      assert CanonElems(v, i + 1) == kept;
      assert ErasesElem(Arr(es), Arr(kept + after), n);
      EraseThen(Arr(es), Arr(kept + after), goal);
    } else {
      ErasesToNormal(e);
      WithMiddle(kept, e, after, Normal(e));
      LiftElem(es, n, Normal(e));
      assert CanonElems(v, i + 1) == kept + [Normal(e)];
      ErasesThen(Arr(es), Arr(es[n := Normal(e)]), goal);
    }
  }

  /** The members of v, those not in todo already canonical. */
  ghost function Partly(v: Json, todo: set<string>): map<string, Json>
    requires v.Obj?
  {
    map k | k in v.members && (k in todo || Canon(v.members[k]).Some?) ::
      if k in todo then v.members[k] else Canon(v.members[k]).value
  }

  lemma {:induction false} MembersToNormal(v: Json, todo: set<string>)
    requires v.Obj? && todo <= v.members.Keys
    ensures Erases(Obj(Partly(v, todo)), Obj(CanonMembers(v)))
    decreases v, 0, |todo|
  {
    var m := Partly(v, todo);
    if todo == {} {
      assert m == CanonMembers(v);
      ErasesSelf(Obj(m));
    } else {
      var k :| k in todo;
      var rest, e := Partly(v, todo - {k}), v.members[k];
      MembersToNormal(v, todo - {k});
      NilExactly(e);
      if Canon(e).None? {
        assert rest == m - {k};
        assert ErasesMember(Obj(m), Obj(rest), k);
        EraseThen(Obj(m), Obj(rest), Obj(CanonMembers(v)));
      } else {
        ErasesToNormal(e);
        LiftMember(m, k, Normal(e));
        assert rest == m[k := Normal(e)];
        ErasesThen(Obj(m), Obj(rest), Obj(CanonMembers(v)));
      }
    }
  }

  lemma {:induction false} ErasureInvisible(p: seq<Json>)
    requires IsErasure(p)
    ensures Canon(p[0]) == Canon(p[|p| - 1])
  {
    if |p| > 1 {
      assert Erase(p[0], p[1]);
      EraseInvisible(p[0], p[1]);
      ErasureInvisible(p[1..]);
    }
  }

  ghost predicate Joinable(v: Json, w: Json)
  {
    exists u :: Erases(v, u) && Erases(w, u)
  }

  /** Two configurations are told apart exactly when no erasing of empty parts makes them equal. */
  lemma CanonExactly(v: Json, w: Json)
    ensures Canon(v) == Canon(w) <==> Joinable(v, w)
  {
    if Canon(v) == Canon(w) {
      ErasesToNormal(v);
      ErasesToNormal(w);
    }
    if Joinable(v, w) {
      var u :| Erases(v, u) && Erases(w, u);
      var p :| ErasedBy(p, v, u);
      var q :| ErasedBy(q, w, u);
      ErasureInvisible(p);
      ErasureInvisible(q);
    }
  }

  // ---- the salt ----

  lemma {:induction false} CanonWellFormed(v: Json)
    requires WellFormed(v)
    ensures Canon(v).Some? ==> WellFormed(Canon(v).value)
    decreases v, 1, 0
  {
    match v
    case Arr(es) => ElemsWellFormed(v, |es|);
    case Obj(m) =>
      forall k | k in CanonMembers(v)
        ensures WellFormed(CanonMembers(v)[k])
      {
        CanonWellFormed(m[k]);
      }
    case _ =>
  }

  lemma {:induction false} ElemsWellFormed(v: Json, n: nat)
    requires v.Arr? && n <= |v.elems| && WellFormed(v)
    ensures forall i :: 0 <= i < |CanonElems(v, n)| ==> WellFormed(CanonElems(v, n)[i])
    decreases v, 0, n
  {
    if n > 0 {
      ElemsWellFormed(v, n - 1);
      CanonWellFormed(v.elems[n - 1]);
    }
  }

  lemma NormalExactly(v: Json, w: Json)
    ensures Normal(v) == Normal(w) <==> Canon(v) == Canon(w)
  {
    CanonTrimmed(v);
    CanonTrimmed(w);
  }

  /** Salts agree exactly for the same analyzer and configurations that differ in empty parts only. */
  lemma SaltExactly(sha: Sha, q: Quote, u: set<string>, a: string, v: Json, b: string, w: Json)
    requires SelfDelimiting(q) && WellFormed(v) && WellFormed(w)
    requires CollisionFree(sha, u)
    requires Frames([a, Print(q, Normal(v))]) in u && Frames([b, Print(q, Normal(w))]) in u
    ensures Salt(sha, q, a, v) == Salt(sha, q, b, w) <==> a == b && Joinable(v, w)
  {
    var x, y := [a, Print(q, Normal(v))], [b, Print(q, Normal(w))];
    CanonWellFormed(v);
    CanonWellFormed(w);
    CanonicalExactly(q, Normal(v), Normal(w));
    NormalExactly(v, w);
    CanonExactly(v, w);
    if Salt(sha, q, a, v) == Salt(sha, q, b, w) {
      SameHash(sha, u, Frames(x), Frames(y));
      FramesInjective(x, y);
      assert x[0] == y[0] && x[1] == y[1];
    }
  }
}
