// Canonical JSON (internal/cache/codec.go): object keys sorted, no whitespace.

module CanonicalJson {
  import opened Strings
  import opened Sorting

  /** A decoded JSON value; numbers keep their literal, objects are unordered. */
  datatype Json =
    | Null
    | Bool(b: bool)
    | Num(lit: string)
    | Str(s: string)
    | Arr(elems: seq<Json>)
    | Obj(members: map<string, Json>)

  /** json.Marshal of a string. */
  type Quote = string -> string

  // ---- the printed form ----

  ghost function Print(q: Quote, v: Json): string
    decreases v, 1, 0
  {
    match v
    case Null => "null"
    case Bool(b) => if b then "true" else "false"
    case Num(lit) => lit
    case Str(s) => q(s)
    case Arr(_) => "[" + ArrayRest(q, v, 0)
    case Obj(m) => "{" + ObjectRest(q, v, SortedElems(m.Keys), 0)
  }

  function Comma(i: nat): string {
    if i == 0 then "" else ","
  }

  /** What follows once i elements of an array are printed. */
  ghost function ArrayRest(q: Quote, v: Json, i: nat): string
    requires v.Arr? && i <= |v.elems|
    decreases v, 0, |v.elems| - i
  {
    if i == |v.elems| then "]"
    else Comma(i) + (Print(q, v.elems[i]) + ArrayRest(q, v, i + 1))
  }

  /** What follows once the first i of the given keys are printed. */
  ghost function ObjectRest(q: Quote, v: Json, keys: seq<string>, i: nat): string
    requires v.Obj? && i <= |keys|
    requires forall k :: k in keys ==> k in v.members
    decreases v, 0, |keys| - i
  {
    if i == |keys| then "}"
    else
      assert keys[i] in keys;
      Comma(i) + (q(keys[i]) + (":" + (Print(q, v.members[keys[i]]) + ObjectRest(q, v, keys, i + 1))))
  }

  // ---- the printing code ----

  /** The keys of an object, listed in any order and then sorted in place. */
  method SortedKeys(m: map<string, Json>) returns (keys: seq<string>)
    ensures keys == SortedElems(m.Keys)
  {
    var listed := EnumerateSet(m.Keys);
    var a := new string[|listed|](i requires 0 <= i < |listed| => listed[i]);
    assert a[..] == listed;
    SortStrings(a);
    keys := a[..];
    EnumerationMultiset(listed, m.Keys);
    EnumerationMultiset(SortedElems(m.Keys), m.Keys);
    SortedUnique(Self, keys, SortedElems(m.Keys));
  }

  method WriteCanonical(q: Quote, v: Json) returns (buf: string)
    ensures buf == Print(q, v)
    decreases v, 1
  {
    match v
    case Null => buf := "null";
    case Bool(b) => buf := if b then "true" else "false";
    case Num(lit) => buf := lit;
    case Str(s) => buf := q(s);
    case Arr(_) => buf := WriteArray(q, v);
    case Obj(_) => buf := WriteObject(q, v);
  }

  lemma Regroup(a: string, b: string, c: string)
    ensures a + b + c == a + (b + c)
  {
  }

  lemma RegroupMember(buf: string, comma: string, key: string, colon: string, e: string, rest: string)
    ensures buf + (comma + (key + (colon + (e + rest)))) == buf + comma + key + colon + e + rest
  {
    Regroup(buf, comma, key + (colon + (e + rest)));
    Regroup(buf + comma, key, colon + (e + rest));
    Regroup(buf + comma + key, colon, e + rest);
    Regroup(buf + comma + key + colon, e, rest);
  }

  method WriteArray(q: Quote, v: Json) returns (buf: string)
    requires v.Arr?
    ensures buf == Print(q, v)
    decreases v, 0
  {
    buf := "[";
    for i := 0 to |v.elems|
      invariant buf + ArrayRest(q, v, i) == "[" + ArrayRest(q, v, 0)
    {
      var e := WriteCanonical(q, v.elems[i]);
      Regroup(buf, Comma(i), e + ArrayRest(q, v, i + 1));
      Regroup(buf + Comma(i), e, ArrayRest(q, v, i + 1));
      if i > 0 { buf := buf + ","; }
      buf := buf + e;
    }
    buf := buf + "]";
  }

  lemma ObjectRestStep(q: Quote, v: Json, keys: seq<string>, i: nat, buf: string)
    requires v.Obj? && i < |keys| && forall k :: k in keys ==> k in v.members
    ensures keys[i] in v.members
    ensures buf + ObjectRest(q, v, keys, i)
         == buf + Comma(i) + q(keys[i]) + ":" + Print(q, v.members[keys[i]]) + ObjectRest(q, v, keys, i + 1)
  {
    assert keys[i] in keys;
    RegroupMember(buf, Comma(i), q(keys[i]), ":", Print(q, v.members[keys[i]]), ObjectRest(q, v, keys, i + 1));
  }

  method WriteMember(q: Quote, v: Json, key: string, i: nat, buf: string) returns (out: string)
    requires v.Obj? && key in v.members
    ensures out == buf + Comma(i) + q(key) + ":" + Print(q, v.members[key])
    decreases v, 0, 0
  {
    out := buf;
    if i > 0 { out := out + ","; }
    out := out + q(key);
    out := out + ":";
    var e := WriteCanonical(q, v.members[key]);
    out := out + e;
  }

  method WriteMembers(q: Quote, v: Json, keys: seq<string>) returns (buf: string)
    requires v.Obj? && forall k :: k in keys ==> k in v.members
    ensures buf == "{" + ObjectRest(q, v, keys, 0)
    decreases v, 0, 1
  {
    buf := "{";
    for i := 0 to |keys|
      invariant buf + ObjectRest(q, v, keys, i) == "{" + ObjectRest(q, v, keys, 0)
    {
      assert keys[i] in keys;
      ObjectRestStep(q, v, keys, i, buf);
      buf := WriteMember(q, v, keys[i], i, buf);
    }
    buf := buf + "}";
  }

  method WriteObject(q: Quote, v: Json) returns (buf: string)
    requires v.Obj?
    ensures buf == Print(q, v)
    decreases v, 0, 2
  {
    var keys := SortedKeys(v.members);
    buf := WriteMembers(q, v, keys);
  }

  // ---- well-formed values ----

  predicate NumberChar(c: char) {
    '0' <= c <= '9' || c in {'-', '+', '.', 'e', 'E'}
  }

  /** The characters every JSON number literal is made of, starting as one does. */
  predicate NumberLiteral(lit: string) {
    && |lit| > 0
    && ('0' <= lit[0] <= '9' || lit[0] == '-')
    && forall i :: 0 <= i < |lit| ==> NumberChar(lit[i])
  }

  ghost predicate WellFormed(v: Json) {
    match v
    case Num(lit) => NumberLiteral(lit)
    case Arr(es) => forall i :: 0 <= i < |es| ==> WellFormed(es[i])
    case Obj(m) => forall k :: k in m ==> WellFormed(m[k])
    case _ => true
  }

  predicate Splits(q: Quote, s: string, x: string, t: string, y: string) {
    q(s) + x == q(t) + y ==> s == t && x == y
  }

  /** A quoted string starts with a quote and shows where it ends. */
  ghost predicate SelfDelimiting(q: Quote) {
    && (forall s :: q(s) != "" && q(s)[0] == '"')
    && (forall s, x, t, y :: Splits(q, s, x, t, y))
  }

  /** What may follow a value: nothing, a separator or a closing bracket. */
  predicate Ends(x: string) {
    x == "" || x[0] in {',', ']', '}'}
  }

  datatype Shape = IsNull | IsBool | IsNum | IsStr | IsArr | IsObj | Closing

  function ShapeOf(v: Json): Shape {
    match v
    case Null => IsNull
    case Bool(_) => IsBool
    case Num(_) => IsNum
    case Str(_) => IsStr
    case Arr(_) => IsArr
    case Obj(_) => IsObj
  }

  function ShapeAt(c: char): Shape {
    if c == 'n' then IsNull
    else if c == 't' || c == 'f' then IsBool
    else if c == '"' then IsStr
    else if c == '[' then IsArr
    else if c == '{' then IsObj
    else if c in {',', ']', '}'} then Closing
    else IsNum
  }

  lemma FirstTells(q: Quote, v: Json)
    requires (forall s :: q(s) != "" && q(s)[0] == '"') && WellFormed(v)
    ensures Print(q, v) != "" && ShapeAt(Print(q, v)[0]) == ShapeOf(v)
  {
  }

  // ---- a reader of JSON ----

  /** Reads one quoted string off the front of a text. */
  type Unquote = string -> Option<(string, string)>

  datatype Parsed = Fails | Read(value: Json, rest: string)

  function NumberEnd(s: string): (n: nat)
    ensures n <= |s|
  {
    if s == "" || !NumberChar(s[0]) then 0 else 1 + NumberEnd(s[1..])
  }

  /** The three literal names and numbers. */
  function ReadAtom(s: string): Parsed
  {
    if "null" <= s then Read(Null, s[4..])
    else if "true" <= s then Read(Bool(true), s[4..])
    else if "false" <= s then Read(Bool(false), s[5..])
    else if NumberEnd(s) > 0 then Read(Num(s[..NumberEnd(s)]), s[NumberEnd(s)..])
    else Fails
  }

  /** Reads one value off the front of a text without whitespace, as section 3 of RFC 8259 describes values. */
  function ReadValue(u: Unquote, s: string): Parsed
    decreases |s|, 0
  {
    if s == "" then Fails
    else if s[0] == '"' then
      match u(s)
      case None => Fails
      case Some((text, rest)) => Read(Str(text), rest)
    else if s[0] == '[' then
      if |s| > 1 && s[1] == ']' then Read(Arr([]), s[2..]) else ReadElements(u, s[1..], [])
    else if s[0] == '{' then
      if |s| > 1 && s[1] == '}' then Read(Obj(map[]), s[2..]) else ReadMembers(u, s[1..], map[])
    else ReadAtom(s)
  }

  /** Reads the elements of an array up to its closing bracket. */
  function ReadElements(u: Unquote, s: string, got: seq<Json>): Parsed
    decreases |s|, 1
  {
    match ReadValue(u, s)
    case Fails => Fails
    case Read(v, rest) =>
      if "]" <= rest then Read(Arr(got + [v]), rest[1..])
      else if "," <= rest && |rest| < |s| then ReadElements(u, rest[1..], got + [v])
      else Fails
  }

  /** Reads the members of an object up to its closing brace. */
  function ReadMembers(u: Unquote, s: string, got: map<string, Json>): Parsed
    decreases |s|, 1
  {
    match u(s)
    case None => Fails
    case Some((key, after)) =>
      if !(":" <= after) || |after| >= |s| then Fails
      else
        match ReadValue(u, after[1..])
        case Fails => Fails
        case Read(v, rest) =>
          if "}" <= rest then Read(Obj(got[key := v]), rest[1..])
          else if "," <= rest && |rest| < |after| then ReadMembers(u, rest[1..], got[key := v])
          else Fails
  }

  // ---- reading returns what was printed ----

  ghost predicate ReadsBack(u: Unquote, q: Quote) {
    && (forall s :: q(s) != "" && q(s)[0] == '"')
    && (forall s, x :: u(q(s) + x) == Some((s, x)))
  }

  lemma {:induction false} NumberEnds(lit: string, x: string)
    requires (forall i :: 0 <= i < |lit| ==> NumberChar(lit[i])) && Ends(x)
    ensures NumberEnd(lit + x) == |lit|
  {
    if lit == "" {
      assert lit + x == x;
    } else {
      NumberEnds(lit[1..], x);
      assert (lit + x)[1..] == lit[1..] + x;
    }
  }

  /** A printed value, followed by anything that may follow a value, reads back as that value. */
  lemma {:induction false} ReadBack(u: Unquote, q: Quote, v: Json, x: string)
    requires ReadsBack(u, q) && WellFormed(v) && Ends(x)
    ensures ReadValue(u, Print(q, v) + x) == Read(v, x)
    decreases v, 2, 0
  {
    var s := Print(q, v) + x;
    FirstTells(q, v);
    assert s[0] == Print(q, v)[0];
    match v
    case Null =>
      assert s[..4] == "null" && s[4..] == x;
    case Bool(b) =>
      var n := if b then 4 else 5;
      assert s[..n] == Print(q, v) && s[n..] == x;
    case Num(lit) =>
      NumberEnds(lit, x);
      assert s[..|lit|] == lit && s[|lit|..] == x;
    case Str(_) =>
    case Arr(_) => ArrayBack(u, q, v, x);
    case Obj(_) => ObjectBack(u, q, v, x);
  }

  lemma {:induction false} ArrayBack(u: Unquote, q: Quote, v: Json, x: string)
    requires ReadsBack(u, q) && WellFormed(v) && Ends(x) && v.Arr?
    ensures ReadValue(u, Print(q, v) + x) == Read(v, x)
    decreases v, 1, 0
  {
    if v.elems == [] {
      EmptyBack(u, q, v, x);
    } else {
      ElementsBack(u, q, v, x, 0, []);
      ArrayOpens(u, q, v, x);
    }
  }

  lemma ArrayOpens(u: Unquote, q: Quote, v: Json, x: string)
    requires ReadsBack(u, q) && WellFormed(v) && v.Arr? && v.elems != []
    ensures ReadValue(u, Print(q, v) + x) == ReadElements(u, Print(q, v.elems[0]) + (ArrayRest(q, v, 1) + x), [])
  {
    var first, rest := Print(q, v.elems[0]), ArrayRest(q, v, 1);
    FirstTells(q, v.elems[0]);
    ArraySplit("[", first, rest, x);
    assert ArrayRest(q, v, 0) == first + rest;
    BracketOpen(u, first + (rest + x));
  }

  lemma EmptyBack(u: Unquote, q: Quote, v: Json, x: string)
    requires v.Arr? && v.elems == []
    ensures ReadValue(u, Print(q, v) + x) == Read(v, x)
  {
    assert Print(q, v) == "[]";
    var s := "[]" + x;
    assert s[0] == '[' && s[..2] == "[]" && s[2..] == x;
  }

  lemma BracketOpen(u: Unquote, text: string)
    requires text != "" && text[0] != ']'
    ensures ReadValue(u, "[" + text) == ReadElements(u, text, [])
  {
    var s := "[" + text;
    assert s[0] == '[' && s[1] == text[0] && s[1..] == text;
  }

  lemma {:induction false} ElementsBack(u: Unquote, q: Quote, v: Json, x: string, i: nat, got: seq<Json>)
    requires ReadsBack(u, q) && WellFormed(v) && Ends(x) && v.Arr? && i < |v.elems| && got == v.elems[..i]
    ensures ReadElements(u, Print(q, v.elems[i]) + (ArrayRest(q, v, i + 1) + x), got) == Read(v, x)
    decreases v, 0, |v.elems| - i
  {
    var e, rest := v.elems[i], ArrayRest(q, v, i + 1) + x;
    assert got + [e] == v.elems[..i + 1];
    ArrayRestEnds(q, v, i + 1, x);
    FirstTells(q, e);
    ElementFollows(q, v, x, i + 1);
    if i + 1 == |v.elems| {
      assert v.elems[..i + 1] == v.elems;
    } else {
      ElementsBack(u, q, v, x, i + 1, got + [e]);
    }
    ReadBack(u, q, e, rest);
    ReadElement(u, Print(q, e) + rest, got, e, rest);
  }

  lemma ReadElement(u: Unquote, s: string, got: seq<Json>, v: Json, rest: string)
    requires ReadValue(u, s) == Read(v, rest) && |rest| < |s|
    ensures "]" <= rest ==> ReadElements(u, s, got) == Read(Arr(got + [v]), rest[1..])
    ensures "," <= rest ==> ReadElements(u, s, got) == ReadElements(u, rest[1..], got + [v])
  {
    assert "]" <= rest ==> rest[0] == ']';
    assert "," <= rest ==> rest[0] == ',';
  }

  lemma ElementFollows(q: Quote, v: Json, x: string, i: nat)
    requires v.Arr? && 0 < i <= |v.elems|
    ensures var rest := ArrayRest(q, v, i) + x;
            if i == |v.elems| then "]" <= rest && rest[1..] == x
            else "," <= rest && rest[1..] == Print(q, v.elems[i]) + (ArrayRest(q, v, i + 1) + x)
  {
    if i == |v.elems| {
      Headed("]", x);
    } else {
      var e, more := Print(q, v.elems[i]), ArrayRest(q, v, i + 1);
      ArraySplit(",", e, more, x);
      Headed(",", e + (more + x));
    }
  }

  lemma ArraySplit(comma: string, e: string, rest: string, x: string)
    ensures comma + (e + rest) + x == comma + (e + (rest + x))
  {
    Regroup(comma, e + rest, x);
    Regroup(e, rest, x);
  }

  lemma ArrayRestEnds(q: Quote, v: Json, i: nat, x: string)
    requires v.Arr? && 0 < i <= |v.elems|
    ensures Ends(ArrayRest(q, v, i) + x)
  {
    assert ArrayRest(q, v, i) != "" && ArrayRest(q, v, i)[0] in {',', ']'};
  }

  /** The members under the first i keys. */
  function Under(m: map<string, Json>, keys: seq<string>, i: nat): map<string, Json>
    requires i <= |keys|
  {
    map k | k in keys[..i] && k in m :: m[k]
  }

  lemma UnderNext(m: map<string, Json>, keys: seq<string>, i: nat)
    requires i < |keys| && keys[i] in m
    ensures Under(m, keys, i)[keys[i] := m[keys[i]]] == Under(m, keys, i + 1)
  {
    assert keys[..i + 1] == keys[..i] + [keys[i]];
  }

  lemma {:induction false} ObjectBack(u: Unquote, q: Quote, v: Json, x: string)
    requires ReadsBack(u, q) && WellFormed(v) && Ends(x) && v.Obj?
    ensures ReadValue(u, Print(q, v) + x) == Read(v, x)
    decreases v, 1, 0
  {
    var keys := SortedElems(v.members.Keys);
    assert forall k :: k in keys <==> k in v.members;
    if keys == [] {
      assert v.members == map[];
      BraceClosed(u, x);
      assert Print(q, v) == "{}";
    } else {
      MemberFollows(q, v, keys, 0, x);
      var text := MemberText(q, v, keys, 0, x);
      assert Comma(0) + text == text;
      Regroup("{", ObjectRest(q, v, keys, 0), x);
      assert text[0] == q(keys[0])[0];
      BraceOpen(u, text);
      UnderAll(v.members, keys);
      MembersBack(u, q, v, keys, x, 0);
    }
  }

  lemma BraceClosed(u: Unquote, x: string)
    ensures ReadValue(u, "{}" + x) == Read(Obj(map[]), x)
  {
    var s := "{}" + x;
    assert s[0] == '{' && s[..2] == "{}" && s[2..] == x;
  }

  lemma BraceOpen(u: Unquote, text: string)
    requires text != "" && text[0] == '"'
    ensures ReadValue(u, "{" + text) == ReadMembers(u, text, map[])
  {
    var s := "{" + text;
    assert s[0] == '{' && s[1] == '"' && s[1..] == text;
  }

  lemma UnderAll(m: map<string, Json>, keys: seq<string>)
    requires forall k :: k in keys <==> k in m
    ensures Under(m, keys, 0) == map[] && Under(m, keys, |keys|) == m
  {
    assert keys[..|keys|] == keys;
  }

  /** One member and what follows it. */
  ghost function MemberText(q: Quote, v: Json, keys: seq<string>, i: nat, x: string): string
    requires v.Obj? && i < |keys| && forall k :: k in keys ==> k in v.members
  {
    assert keys[i] in keys;
    q(keys[i]) + (":" + (Print(q, v.members[keys[i]]) + (ObjectRest(q, v, keys, i + 1) + x)))
  }

  lemma MemberFollows(q: Quote, v: Json, keys: seq<string>, i: nat, x: string)
    requires v.Obj? && i < |keys| && forall k :: k in keys ==> k in v.members
    ensures ObjectRest(q, v, keys, i) + x == Comma(i) + MemberText(q, v, keys, i, x)
  {
    assert keys[i] in keys;
    MemberSplit(Comma(i), q(keys[i]), ":", Print(q, v.members[keys[i]]), ObjectRest(q, v, keys, i + 1), x);
  }

  lemma ReadMember(u: Unquote, s: string, got: map<string, Json>, key: string, after: string, v: Json, rest: string)
    requires u(s) == Some((key, ":" + after)) && |after| + 1 < |s|
    requires ReadValue(u, after) == Read(v, rest) && |rest| <= |after|
    ensures "}" <= rest ==> ReadMembers(u, s, got) == Read(Obj(got[key := v]), rest[1..])
    ensures "," <= rest ==> ReadMembers(u, s, got) == ReadMembers(u, rest[1..], got[key := v])
  {
    assert (":" + after)[..1] == ":" && (":" + after)[1..] == after;
    assert "}" <= rest ==> rest[0] == '}';
    assert "," <= rest ==> rest[0] == ',';
  }

  lemma {:induction false} MembersBack(u: Unquote, q: Quote, v: Json, keys: seq<string>, x: string, i: nat)
    requires ReadsBack(u, q) && WellFormed(v) && Ends(x) && v.Obj? && i < |keys|
    requires forall k :: k in keys ==> k in v.members
    ensures ReadMembers(u, MemberText(q, v, keys, i, x), Under(v.members, keys, i))
         == Read(Obj(Under(v.members, keys, |keys|)), x)
    decreases v, 0, |keys| - i
  {
    var key := keys[i];
    assert key in keys;
    var e, rest := v.members[key], ObjectRest(q, v, keys, i + 1) + x;
    ObjectRestEnds(q, v, keys, i + 1, x);
    ReadBack(u, q, e, rest);
    var text, got := MemberText(q, v, keys, i, x), Under(v.members, keys, i);
    assert text == q(key) + (":" + (Print(q, e) + rest));
    ReadMember(u, text, got, key, Print(q, e) + rest, e, rest);
    UnderNext(v.members, keys, i);
    if i + 1 == |keys| {
      assert rest == "}" + x;
      Headed("}", x);
    } else {
      MemberFollows(q, v, keys, i + 1, x);
      Headed(",", MemberText(q, v, keys, i + 1, x));
      MembersBack(u, q, v, keys, x, i + 1);
    }
  }

  lemma Headed(c: string, x: string)
    requires |c| == 1
    ensures c <= c + x && (c + x)[1..] == x
  {
  }

  lemma MemberSplit(comma: string, key: string, colon: string, e: string, rest: string, x: string)
    ensures comma + (key + (colon + (e + rest))) + x == comma + (key + (colon + (e + (rest + x))))
  {
    Regroup(comma, key + (colon + (e + rest)), x);
    Regroup(key, colon + (e + rest), x);
    Regroup(colon, e + rest, x);
    Regroup(e, rest, x);
  }

  lemma ObjectRestEnds(q: Quote, v: Json, keys: seq<string>, i: nat, x: string)
    requires v.Obj? && 0 < i <= |keys|
    requires forall k :: k in keys ==> k in v.members
    ensures Ends(ObjectRest(q, v, keys, i) + x)
  {
    if i < |keys| {
      assert keys[i] in keys;
    }
    assert ObjectRest(q, v, keys, i) != "" && ObjectRest(q, v, keys, i)[0] in {',', '}'};
  }

  // ---- so the printed form determines the value ----

  /** The reader of a self-delimiting quoting. */
  ghost function UnquoteOf(q: Quote, text: string): Option<(string, string)> {
    if exists s, x :: q(s) + x == text then
      var s, x :| q(s) + x == text;
      Some((s, x))
    else None
  }

  lemma DelimitedReadsBack(q: Quote)
    requires SelfDelimiting(q)
    ensures ReadsBack(text => UnquoteOf(q, text), q)
  {
    forall s: string, x: string
      ensures UnquoteOf(q, q(s) + x) == Some((s, x))
    {
      var r := UnquoteOf(q, q(s) + x).value;
      assert Splits(q, r.0, r.1, s, x);
    }
  }

  /** Two values whose prints agree up to something that may follow a value are equal. */
  lemma PrintPrefix(q: Quote, v: Json, x: string, w: Json, y: string)
    requires SelfDelimiting(q) && WellFormed(v) && WellFormed(w) && Ends(x) && Ends(y)
    requires Print(q, v) + x == Print(q, w) + y
    ensures v == w && x == y
  {
    var u: Unquote := text => UnquoteOf(q, text);
    DelimitedReadsBack(q);
    ReadBack(u, q, v, x);
    ReadBack(u, q, w, y);
  }

  /** Equal canonical bytes exactly for equal values. */
  lemma CanonicalExactly(q: Quote, v: Json, w: Json)
    requires SelfDelimiting(q) && WellFormed(v) && WellFormed(w)
    ensures Print(q, v) == Print(q, w) <==> v == w
  {
    if Print(q, v) == Print(q, w) {
      assert Print(q, v) + "" == Print(q, w) + "";
      PrintPrefix(q, v, "", w, "");
    }
  }

  // ---- a quoting that shows where it ends ----

  function Escape(s: string): string {
    if s == "" then "\""
    else if s[0] == '"' || s[0] == '\\' then ['\\', s[0]] + Escape(s[1..])
    else [s[0]] + Escape(s[1..])
  }

  /** Quotes and backslashes escaped, the way json.Marshal treats those two. */
  function Quoted(s: string): string {
    "\"" + Escape(s)
  }

  /** Reads up to the closing quote. */
  function Unescape(s: string, got: string): Option<(string, string)>
    decreases |s|
  {
    if s == "" then None
    else if s[0] == '"' then Some((got, s[1..]))
    else if s[0] != '\\' then Unescape(s[1..], got + [s[0]])
    else if |s| == 1 then None
    else Unescape(s[2..], got + [s[1]])
  }

  function Unquoted(text: string): Option<(string, string)> {
    if "\"" <= text then Unescape(text[1..], "") else None
  }

  lemma {:induction false} EscapedBack(s: string, x: string, got: string)
    ensures Unescape(Escape(s) + x, got) == Some((got + s, x))
    decreases s
  {
    var text := Escape(s) + x;
    if s == "" {
      assert text[1..] == x && got + s == got;
    } else {
      EscapedBack(s[1..], x, got + [s[0]]);
      assert got + [s[0]] + s[1..] == got + s;
      var n := if s[0] == '"' || s[0] == '\\' then 2 else 1;
      assert text[n..] == Escape(s[1..]) + x;
    }
  }

  /** Quoted strings read back. */
  lemma QuotedBack()
    ensures ReadsBack(Unquoted, Quoted)
  {
    forall s: string, x: string
      ensures Unquoted(Quoted(s) + x) == Some((s, x))
    {
      assert (Quoted(s) + x)[1..] == Escape(s) + x;
      EscapedBack(s, x, "");
      assert "" + s == s;
    }
  }

  lemma QuotedDelimits()
    ensures SelfDelimiting(Quoted)
  {
    QuotedBack();
    forall s: string, x: string, t: string, y: string
      ensures Splits(Quoted, s, x, t, y)
    {
      assert Unquoted(Quoted(s) + x) == Some((s, x)) && Unquoted(Quoted(t) + y) == Some((t, y));
    }
  }
}
