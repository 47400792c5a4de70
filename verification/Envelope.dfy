// The binary envelope of L1 and L2 entries (internal/cache/codec.go, l1.go, l2.go).

module Envelope {
  import opened Strings
  import opened Framing

  type Bytes = seq<byte>

  const MAGIC: Bytes := "C1CL"
  const KIND_L1: byte := 1 as char
  const KIND_L2: byte := 2 as char
  const MAX_SECTIONS: nat := 0x10_0000
  const MAX_SECTION: nat := 0x1000_0000

  datatype Result<+T> = Ok(value: T) | Err

  // ---- encoding ----

  function SectionBytes(s: Bytes): Bytes
  {
    Le(|s|, 4) + s
  }

  function SectionsBytes(secs: seq<Bytes>): Bytes
  {
    if secs == [] then [] else SectionBytes(secs[0]) + SectionsBytes(secs[1..])
  }

  function Encode(kind: byte, secs: seq<Bytes>): Bytes
  {
    MAGIC + [kind] + Le(|secs|, 4) + SectionsBytes(secs)
  }

  /** Within the limits the reader enforces. */
  predicate Fits(secs: seq<Bytes>)
  {
    |secs| <= MAX_SECTIONS && forall i :: 0 <= i < |secs| ==> |secs[i]| <= MAX_SECTION
  }

  lemma {:induction false} SectionsAppend(a: seq<Bytes>, s: Bytes)
    ensures SectionsBytes(a + [s]) == SectionsBytes(a) + SectionBytes(s)
  {
    if a == [] {
      assert a + [s] == [s];
      assert SectionsBytes([s]) == SectionBytes(s) + SectionsBytes([]);
    } else {
      assert (a + [s])[1..] == a[1..] + [s];
      SectionsAppend(a[1..], s);
    }
  }

  /** writeEnvelope: the bytes as they are written, piece by piece. */
  method WriteEnvelope(kind: byte, secs: seq<Bytes>) returns (buf: Bytes)
    ensures buf == Encode(kind, secs)
  {
    buf := MAGIC + [kind];
    buf := buf + Le(|secs|, 4);
    ghost var head := buf;
    for i := 0 to |secs|
      invariant buf == head + SectionsBytes(secs[..i])
    {
      buf := buf + Le(|secs[i]|, 4);
      buf := buf + secs[i];
      SectionsAppend(secs[..i], secs[i]);
      assert secs[..i] + [secs[i]] == secs[..i + 1];
      assert head + SectionsBytes(secs[..i]) + Le(|secs[i]|, 4) + secs[i] == head + (SectionsBytes(secs[..i]) + SectionBytes(secs[i]));
    }
    assert secs[..|secs|] == secs;
  }

  // ---- decoding ----

  /** Reads n sections; the rest of the input is left over. */
  function DecodeSections(b: Bytes, n: nat): Result<(seq<Bytes>, Bytes)>
    decreases n
  {
    if n == 0 then Ok(([], b))
    else if |b| < 4 then Err
    else
      var len := FromLe(b[..4]);
      if len > MAX_SECTION || |b| - 4 < len then Err
      else match DecodeSections(b[4 + len..], n - 1)
        case Err => Err
        case Ok((secs, rest)) => Ok(([b[4..4 + len]] + secs, rest))
  }

  function Decode(kind: byte, b: Bytes): Result<seq<Bytes>>
  {
    if |b| < 9 || b[..4] != MAGIC || b[4] != kind then Err
    else
      var n := FromLe(b[5..9]);
      if n > MAX_SECTIONS then Err
      else match DecodeSections(b[9..], n)
        case Err => Err
        case Ok((secs, _)) => Ok(secs)
  }

  function Prepend(secs: seq<Bytes>, r: Result<(seq<Bytes>, Bytes)>): Result<(seq<Bytes>, Bytes)>
  {
    match r case Err => Err case Ok((more, rest)) => Ok((secs + more, rest))
  }

  lemma DecodeOneMore(secs: seq<Bytes>, b: Bytes, n: nat)
    requires n > 0 && |b| >= 4 && FromLe(b[..4]) <= MAX_SECTION && |b| - 4 >= FromLe(b[..4])
    ensures var len := FromLe(b[..4]);
            Prepend(secs, DecodeSections(b, n)) == Prepend(secs + [b[4..4 + len]], DecodeSections(b[4 + len..], n - 1))
  {
    var len := FromLe(b[..4]);
    match DecodeSections(b[4 + len..], n - 1)
    case Err =>
    case Ok((more, rest)) => assert secs + [b[4..4 + len]] + more == secs + ([b[4..4 + len]] + more);
  }

  /** readEnvelope: a cursor over the input and a loop over the declared sections. */
  method ReadEnvelope(kind: byte, b: Bytes) returns (r: Result<seq<Bytes>>)
    ensures r == Decode(kind, b)
  {
    if |b| < 5 { return Err; }
    if b[..4] != MAGIC { return Err; }
    if b[4] != kind { return Err; }
    if |b| < 9 { return Err; }
    var n := FromLe(b[5..9]);
    if n > MAX_SECTIONS { return Err; }
    var secs: seq<Bytes> := [];
    var rest := b[9..];
    ghost var want := DecodeSections(b[9..], n);
    assert Prepend([], want) == want by { if want.Ok? { assert [] + want.value.0 == want.value.0; } }
    for i := 0 to n
      invariant Prepend(secs, DecodeSections(rest, n - i)) == want
    {
      if |rest| < 4 { return Err; }
      var len := FromLe(rest[..4]);
      if len > MAX_SECTION { return Err; }
      if |rest| - 4 < len { return Err; }
      DecodeOneMore(secs, rest, n - i);
      secs := secs + [rest[4..4 + len]];
      rest := rest[4 + len..];
    }
    assert secs + [] == secs;
    r := Ok(secs);
  }

  // ---- round trips ----

  lemma SectionParts(s: Bytes, rest: Bytes)
    requires |s| <= MAX_SECTION
    ensures var b := SectionBytes(s) + rest;
            |b| >= 4 + |s| && FromLe(b[..4]) == |s| && b[4..4 + |s|] == s && b[4 + |s|..] == rest
  {
    var b := SectionBytes(s) + rest;
    assert b[..4] == Le(|s|, 4);
    Pow256Of4();
    LeRoundTrip(|s|, 4);
  }

  lemma {:induction false} SectionsReturn(secs: seq<Bytes>, rest: Bytes)
    requires forall i :: 0 <= i < |secs| ==> |secs[i]| <= MAX_SECTION
    ensures DecodeSections(SectionsBytes(secs) + rest, |secs|) == Ok((secs, rest))
  {
    if secs == [] {
      assert SectionsBytes(secs) + rest == rest;
    } else {
      var tail := SectionsBytes(secs[1..]) + rest;
      assert SectionsBytes(secs) + rest == SectionBytes(secs[0]) + tail;
      assert secs == [secs[0]] + secs[1..];
      SectionsReturn(secs[1..], rest);
      SectionReturns(secs[0], tail, secs[1..], rest);
    }
  }

  lemma SectionReturns(s: Bytes, tail: Bytes, secs: seq<Bytes>, rest: Bytes)
    requires |s| <= MAX_SECTION && DecodeSections(tail, |secs|) == Ok((secs, rest))
    ensures DecodeSections(SectionBytes(s) + tail, |secs| + 1) == Ok(([s] + secs, rest))
  {
    SectionParts(s, tail);
  }

  lemma {:induction false} DecodedFit(b: Bytes, n: nat)
    requires DecodeSections(b, n).Ok?
    ensures var (secs, rest) := DecodeSections(b, n).value;
            |secs| == n && (forall i :: 0 <= i < n ==> |secs[i]| <= MAX_SECTION) && b == SectionsBytes(secs) + rest
    decreases n
  {
    if n > 0 {
      var len := FromLe(b[..4]);
      DecodedFit(b[4 + len..], n - 1);
      SplitSection(b);
      var (secs, rest) := DecodeSections(b[4 + len..], n - 1).value;
      var s := b[4..4 + len];
      assert ([s] + secs)[1..] == secs;
      assert SectionBytes(s) + (SectionsBytes(secs) + rest) == (SectionBytes(s) + SectionsBytes(secs)) + rest;
    }
  }

  lemma SplitSection(b: Bytes)
    requires |b| >= 4 && |b| - 4 >= FromLe(b[..4])
    ensures var len := FromLe(b[..4]); b == SectionBytes(b[4..4 + len]) + b[4 + len..]
  {
    FromLeRoundTrip(b[..4]);
  }

  lemma HeaderParts(kind: byte, n: nat, body: Bytes)
    requires n <= MAX_SECTIONS
    ensures var b := MAGIC + [kind] + Le(n, 4) + body;
            |b| >= 9 && b[..4] == MAGIC && b[4] == kind && FromLe(b[5..9]) == n && b[9..] == body
  {
    var b := MAGIC + [kind] + Le(n, 4) + body;
    assert b[5..9] == Le(n, 4);
    Pow256Of4();
    LeRoundTrip(n, 4);
  }

  /** Decoding an encoding returns the sections exactly when they are within the reader's limits. */
  lemma EnvelopeReturns(kind: byte, secs: seq<Bytes>)
    ensures Decode(kind, Encode(kind, secs)) == Ok(secs) <==> Fits(secs)
  {
    if Fits(secs) {
      HeaderParts(kind, |secs|, SectionsBytes(secs));
      SectionsReturn(secs, []);
      assert SectionsBytes(secs) + [] == SectionsBytes(secs);
    }
    if Decode(kind, Encode(kind, secs)) == Ok(secs) {
      var b := Encode(kind, secs);
      DecodedFit(b[9..], FromLe(b[5..9]));
    }
  }

  lemma HeaderOf(b: Bytes)
    requires |b| >= 9 && b[..4] == MAGIC
    ensures b == MAGIC + [b[4]] + Le(FromLe(b[5..9]), 4) + b[9..]
  {
    FromLeRoundTrip(b[5..9]);
    assert b == b[..4] + [b[4]] + b[5..9] + b[9..];
  }

  /** Whatever decodes is an encoding of its sections, possibly followed by more bytes. */
  lemma DecodedIsPrefix(kind: byte, b: Bytes)
    requires Decode(kind, b).Ok?
    ensures Encode(kind, Decode(kind, b).value) <= b && Fits(Decode(kind, b).value)
  {
    var n := FromLe(b[5..9]);
    DecodedFit(b[9..], n);
    var (secs, rest) := DecodeSections(b[9..], n).value;
    HeaderOf(b);
    var head := MAGIC + [kind] + Le(n, 4);
    assert head + (SectionsBytes(secs) + rest) == (head + SectionsBytes(secs)) + rest;
  }

  /** A blob decodes under at most one kind. */
  lemma KindsApart(k: byte, l: byte, b: Bytes)
    requires Decode(k, b).Ok? && Decode(l, b).Ok?
    ensures k == l
  {
  }

  // ---- L2 entries ----

  datatype L2Entry = L2Entry(
    packageID: Bytes,
    goVersion: Bytes,
    buildEnv: Bytes,
    inputDigest: Bytes,
    depTypeDigest: Bytes,
    toolVersion: Bytes,
    exportData: Option<Bytes>,
    factsBlob: Option<Bytes>,
    fileSetSnapshot: Option<Bytes>)

  function NonNil(b: Option<Bytes>): Bytes
  {
    match b case None => [] case Some(x) => x
  }

  function EmptyToNil(b: Bytes): Option<Bytes>
  {
    if b == [] then None else Some(b)
  }

  function L2Sections(e: L2Entry): seq<Bytes>
  {
    [e.packageID, e.goVersion, e.buildEnv, e.inputDigest, e.depTypeDigest, e.toolVersion,
     NonNil(e.exportData), NonNil(e.factsBlob), NonNil(e.fileSetSnapshot)]
  }

  function EncodeL2(e: L2Entry): Bytes { Encode(KIND_L2, L2Sections(e)) }

  function DecodeL2(b: Bytes): Result<L2Entry>
  {
    match Decode(KIND_L2, b)
    case Err => Err
    case Ok(s) =>
      if |s| != 9 || |s[3]| != 32 || |s[4]| != 32 then Err
      else Ok(L2Entry(s[0], s[1], s[2], s[3], s[4], s[5], EmptyToNil(s[6]), EmptyToNil(s[7]), EmptyToNil(s[8])))
  }

  /** Digest fields are 32 bytes wide, as their Go type says. */
  predicate TypedL2(e: L2Entry)
  {
    |e.inputDigest| == 32 && |e.depTypeDigest| == 32
  }

  predicate NoEmptyBlob(e: L2Entry)
  {
    e.exportData != Some([]) && e.factsBlob != Some([]) && e.fileSetSnapshot != Some([])
  }

  /**
   * An L2 entry round-trips exactly when its fields are within the section limit
   * and no blob is empty without being nil.
   */
  lemma L2Returns(e: L2Entry)
    requires TypedL2(e)
    ensures DecodeL2(EncodeL2(e)) == Ok(e) <==> Fits(L2Sections(e)) && NoEmptyBlob(e)
  {
    var s := L2Sections(e);
    EnvelopeReturns(KIND_L2, s);
    if DecodeL2(EncodeL2(e)) == Ok(e) {
      var d := Decode(KIND_L2, Encode(KIND_L2, s)).value;
      assert d[0] == s[0] && d[1] == s[1] && d[2] == s[2] && d[3] == s[3] && d[4] == s[4] && d[5] == s[5];
      assert d[6] == s[6] && d[7] == s[7] && d[8] == s[8];
      assert d == s;
    }
  }

  /** An L1 blob is never read as an L2 entry. */
  lemma L1IsNotL2(secs: seq<Bytes>)
    ensures DecodeL2(Encode(KIND_L1, secs)) == Err
    ensures forall e :: Decode(KIND_L1, EncodeL2(e)) == Err
  {
    assert Encode(KIND_L1, secs)[4] == KIND_L1;
    forall e ensures Decode(KIND_L1, EncodeL2(e)) == Err {
      assert EncodeL2(e)[4] == KIND_L2;
    }
  }
}
