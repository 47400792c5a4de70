// The diagnostic record every output format consumes (internal/output).

module Diagnostics {

  datatype Position = Position(filename: string, line: int, column: int)

  datatype TextEdit = TextEdit(start: Position, end: Position, newText: string)

  datatype SuggestedFix = SuggestedFix(message: string, textEdits: seq<TextEdit>)

  datatype RelatedInformation = RelatedInformation(position: Position, message: string)

  datatype Diagnostic = Diagnostic(
    linter: string,
    message: string,
    severity: string,
    pos: Position,
    sourceLines: seq<string>,
    suggestedFixes: seq<SuggestedFix>,
    related: seq<RelatedInformation>)

  /** The (file, line) pair uniq-by-line deduplicates on. */
  type FileLine = (string, int)

  function LineOf(d: Diagnostic): FileLine { (d.pos.filename, d.pos.line) }

  // ---- sublists by file ----

  /** The diagnostics of a list whose file is in the given class, in order. */
  function InClass(ds: seq<Diagnostic>, c: string -> bool): (r: seq<Diagnostic>)
    ensures forall d :: d in r <==> d in ds && c(d.pos.filename)
  {
    if ds == [] then []
    else if c(ds[0].pos.filename) then [ds[0]] + InClass(ds[1..], c)
    else InClass(ds[1..], c)
  }

  lemma {:induction false} InClassAppend(a: seq<Diagnostic>, b: seq<Diagnostic>, c: string -> bool)
    ensures InClass(a + b, c) == InClass(a, c) + InClass(b, c)
  {
    if a == [] {
      assert a + b == b;
    } else {
      assert (a + b)[1..] == a[1..] + b;
      InClassAppend(a[1..], b, c);
    }
  }

  lemma {:induction false} InClassSame(ds: seq<Diagnostic>, c: string -> bool, e: string -> bool)
    requires forall d :: d in ds ==> c(d.pos.filename) == e(d.pos.filename)
    ensures InClass(ds, c) == InClass(ds, e)
  {
    if ds != [] {
      assert ds[0] in ds;
      InClassSame(ds[1..], c, e);
    }
  }

  lemma {:induction false} InClassAll(ds: seq<Diagnostic>, c: string -> bool)
    requires forall d :: d in ds ==> c(d.pos.filename)
    ensures InClass(ds, c) == ds
  {
    if ds != [] {
      assert ds[0] in ds;
      InClassAll(ds[1..], c);
      assert ds == [ds[0]] + ds[1..];
    }
  }

  lemma HeadIn(ds: seq<Diagnostic>)
    ensures ds == [] || ds[0] in ds
  {
  }
}
