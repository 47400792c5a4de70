// Byte strings and their order.
//
// A Go string is modelled as a Dafny `string` in which every character stands
// for one byte.  Only code that reads raw bytes back (the envelope decoder)
// needs the element type `byte`.

module Strings {

  type byte = c: char | c as int < 256 witness 'a'

  datatype Option<+T> = None | Some(value: T)

  /** What is on disk: file contents by path. */
  type Files = map<string, string>

  /** The order of Go's `<` on strings: bytewise lexicographic. */
  predicate Less(a: string, b: string)
  {
    if b == "" then false
    else if a == "" then true
    else if a[0] == b[0] then Less(a[1..], b[1..])
    else a[0] < b[0]
  }

  /** a and b agree on their first n bytes. */
  predicate AgreeUpTo(a: string, b: string, n: nat)
  {
    n <= |a| && n <= |b| && a[..n] == b[..n]
  }

  /** One string is below another when it is a proper prefix, or has the smaller byte where they first differ. */
  lemma {:induction false} LessMeaning(a: string, b: string)
    ensures Less(a, b) <==> exists n: nat :: AgreeUpTo(a, b, n) && n < |b| && (n == |a| || a[n] < b[n])
  {
    if a != "" && b != "" && a[0] == b[0] {
      LessMeaning(a[1..], b[1..]);
      if n: nat :| AgreeUpTo(a[1..], b[1..], n) && n < |b[1..]| && (n == |a[1..]| || a[1..][n] < b[1..][n]) {
        FrontAgrees(a, b, n);
        assert AgreeUpTo(a, b, n + 1) && n + 1 < |b| && (n + 1 == |a| || a[n + 1] < b[n + 1]);
      }
      if n: nat :| AgreeUpTo(a, b, n) && n < |b| && (n == |a| || a[n] < b[n]) {
        assert n > 0;
        FrontAgrees(a, b, n - 1);
        assert AgreeUpTo(a[1..], b[1..], n - 1);
      }
    } else {
      assert AgreeUpTo(a, b, 0);
      forall n: nat
        ensures AgreeUpTo(a, b, n) ==> n == 0 || (a != "" && b != "" && a[0] == b[0])
      {
        CommonFront(a, b, n);
      }
    }
  }

  lemma CommonFront(a: string, b: string, n: nat)
    ensures AgreeUpTo(a, b, n) ==> n == 0 || (a != "" && b != "" && a[0] == b[0])
  {
    if AgreeUpTo(a, b, n) && n > 0 {
      assert a[0] == a[..n][0] && b[0] == b[..n][0];
    }
  }

  lemma FrontAgrees(a: string, b: string, n: nat)
    requires a != "" && b != "" && a[0] == b[0]
    ensures AgreeUpTo(a, b, n + 1) <==> AgreeUpTo(a[1..], b[1..], n)
  {
    if n < |a| && n < |b| {
      assert a[..n + 1] == [a[0]] + a[1..][..n] && b[..n + 1] == [b[0]] + b[1..][..n];
      assert a[..n + 1][1..] == a[1..][..n] && b[..n + 1][1..] == b[1..][..n];
    }
  }

  predicate Leq(a: string, b: string)
  {
    a == b || Less(a, b)
  }

  lemma {:induction false} LessIrreflexive(a: string)
    ensures !Less(a, a)
  {
    if a != "" { LessIrreflexive(a[1..]); }
  }

  lemma {:induction false} LessTransitive(a: string, b: string, c: string)
    requires Less(a, b) && Less(b, c)
    ensures Less(a, c)
  {
    if a != "" && a[0] == b[0] && b[0] == c[0] {
      LessTransitive(a[1..], b[1..], c[1..]);
    }
  }

  lemma {:induction false} LessTotal(a: string, b: string)
    ensures a == b || Less(a, b) || Less(b, a)
  {
    if a != "" && b != "" && a[0] == b[0] {
      LessTotal(a[1..], b[1..]);
      assert a == [a[0]] + a[1..] && b == [b[0]] + b[1..];
    }
  }

  lemma LessAsymmetric(a: string, b: string)
    requires Less(a, b)
    ensures !Less(b, a) && a != b
  {
    LessIrreflexive(a);
    if Less(b, a) { LessTransitive(a, b, a); }
  }

  lemma LeqTransitive(a: string, b: string, c: string)
    requires Leq(a, b) && Leq(b, c)
    ensures Leq(a, c)
  {
    if Less(a, b) && Less(b, c) { LessTransitive(a, b, c); }
  }

  lemma LeqAntisymmetric(a: string, b: string)
    requires Leq(a, b) && Leq(b, a)
    ensures a == b
  {
    if Less(a, b) { LessAsymmetric(a, b); }
  }
}
