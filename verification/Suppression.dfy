// The loop shared by the batch and streaming filters: drop by decision, then
// keep only the first survivor of each (file, line).  The decision itself is a
// parameter here, so these laws hold for every configuration.

module Suppression {
  import opened Diagnostics

  datatype Kept = Kept(out: seq<Diagnostic>, seen: set<FileLine>)

  function Keep(drop: Diagnostic -> bool, uniq: bool, ds: seq<Diagnostic>, seen: set<FileLine>): Kept
    decreases ds
  {
    if ds == [] then Kept([], seen)
    else if drop(ds[0]) || (uniq && LineOf(ds[0]) in seen) then Keep(drop, uniq, ds[1..], seen)
    else
      var rest := Keep(drop, uniq, ds[1..], if uniq then seen + {LineOf(ds[0])} else seen);
      Kept([ds[0]] + rest.out, rest.seen)
  }

  /** Position i of the list survives: not dropped, and the first such on its line. */
  predicate Survives(drop: Diagnostic -> bool, uniq: bool, ds: seq<Diagnostic>, seen: set<FileLine>, i: nat)
    requires i < |ds|
  {
    && !drop(ds[i])
    && (uniq ==>
          && LineOf(ds[i]) !in seen
          && forall j :: 0 <= j < i && !drop(ds[j]) ==> LineOf(ds[j]) != LineOf(ds[i]))
  }

  /** The survivors from position i on, in order. */
  function Survivors(drop: Diagnostic -> bool, uniq: bool, ds: seq<Diagnostic>, seen: set<FileLine>, i: nat): seq<Diagnostic>
    requires i <= |ds|
    decreases |ds| - i
  {
    if i == |ds| then []
    else (if Survives(drop, uniq, ds, seen, i) then [ds[i]] else []) + Survivors(drop, uniq, ds, seen, i + 1)
  }

  /** The lines claimed once the first i diagnostics have been processed. */
  ghost predicate Claimed(drop: Diagnostic -> bool, uniq: bool, ds: seq<Diagnostic>, seen: set<FileLine>, i: nat, now: set<FileLine>)
    requires i <= |ds|
  {
    if uniq then
      forall k :: k in now <==> k in seen || exists j :: 0 <= j < i && !drop(ds[j]) && LineOf(ds[j]) == k
    else now == seen
  }

  /** The loop, started in the middle, keeps exactly the remaining survivors. */
  lemma {:induction false} KeepFrom(drop: Diagnostic -> bool, uniq: bool, ds: seq<Diagnostic>, seen: set<FileLine>, i: nat, now: set<FileLine>)
    requires i <= |ds| && Claimed(drop, uniq, ds, seen, i, now)
    ensures Keep(drop, uniq, ds[i..], now).out == Survivors(drop, uniq, ds, seen, i)
    decreases |ds| - i
  {
    if i < |ds| {
      assert ds[i..][0] == ds[i] && ds[i..][1..] == ds[i + 1..];
      assert Survives(drop, uniq, ds, seen, i) <==> !(drop(ds[i]) || (uniq && LineOf(ds[i]) in now));
      var next := if uniq && !drop(ds[i]) then now + {LineOf(ds[i])} else now;
      assert Claimed(drop, uniq, ds, seen, i + 1, next);
      KeepFrom(drop, uniq, ds, seen, i + 1, next);
      if uniq && !drop(ds[i]) && LineOf(ds[i]) in now { assert next == now; }
    }
  }

  /** The loop keeps exactly the survivors, each judged by the whole list. */
  lemma KeepIsSurvivors(drop: Diagnostic -> bool, uniq: bool, ds: seq<Diagnostic>, seen: set<FileLine>)
    ensures Keep(drop, uniq, ds, seen).out == Survivors(drop, uniq, ds, seen, 0)
  {
    KeepFrom(drop, uniq, ds, seen, 0, seen);
    assert ds[0..] == ds;
  }

  // ---- which positions are kept, by file name and line number ----

  predicate SameLine(a: Diagnostic, b: Diagnostic)
  {
    a.pos.filename == b.pos.filename && a.pos.line == b.pos.line
  }

  /** The file and line of the diagnostic are among those already claimed. */
  predicate TakenBefore(seen: set<FileLine>, d: Diagnostic)
  {
    (d.pos.filename, d.pos.line) in seen
  }

  predicate Ascends(ks: seq<nat>)
  {
    forall p, q :: 0 <= p < q < |ks| ==> ks[p] < ks[q]
  }

  /** ks are positions of ds, and out is what stands there. */
  ghost predicate Picks(ds: seq<Diagnostic>, ks: seq<nat>, out: seq<Diagnostic>)
  {
    Ascends(ks) && |out| == |ks| && forall p :: 0 <= p < |ks| ==> ks[p] < |ds| && out[p] == ds[ks[p]]
  }

  /** i is not dropped, and a kept position, i itself or an earlier one, has its file and line. */
  ghost predicate AnsweredFor(ds: seq<Diagnostic>, ks: seq<nat>, i: nat)
    requires i < |ds|
  {
    exists k :: k in ks && k <= i && k < |ds| && SameLine(ds[k], ds[i])
  }

  /** The survivors among the positions from i on. */
  function SurvivorsAt(drop: Diagnostic -> bool, uniq: bool, ds: seq<Diagnostic>, seen: set<FileLine>, i: nat): (ks: seq<nat>)
    requires i <= |ds|
    ensures forall k :: k in ks <==> i <= k < |ds| && Survives(drop, uniq, ds, seen, k)
    ensures Ascends(ks)
    decreases |ds| - i
  {
    if i == |ds| then []
    else
      var rest := SurvivorsAt(drop, uniq, ds, seen, i + 1);
      assert forall p :: 0 <= p < |rest| ==> rest[p] in rest;
      (if Survives(drop, uniq, ds, seen, i) then [i] else []) + rest
  }

  lemma {:induction false} SurvivorsPicked(drop: Diagnostic -> bool, uniq: bool, ds: seq<Diagnostic>, seen: set<FileLine>, i: nat)
    requires i <= |ds|
    ensures Picks(ds, SurvivorsAt(drop, uniq, ds, seen, i), Survivors(drop, uniq, ds, seen, i))
    decreases |ds| - i
  {
    if i < |ds| {
      SurvivorsPicked(drop, uniq, ds, seen, i + 1);
      PickFirst(ds, i, SurvivorsAt(drop, uniq, ds, seen, i + 1), Survivors(drop, uniq, ds, seen, i + 1));
    }
  }

  lemma PickFirst(ds: seq<Diagnostic>, i: nat, ks: seq<nat>, out: seq<Diagnostic>)
    requires i < |ds| && Picks(ds, ks, out) && forall k :: k in ks ==> i < k
    ensures Picks(ds, [i] + ks, [ds[i]] + out)
  {
    assert forall p :: 0 <= p < |ks| ==> ks[p] in ks;
  }

  /** Among the undropped diagnostics of a line the first one survives. */
  lemma {:induction false} FirstSurvives(drop: Diagnostic -> bool, ds: seq<Diagnostic>, seen: set<FileLine>, i: nat) returns (k: nat)
    requires i < |ds| && !drop(ds[i]) && !TakenBefore(seen, ds[i])
    ensures k <= i && SameLine(ds[k], ds[i]) && Survives(drop, true, ds, seen, k)
    decreases i
  {
    if j :| 0 <= j < i && !drop(ds[j]) && SameLine(ds[j], ds[i]) {
      k := FirstSurvives(drop, ds, seen, j);
    } else {
      k := i;
    }
  }

  /**
   * What the loop keeps: the diagnostics at some positions, in order, none of them
   * dropped.  Without uniq-by-line these are all undropped positions.  With it, no
   * two of them share file and line, none has a file and line claimed before, and
   * every other undropped diagnostic has one that was claimed or kept earlier.
   */
  lemma KeptExactly(drop: Diagnostic -> bool, uniq: bool, ds: seq<Diagnostic>, seen: set<FileLine>) returns (ks: seq<nat>)
    ensures Picks(ds, ks, Keep(drop, uniq, ds, seen).out)
    ensures forall k :: k in ks ==> k < |ds| && !drop(ds[k]) && (uniq ==> !TakenBefore(seen, ds[k]))
    ensures uniq ==> forall j, k :: j in ks && k in ks && j < k && k < |ds| ==> !SameLine(ds[j], ds[k])
    ensures forall i :: 0 <= i < |ds| && !drop(ds[i]) ==>
              if uniq then TakenBefore(seen, ds[i]) || AnsweredFor(ds, ks, i) else i in ks
  {
    ks := SurvivorsAt(drop, uniq, ds, seen, 0);
    KeepIsSurvivors(drop, uniq, ds, seen);
    SurvivorsPicked(drop, uniq, ds, seen, 0);
    forall i | 0 <= i < |ds| && !drop(ds[i]) && uniq && !TakenBefore(seen, ds[i])
      ensures AnsweredFor(ds, ks, i)
    {
      var k := FirstSurvives(drop, ds, seen, i);
      assert k in ks;
    }
  }

  /** No two diagnostics of the list share file and line. */
  predicate LinesApart(out: seq<Diagnostic>)
  {
    forall p, q :: 0 <= p < q < |out| ==> !SameLine(out[p], out[q])
  }

  /** Not dropped, and under uniq-by-line no earlier undropped diagnostic has its file and line. */
  predicate FirstOfLine(drop: Diagnostic -> bool, uniq: bool, ds: seq<Diagnostic>, i: nat)
    requires i < |ds|
  {
    !drop(ds[i]) && (uniq ==> forall j :: 0 <= j < i && !drop(ds[j]) ==> !SameLine(ds[j], ds[i]))
  }

  lemma KeptMeans(drop: Diagnostic -> bool, uniq: bool, ds: seq<Diagnostic>, d: Diagnostic)
    ensures d in Keep(drop, uniq, ds, {}).out <==> exists i :: 0 <= i < |ds| && ds[i] == d && FirstOfLine(drop, uniq, ds, i)
  {
    var out := Keep(drop, uniq, ds, {}).out;
    if d in out {
      var p :| 0 <= p < |out| && out[p] == d;
      var k := KeptIsFirst(drop, uniq, ds, p);
    }
    if i :| 0 <= i < |ds| && ds[i] == d && FirstOfLine(drop, uniq, ds, i) {
      FirstIsKept(drop, uniq, ds, i);
    }
  }

  lemma KeptIsFirst(drop: Diagnostic -> bool, uniq: bool, ds: seq<Diagnostic>, p: nat) returns (k: nat)
    requires p < |Keep(drop, uniq, ds, {}).out|
    ensures k < |ds| && ds[k] == Keep(drop, uniq, ds, {}).out[p] && FirstOfLine(drop, uniq, ds, k)
  {
    var ks := KeptExactly(drop, uniq, ds, {});
    k := ks[p];
    assert k in ks;
    forall j | 0 <= j < k && uniq && !drop(ds[j])
      ensures !SameLine(ds[j], ds[k])
    {
      var a :| a in ks && a <= j && a < |ds| && SameLine(ds[a], ds[j]);
      assert !SameLine(ds[a], ds[k]);
    }
  }

  lemma FirstIsKept(drop: Diagnostic -> bool, uniq: bool, ds: seq<Diagnostic>, i: nat)
    requires i < |ds| && FirstOfLine(drop, uniq, ds, i)
    ensures ds[i] in Keep(drop, uniq, ds, {}).out
  {
    var ks := KeptExactly(drop, uniq, ds, {});
    if uniq {
      var k :| k in ks && k <= i && k < |ds| && SameLine(ds[k], ds[i]);
      assert !drop(ds[k]);
    }
    var p :| 0 <= p < |ks| && ks[p] == i;
    assert Keep(drop, uniq, ds, {}).out[p] == ds[i];
  }

  /** The list has the diagnostic at i, or an earlier one of its file and line. */
  predicate Represented(ds: seq<Diagnostic>, out: seq<Diagnostic>, i: nat)
    requires i < |ds|
  {
    exists j :: 0 <= j <= i && ds[j] in out && SameLine(ds[j], ds[i])
  }

  /** Every undropped diagnostic is kept, has its line taken before, or follows a kept one of its file and line. */
  lemma KeptRepresents(drop: Diagnostic -> bool, uniq: bool, ds: seq<Diagnostic>, seen: set<FileLine>, i: nat)
    requires i < |ds| && !drop(ds[i])
    ensures var out := Keep(drop, uniq, ds, seen).out;
            if uniq then TakenBefore(seen, ds[i]) || Represented(ds, out, i) else ds[i] in out
  {
    var out := Keep(drop, uniq, ds, seen).out;
    var ks := KeptExactly(drop, uniq, ds, seen);
    if uniq && !TakenBefore(seen, ds[i]) {
      var k :| k in ks && k <= i && k < |ds| && SameLine(ds[k], ds[i]);
      var p :| 0 <= p < |ks| && ks[p] == k;
      assert out[p] == ds[k];
    } else if !uniq {
      var p :| 0 <= p < |ks| && ks[p] == i;
      assert out[p] == ds[i];
    }
  }

  lemma KeptTaken(drop: Diagnostic -> bool, ds: seq<Diagnostic>, seen: set<FileLine>)
    ensures forall d :: d in Keep(drop, true, ds, seen).out ==> TakenBefore(Keep(drop, true, ds, seen).seen, d)
  {
    forall d | d in Keep(drop, true, ds, seen).out
      ensures TakenBefore(Keep(drop, true, ds, seen).seen, d)
    {
      ClaimedExactly(drop, true, ds, seen, d.pos.filename, d.pos.line);
    }
  }

  lemma KeptLinesApart(drop: Diagnostic -> bool, ds: seq<Diagnostic>, seen: set<FileLine>)
    ensures LinesApart(Keep(drop, true, ds, seen).out)
    ensures forall d :: d in Keep(drop, true, ds, seen).out ==> !TakenBefore(seen, d)
  {
    var ks := KeptExactly(drop, true, ds, seen);
    var out := Keep(drop, true, ds, seen).out;
    forall p, q | 0 <= p < q < |out|
      ensures !SameLine(out[p], out[q])
    {
      assert ks[p] in ks && ks[q] in ks && ks[p] < ks[q];
    }
    forall d | d in out
      ensures !TakenBefore(seen, d)
    {
      var p :| 0 <= p < |out| && out[p] == d;
      assert ks[p] in ks;
    }
  }

  /** The lines claimed afterwards are those claimed before and those of what was kept. */
  lemma {:induction false} ClaimedExactly(drop: Diagnostic -> bool, uniq: bool, ds: seq<Diagnostic>, seen: set<FileLine>, file: string, line: int)
    ensures var k := Keep(drop, uniq, ds, seen);
            (file, line) in k.seen <==>
              (file, line) in seen || (uniq && exists d :: d in k.out && d.pos.filename == file && d.pos.line == line)
    decreases ds
  {
    if ds != [] {
      var d := ds[0];
      if drop(d) || (uniq && LineOf(d) in seen) {
        ClaimedExactly(drop, uniq, ds[1..], seen, file, line);
      } else {
        var rest := Keep(drop, uniq, ds[1..], if uniq then seen + {LineOf(d)} else seen);
        ClaimedExactly(drop, uniq, ds[1..], if uniq then seen + {LineOf(d)} else seen, file, line);
        assert forall x :: x in [d] + rest.out <==> x == d || x in rest.out;
      }
    }
  }

  lemma {:induction false} KeepSubset(drop: Diagnostic -> bool, uniq: bool, ds: seq<Diagnostic>, seen: set<FileLine>)
    ensures forall d :: d in Keep(drop, uniq, ds, seen).out ==> d in ds && !drop(d)
    decreases ds
  {
    if ds != [] {
      KeepSubset(drop, uniq, ds[1..], seen);
      KeepSubset(drop, uniq, ds[1..], if uniq then seen + {LineOf(ds[0])} else seen);
    }
  }

  lemma {:induction false} KeepAll(drop: Diagnostic -> bool, ds: seq<Diagnostic>, seen: set<FileLine>)
    requires forall d :: d in ds ==> !drop(d)
    ensures Keep(drop, false, ds, seen).out == ds
    decreases ds
  {
    if ds != [] {
      assert ds[0] in ds;
      KeepAll(drop, ds[1..], seen);
      assert ds == [ds[0]] + ds[1..];
    }
  }

  /** Cutting the list anywhere and carrying the seen set over changes nothing. */
  lemma {:induction false} KeepAppend(drop: Diagnostic -> bool, uniq: bool, a: seq<Diagnostic>, b: seq<Diagnostic>, seen: set<FileLine>)
    ensures
      var ka := Keep(drop, uniq, a, seen);
      var kb := Keep(drop, uniq, b, ka.seen);
      Keep(drop, uniq, a + b, seen) == Kept(ka.out + kb.out, kb.seen)
    decreases a
  {
    if a == [] {
      assert a + b == b;
    } else {
      assert (a + b)[1..] == a[1..] + b && (a + b)[0] == a[0];
      KeepAppend(drop, uniq, a[1..], b, seen);
      KeepAppend(drop, uniq, a[1..], b, if uniq then seen + {LineOf(a[0])} else seen);
    }
  }

  /** One more diagnostic at the end of the list. */
  lemma KeepSnoc(drop: Diagnostic -> bool, uniq: bool, a: seq<Diagnostic>, d: Diagnostic, seen: set<FileLine>)
    ensures
      var ka := Keep(drop, uniq, a, seen);
      Keep(drop, uniq, a + [d], seen) ==
        if drop(d) || (uniq && LineOf(d) in ka.seen) then ka
        else Kept(ka.out + [d], if uniq then ka.seen + {LineOf(d)} else ka.seen)
  {
    KeepAppend(drop, uniq, a, [d], seen);
    assert [d][1..] == [];
  }

  ghost predicate AgreeOn(c: string -> bool, s: set<FileLine>, t: set<FileLine>)
  {
    forall k: FileLine :: c(k.0) ==> (k in s <==> k in t)
  }

  /** What happens to a class of files depends on that class alone. */
  lemma {:induction false} KeepInClass(drop: Diagnostic -> bool, uniq: bool, ds: seq<Diagnostic>, c: string -> bool,
                                       s: set<FileLine>, t: set<FileLine>)
    requires AgreeOn(c, s, t)
    ensures InClass(Keep(drop, uniq, ds, s).out, c) == Keep(drop, uniq, InClass(ds, c), t).out
    ensures AgreeOn(c, Keep(drop, uniq, ds, s).seen, Keep(drop, uniq, InClass(ds, c), t).seen)
    decreases ds
  {
    if ds != [] {
      var d := ds[0];
      var kept := !(drop(d) || (uniq && LineOf(d) in s));
      var s' := if kept && uniq then s + {LineOf(d)} else s;
      if c(d.pos.filename) {
        assert InClass(ds, c) == [d] + InClass(ds[1..], c);
        assert InClass(ds, c)[1..] == InClass(ds[1..], c);
        var t' := if kept && uniq then t + {LineOf(d)} else t;
        KeepInClass(drop, uniq, ds[1..], c, s', t');
      } else {
        KeepInClass(drop, uniq, ds[1..], c, s', t);
      }
      if kept {
        var rest := Keep(drop, uniq, ds[1..], s').out;
        assert ([d] + rest)[1..] == rest;
      }
    }
  }
}
