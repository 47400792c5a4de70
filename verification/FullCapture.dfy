// Failure-free histories in which the analysis callback records everything it
// analyses, as internal/engine/dep_override.go sets it up.  Such a history is
// determined by its runs, and so is what each of them reports.

module FullCapture {
  import opened Strings
  import opened Framing
  import opened DepClosure
  import opened RunModel
  import opened CacheProtocol
  import opened FailureFree

  /** Every dependency of what the run analyses is captured, unless its facts can come from the store. */
  ghost predicate CapturesAll(w: World, s: State, turn: Turn)
  {
    forall id :: id in DepsMet(w, turn.run, Misses(w, turn)) ==> id in turn.captured || InStore(w, s, turn.run, id)
  }

  ghost predicate InStore(w: World, s: State, run: RunInput, id: PackageID)
  {
    Key(w, run, id).Some? && Key(w, run, id).value in s.store
  }

  ghost predicate FullAt(w: World, states: seq<State>, turns: seq<Turn>, runs: seq<RunInput>, i: nat)
    requires i < |turns| == |runs| < |states|
  {
    turns[i].run == runs[i] && turns[i].reliable && CapturesAll(w, states[i], turns[i])
  }

  ghost predicate Full(w: World, states: seq<State>, turns: seq<Turn>, runs: seq<RunInput>)
  {
    |turns| == |runs| < |states| && forall i :: 0 <= i < |runs| ==> FullAt(w, states, turns, runs, i)
  }

  // ---- the keys stored before each run, from the runs alone ----

  /** The keys in the store, and those first written for a dependency. */
  datatype Keys = Keys(stored: set<Digest>, byDep: set<Digest>)

  /** The roots a run has to analyse. */
  ghost function ToAnalyse(w: World, run: RunInput, stored: set<Digest>): set<PackageID>
  {
    set id | id in Roots(w, run) && (Key(w, run, id).Some? ==> Key(w, run, id).value !in stored)
  }

  ghost function MetKeys(w: World, run: RunInput, stored: set<Digest>): set<Digest>
  {
    KeysOf(w, run, DepsMet(w, run, ToAnalyse(w, run, stored)))
  }

  ghost function KeysAfter(w: World, run: RunInput, ks: Keys): Keys
  {
    var deps := MetKeys(w, run, ks.stored);
    Keys(ks.stored + RootKeys(w, run) + deps, ks.byDep + (deps - ks.stored))
  }

  ghost predicate NextKeys(w: World, runs: seq<RunInput>, kss: seq<Keys>, i: nat)
    requires i < |runs| && |kss| == |runs| + 1
  {
    kss[i + 1] == KeysAfter(w, runs[i], kss[i])
  }

  /** kss[i] holds the keys before run i. */
  ghost predicate Follows(w: World, runs: seq<RunInput>, kss: seq<Keys>)
  {
    && |kss| == |runs| + 1 && kss[0] == Keys({}, {})
    && forall i :: 0 <= i < |runs| ==> NextKeys(w, runs, kss, i)
  }

  lemma KeysFollow(w: World, runs: seq<RunInput>) returns (kss: seq<Keys>)
    ensures Follows(w, runs, kss)
  {
    kss := [Keys({}, {})];
    for n := 0 to |runs|
      invariant Follows(w, runs[..n], kss)
    {
      FollowsGrows(w, runs, kss, n);
      kss := kss + [KeysAfter(w, runs[n], kss[n])];
    }
    assert runs[..|runs|] == runs;
  }

  lemma NextKeysStays(w: World, runs: seq<RunInput>, kss: seq<Keys>, n: nat, i: nat)
    requires i <= n < |runs| && Follows(w, runs[..n], kss)
    ensures NextKeys(w, runs[..n + 1], kss + [KeysAfter(w, runs[n], kss[n])], i)
  {
    if i < n {
      assert NextKeys(w, runs[..n], kss, i);
    }
  }

  lemma FollowsGrows(w: World, runs: seq<RunInput>, kss: seq<Keys>, n: nat)
    requires n < |runs| && Follows(w, runs[..n], kss)
    ensures Follows(w, runs[..n + 1], kss + [KeysAfter(w, runs[n], kss[n])])
  {
    var more, longer := runs[..n + 1], kss + [KeysAfter(w, runs[n], kss[n])];
    forall i | 0 <= i < |more|
      ensures NextKeys(w, more, longer, i)
    {
      NextKeysStays(w, runs, kss, n, i);
    }
  }

  /** The run meets the key as that of a dependency of what it analyses, and no earlier run has stored it. */
  ghost predicate NewlyMet(w: World, run: RunInput, ks: Keys, k: Digest)
  {
    k in MetKeys(w, run, ks.stored) && k !in ks.stored
  }

  lemma ByDepNext(w: World, runs: seq<RunInput>, kss: seq<Keys>, i: nat, k: Digest)
    requires Follows(w, runs, kss) && i < |runs|
    ensures k in kss[i + 1].byDep <==> k in kss[i].byDep || NewlyMet(w, runs[i], kss[i], k)
  {
    assert NextKeys(w, runs, kss, i);
  }

  /** A key that counts as a dependency's was newly met so by some earlier run. */
  lemma {:induction false} FirstMet(w: World, runs: seq<RunInput>, kss: seq<Keys>, n: nat, k: Digest) returns (i: nat)
    requires Follows(w, runs, kss) && n <= |runs| && k in kss[n].byDep
    ensures i < n && NewlyMet(w, runs[i], kss[i], k)
  {
    assert n > 0;
    i := n - 1;
    ByDepNext(w, runs, kss, i, k);
    if !NewlyMet(w, runs[i], kss[i], k) {
      i := FirstMet(w, runs, kss, i, k);
    }
  }

  /** And it counts so from then on. */
  lemma {:induction false} ByDepStays(w: World, runs: seq<RunInput>, kss: seq<Keys>, i: nat, n: nat, k: Digest)
    requires Follows(w, runs, kss) && i <= n <= |runs| && k in kss[i].byDep
    ensures k in kss[n].byDep
    decreases n
  {
    if i < n {
      ByDepStays(w, runs, kss, i, n - 1, k);
      ByDepNext(w, runs, kss, n - 1, k);
    }
  }

  // ---- the store follows them ----

  ghost predicate Tracked(s: State, ks: Keys)
  {
    s.store.Keys == ks.stored && ks.byDep <= ks.stored && forall k :: k in ks.stored ==> (k in s.byDep <==> k in ks.byDep)
  }

  predicate TrackedAt(s: State, ks: Keys, k: Digest)
  {
    && (k in s.store <==> k in ks.stored) && (k in ks.byDep ==> k in ks.stored)
    && (k in ks.stored ==> (k in s.byDep <==> k in ks.byDep))
  }

  lemma TrackedFrom(s: State, ks: Keys)
    requires forall k :: TrackedAt(s, ks, k)
    ensures Tracked(s, ks)
  {
    forall k | k in s.store.Keys + ks.stored + ks.byDep
      ensures (k in s.store <==> k in ks.stored) && (k in ks.byDep ==> k in ks.stored)
    {
      assert TrackedAt(s, ks, k);
    }
    forall k | k in ks.stored
      ensures k in s.byDep <==> k in ks.byDep
    {
      assert TrackedAt(s, ks, k);
    }
  }

  /** Without failures the hits are exactly the roots whose key is stored. */
  lemma MissesToAnalyse(w: World, s: State, turn: Turn, t: State)
    requires RunStep(w, s, turn, t) && turn.reliable
    ensures Misses(w, turn) == ToAnalyse(w, turn.run, s.store.Keys)
  {
    assert Complete(w, s, turn, t);
  }

  /** A key met as a dependency is no root's. */
  lemma MetApart(w: World, u: set<string>, run: RunInput, ids: set<PackageID>, k: Digest)
    requires CollisionFree(w.sha, u) && AnalyzerLocal(w) && Admissible(w, u, run)
    requires k in KeysOf(w, run, DepsMet(w, run, ids))
    ensures k !in RootKeys(w, run)
  {
    var x :| x in DepsMet(w, run, ids) && Key(w, run, x) == Some(k);
    if k in RootKeys(w, run) {
      var y :| y in Roots(w, run) && Key(w, run, y) == Some(k);
      SameKeySameResult(w, u, run, run, x, y);
    }
  }

  lemma StoredFrom(w: World, s: State, turn: Turn, t: State, k: Digest)
    requires RunStep(w, s, turn, t) && turn.reliable && CapturesAll(w, s, turn) && k !in s.store
    ensures k in t.store <==> k in RootKeys(w, turn.run) || k in KeysOf(w, turn.run, DepsMet(w, turn.run, Misses(w, turn)))
  {
    assert Complete(w, s, turn, t);
    if k in RootKeys(w, turn.run) {
      var id :| id in Roots(w, turn.run) && Key(w, turn.run, id) == Some(k);
    } else if k in KeysOf(w, turn.run, DepsMet(w, turn.run, Misses(w, turn))) {
      var id :| id in DepsMet(w, turn.run, Misses(w, turn)) && Key(w, turn.run, id) == Some(k);
      assert id in turn.captured || InStore(w, s, turn.run, id);
    }
  }

  lemma ByDepFrom(w: World, u: set<string>, s: State, turn: Turn, t: State, k: Digest)
    requires CollisionFree(w.sha, u) && AnalyzerLocal(w) && TurnTaken(w, u, s, turn, t) && k in t.store && k !in s.store
    ensures k in t.byDep <==> k !in RootKeys(w, turn.run)
  {
    assert NewEntries(w, s, turn, t);
    if k in t.byDep {
      var id :| id in turn.captured && id in DepsMet(w, turn.run, Misses(w, turn)) && Key(w, turn.run, id) == Some(k);
      MetApart(w, u, turn.run, Misses(w, turn), k);
    }
  }

  lemma TrackedNext(w: World, u: set<string>, s: State, ks: Keys, turn: Turn, t: State)
    requires CollisionFree(w.sha, u) && AnalyzerLocal(w) && TurnTaken(w, u, s, turn, t) && turn.reliable && CapturesAll(w, s, turn)
    requires Tracked(s, ks)
    ensures Tracked(t, KeysAfter(w, turn.run, ks))
  {
    var next := KeysAfter(w, turn.run, ks);
    MissesToAnalyse(w, s, turn, t);
    forall k
      ensures TrackedAt(t, next, k)
    {
      TrackedKey(w, u, s, ks, turn, t, k);
    }
    TrackedFrom(t, next);
  }

  lemma TrackedKey(w: World, u: set<string>, s: State, ks: Keys, turn: Turn, t: State, k: Digest)
    requires CollisionFree(w.sha, u) && AnalyzerLocal(w) && TurnTaken(w, u, s, turn, t) && turn.reliable && CapturesAll(w, s, turn)
    requires Tracked(s, ks) && Misses(w, turn) == ToAnalyse(w, turn.run, ks.stored)
    ensures TrackedAt(t, KeysAfter(w, turn.run, ks), k)
  {
    assert Grows(s, t);
    if k !in s.store {
      StoredFrom(w, s, turn, t, k);
      if k in t.store {
        ByDepFrom(w, u, s, turn, t, k);
        if k in MetKeys(w, turn.run, ks.stored) {
          MetApart(w, u, turn.run, Misses(w, turn), k);
        }
      }
    }
  }

  /** Turn i keeps track. */
  ghost predicate TracksAt(states: seq<State>, kss: seq<Keys>, i: nat)
    requires i + 1 < |states| && i + 1 < |kss|
  {
    Tracked(states[i], kss[i]) ==> Tracked(states[i + 1], kss[i + 1])
  }

  lemma {:induction false} TrackedUpTo(states: seq<State>, kss: seq<Keys>, n: nat)
    requires n < |states| && n < |kss| && Tracked(states[0], kss[0])
    requires forall i :: 0 <= i < n ==> TracksAt(states, kss, i)
    ensures Tracked(states[n], kss[n])
  {
    if n > 0 {
      TrackedUpTo(states, kss, n - 1);
      assert TracksAt(states, kss, n - 1);
    }
  }

  lemma TrackedThroughout(w: World, u: set<string>, states: seq<State>, turns: seq<Turn>, runs: seq<RunInput>,
                          kss: seq<Keys>, n: nat)
    requires CollisionFree(w.sha, u) && AnalyzerLocal(w) && History(w, u, states, turns) && Full(w, states, turns, runs)
    requires Follows(w, runs, kss) && n <= |runs|
    ensures Tracked(states[n], kss[n])
  {
    assert Tracked(EMPTY, Keys({}, {}));
    forall i | 0 <= i < n
      ensures TracksAt(states, kss, i)
    {
      TrackedTurn(w, u, states, turns, runs, kss, i);
    }
    TrackedUpTo(states, kss, n);
  }

  lemma TrackedTurn(w: World, u: set<string>, states: seq<State>, turns: seq<Turn>, runs: seq<RunInput>, kss: seq<Keys>, n: nat)
    requires CollisionFree(w.sha, u) && AnalyzerLocal(w) && History(w, u, states, turns) && Full(w, states, turns, runs)
    requires Follows(w, runs, kss) && n < |runs|
    ensures TracksAt(states, kss, n)
  {
    if Tracked(states[n], kss[n]) {
      TurnAt(w, u, states, turns, n);
      assert FullAt(w, states, turns, runs, n);
      assert NextKeys(w, runs, kss, n);
      TrackedNext(w, u, states[n], kss[n], turns[n], states[n + 1]);
    }
  }

  // ---- what each run reports ----

  /** In the run the root has findings under a key first met as a dependency of what was analysed. */
  ghost predicate Hidden(w: World, run: RunInput, ks: Keys, id: PackageID)
  {
    id in Roots(w, run) && Result(w, run, id) != [] && Key(w, run, id).Some? && Key(w, run, id).value in ks.byDep
  }

  ghost predicate NoneHidden(w: World, runs: seq<RunInput>, kss: seq<Keys>, j: nat)
    requires j < |runs| < |kss|
  {
    forall id :: !Hidden(w, runs[j], kss[j], id)
  }

  lemma PoisonedExactly(w: World, s: State, ks: Keys, turn: Turn, t: State, id: PackageID)
    requires RunStep(w, s, turn, t) && turn.reliable && Tracked(s, ks)
    ensures id in Poisoned(w, turn.run, s, turn.hits) <==>
            id in Roots(w, turn.run) && Key(w, turn.run, id).Some? && Key(w, turn.run, id).value in ks.byDep
  {
    assert Complete(w, s, turn, t);
  }

  /** Run j reports what it would without the cache if and only if it has no hidden root. */
  lemma FullRunExactly(w: World, u: set<string>, states: seq<State>, turns: seq<Turn>, runs: seq<RunInput>, kss: seq<Keys>, j: nat)
    requires CollisionFree(w.sha, u) && AnalyzerLocal(w) && History(w, u, states, turns) && Full(w, states, turns, runs)
    requires Follows(w, runs, kss) && j < |runs|
    ensures turns[j].out == Uncached(w, runs[j]) <==> NoneHidden(w, runs, kss, j)
  {
    TrackedThroughout(w, u, states, turns, runs, kss, j);
    TurnAt(w, u, states, turns, j);
    assert FullAt(w, states, turns, runs, j);
    HiddenArePoisoned(w, states[j], kss[j], turns[j], states[j + 1]);
    Transparent(w, u, states, turns, j);
  }

  lemma HiddenArePoisoned(w: World, s: State, ks: Keys, turn: Turn, t: State)
    requires RunStep(w, s, turn, t) && turn.reliable && Tracked(s, ks)
    ensures (forall id :: !Hidden(w, turn.run, ks, id)) <==>
            forall id :: id in Poisoned(w, turn.run, s, turn.hits) ==> Result(w, turn.run, id) == []
  {
    forall id
      ensures Hidden(w, turn.run, ks, id) <==> id in Poisoned(w, turn.run, s, turn.hits) && Result(w, turn.run, id) != []
    {
      PoisonedExactly(w, s, ks, turn, t, id);
    }
  }

  // ---- such a history exists ----

  lemma FullStep(w: World, u: set<string>, run: RunInput, s: State) returns (turn: Turn, t: State)
    requires Admissible(w, u, run) && s.byDep <= s.store.Keys
    ensures TurnTaken(w, u, s, turn, t) && t.byDep <= t.store.Keys
    ensures turn.run == run && turn.reliable && CapturesAll(w, s, turn)
  {
    turn, t := ReliableStep(w, u, run, s, DepsOnly(w, run));
    forall id | id in DepsMet(w, run, Misses(w, turn))
      ensures id in turn.captured
    {
      DepsMetAreDeps(w, run, Misses(w, turn), id);
    }
  }

  lemma FullHistory(w: World, u: set<string>, runs: seq<RunInput>) returns (states: seq<State>, turns: seq<Turn>)
    requires AllAdmissible(w, u, runs)
    ensures History(w, u, states, turns) && Full(w, states, turns, runs)
  {
    states, turns := [EMPTY], [];
    for n := 0 to |runs|
      invariant |turns| == n && History(w, u, states, turns) && states[n].byDep <= states[n].store.Keys
      invariant Full(w, states, turns, runs[..n])
    {
      RunAdmissible(w, u, runs, n);
      var turn, t := FullStep(w, u, runs[n], states[n]);
      HistoryGrows(w, u, states, turns, turn, t);
      FullGrows(w, states, turns, runs, n, turn, t);
      states, turns := states + [t], turns + [turn];
    }
    assert runs[..|runs|] == runs;
  }

  lemma FullStays(w: World, states: seq<State>, turns: seq<Turn>, runs: seq<RunInput>, n: nat, turn: Turn, t: State, i: nat)
    requires i <= n < |runs| && |states| == n + 1 && Full(w, states, turns, runs[..n])
    requires turn.run == runs[n] && turn.reliable && CapturesAll(w, states[n], turn)
    ensures FullAt(w, states + [t], turns + [turn], runs[..n + 1], i)
  {
    if i < n {
      assert FullAt(w, states, turns, runs[..n], i);
    }
  }

  lemma FullGrows(w: World, states: seq<State>, turns: seq<Turn>, runs: seq<RunInput>, n: nat, turn: Turn, t: State)
    requires n < |runs| && |states| == n + 1 && Full(w, states, turns, runs[..n])
    requires turn.run == runs[n] && turn.reliable && CapturesAll(w, states[n], turn)
    ensures Full(w, states + [t], turns + [turn], runs[..n + 1])
  {
    var after, longer, more := states + [t], turns + [turn], runs[..n + 1];
    forall i | 0 <= i < |more|
      ensures FullAt(w, after, longer, more, i)
    {
      FullStays(w, states, turns, runs, n, turn, t, i);
    }
  }

  ghost predicate FullyInvisible(w: World, u: set<string>, runs: seq<RunInput>)
  {
    forall states, turns | History(w, u, states, turns) && Full(w, states, turns, runs) :: AllReported(w, turns, runs)
  }

  ghost predicate AllReported(w: World, turns: seq<Turn>, runs: seq<RunInput>)
    requires |turns| == |runs|
  {
    forall i :: 0 <= i < |runs| ==> turns[i].out == Uncached(w, runs[i])
  }

  lemma NothingHidden(w: World, u: set<string>, states: seq<State>, turns: seq<Turn>, runs: seq<RunInput>, kss: seq<Keys>)
    requires CollisionFree(w.sha, u) && AnalyzerLocal(w) && History(w, u, states, turns) && Full(w, states, turns, runs)
    requires Follows(w, runs, kss) && forall j :: 0 <= j < |runs| ==> NoneHidden(w, runs, kss, j)
    ensures AllReported(w, turns, runs)
  {
    forall j | 0 <= j < |runs|
      ensures turns[j].out == Uncached(w, runs[j])
    {
      FullRunExactly(w, u, states, turns, runs, kss, j);
    }
  }

  /**
   * The exact condition for what the program does when nothing fails: a sequence
   * of runs and edits is reported as without the cache if and only if no root
   * with findings has a key that was first met as a dependency of what was analysed.
   */
  lemma FullyInvisibleExactly(w: World, u: set<string>, runs: seq<RunInput>, kss: seq<Keys>)
    requires CollisionFree(w.sha, u) && AnalyzerLocal(w) && AllAdmissible(w, u, runs) && Follows(w, runs, kss)
    ensures FullyInvisible(w, u, runs) <==> forall j :: 0 <= j < |runs| ==> NoneHidden(w, runs, kss, j)
  {
    if j :| 0 <= j < |runs| && !NoneHidden(w, runs, kss, j) {
      var states, turns := FullHistory(w, u, runs);
      FullRunExactly(w, u, states, turns, runs, kss, j);
    } else {
      forall states, turns | History(w, u, states, turns) && Full(w, states, turns, runs)
        ensures AllReported(w, turns, runs)
      {
        NothingHidden(w, u, states, turns, runs, kss);
      }
    }
  }
}
