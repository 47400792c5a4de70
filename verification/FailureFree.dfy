// Histories in which every read and write of the cache succeeds.

module FailureFree {
  import opened Strings
  import opened Framing
  import opened DepClosure
  import opened Diagnostics
  import opened Gathering
  import opened RunModel
  import opened CacheProtocol

  ghost predicate AllReliable(turns: seq<Turn>)
  {
    forall i :: 0 <= i < |turns| ==> turns[i].reliable
  }

  /** Whatever is captured, as long as nothing fails every run reports its uncached result. */
  ghost predicate ReliablyInvisible(w: World, u: set<string>, runs: seq<RunInput>)
  {
    forall states, turns: seq<Turn>, i | History(w, u, states, turns) && Performs(turns, runs) && AllReliable(turns) && 0 <= i < |runs| ::
      turns[i].out == Uncached(w, runs[i])
  }

  // ---- what is sure to be stored ----

  /** In run m the package is a root under this key. */
  ghost predicate RootUnder(w: World, run: RunInput, id: PackageID, k: Digest)
  {
    id in Roots(w, run) && Key(w, run, id) == Some(k)
  }

  /** Before run i the package has been a root under this key. */
  ghost predicate RootBefore(w: World, runs: seq<RunInput>, i: nat, id: PackageID, k: Digest)
  {
    exists m :: 0 <= m < i && m < |runs| && RootUnder(w, runs[m], id, k)
  }

  /** The roots of run i that no failure-free history can serve from root entries. */
  ghost function NewRoots(w: World, runs: seq<RunInput>, i: nat): set<PackageID>
    requires i < |runs|
  {
    set id | id in Roots(w, runs[i]) && (Key(w, runs[i], id).Some? ==> !RootBefore(w, runs, i, id, Key(w, runs[i], id).value))
  }

  /**
   * In run j the root id has findings under a key that was first met in run i,
   * where the package is only a dependency of roots that must be analysed.
   */
  ghost predicate HidesReliably(w: World, runs: seq<RunInput>, i: nat, j: nat, id: PackageID)
  {
    && i < j < |runs| && id in DepsMet(w, runs[i], NewRoots(w, runs, i)) && id in Roots(w, runs[j])
    && Key(w, runs[i], id).Some? && Key(w, runs[i], id) == Key(w, runs[j], id) && Result(w, runs[j], id) != []
    && !RootBefore(w, runs, i, id, Key(w, runs[i], id).value)
  }

  lemma {:induction false} StoresGrow(w: World, u: set<string>, states: seq<State>, turns: seq<Turn>, i: nat, j: nat)
    requires History(w, u, states, turns) && i <= j < |states|
    ensures Grows(states[i], states[j])
    decreases j - i
  {
    if i < j {
      StoresGrow(w, u, states, turns, i, j - 1);
      GrowsNext(w, u, states, turns, j - 1);
      GrowsOn(states[i], states[j - 1], states[j]);
    }
  }

  lemma GrowsNext(w: World, u: set<string>, states: seq<State>, turns: seq<Turn>, i: nat)
    requires History(w, u, states, turns) && i < |turns|
    ensures Grows(states[i], states[i + 1])
  {
    TurnAt(w, u, states, turns, i);
  }

  lemma GrowsOn(a: State, b: State, c: State)
    requires Grows(a, b) && Grows(b, c)
    ensures Grows(a, c)
  {
  }

  /** What is not stored after a run was no root's key in it. */
  lemma NotStoredNext(w: World, u: set<string>, states: seq<State>, turns: seq<Turn>, m: nat, id: PackageID, k: Digest)
    requires History(w, u, states, turns) && m < |turns| && turns[m].reliable && k !in states[m + 1].store
    ensures !RootUnder(w, turns[m].run, id, k)
  {
    TurnAt(w, u, states, turns, m);
    assert Complete(w, states[m], turns[m], states[m + 1]);
  }

  lemma KeysGrow(w: World, u: set<string>, states: seq<State>, turns: seq<Turn>, i: nat, j: nat)
    requires History(w, u, states, turns) && i <= j < |states|
    ensures states[i].store.Keys <= states[j].store.Keys
  {
    StoresGrow(w, u, states, turns, i, j);
  }

  lemma StaysByDep(w: World, u: set<string>, states: seq<State>, turns: seq<Turn>, i: nat, j: nat, k: Digest)
    requires History(w, u, states, turns) && i <= j < |states| && k in states[i].store && k in states[i].byDep
    ensures k in states[j].store && k in states[j].byDep
  {
    StoresGrow(w, u, states, turns, i, j);
  }

  lemma NotRootAt(w: World, u: set<string>, states: seq<State>, turns: seq<Turn>, m: nat, i: nat, id: PackageID, k: Digest)
    requires History(w, u, states, turns) && m < i < |states| && turns[m].reliable && k !in states[i].store
    ensures !RootUnder(w, turns[m].run, id, k)
  {
    KeysGrow(w, u, states, turns, m + 1, i);
    NotStoredNext(w, u, states, turns, m, id, k);
  }

  /** A root's key is stored from its run on. */
  lemma NotRootBefore(w: World, u: set<string>, states: seq<State>, turns: seq<Turn>, runs: seq<RunInput>, i: nat, id: PackageID, k: Digest)
    requires History(w, u, states, turns) && AllReliable(turns) && Performs(turns, runs) && i < |states| && k !in states[i].store
    ensures !RootBefore(w, runs, i, id, k)
  {
    forall m | 0 <= m < i && m < |runs|
      ensures !RootUnder(w, runs[m], id, k)
    {
      NotRootAt(w, u, states, turns, m, i, id, k);
    }
  }

  /** Only new roots are analysed. */
  lemma MissesAreNew(w: World, u: set<string>, states: seq<State>, turns: seq<Turn>, runs: seq<RunInput>, i: nat)
    requires History(w, u, states, turns) && AllReliable(turns) && Performs(turns, runs) && i < |turns|
    ensures Misses(w, turns[i]) <= NewRoots(w, runs, i)
  {
    TurnAt(w, u, states, turns, i);
    assert Complete(w, states[i], turns[i], states[i + 1]);
    forall id | id in Misses(w, turns[i])
      ensures id in NewRoots(w, runs, i)
    {
      if Key(w, runs[i], id).Some? {
        NotRootBefore(w, u, states, turns, runs, i, id, Key(w, runs[i], id).value);
      }
    }
  }

  lemma DepsMetGrow(w: World, run: RunInput, a: set<PackageID>, b: set<PackageID>, id: PackageID)
    requires a <= b <= Roots(w, run) && id in DepsMet(w, run, a)
    ensures id in DepsMet(w, run, b)
  {
  }

  lemma PoisonedAreHiddenReliably(w: World, u: set<string>, states: seq<State>, turns: seq<Turn>, runs: seq<RunInput>, j: nat, id: PackageID)
    requires CollisionFree(w.sha, u) && AnalyzerLocal(w)
    requires History(w, u, states, turns) && AllReliable(turns) && Performs(turns, runs) && j < |turns|
    requires id in Poisoned(w, turns[j].run, states[j], turns[j].hits) && Result(w, turns[j].run, id) != []
    ensures exists i :: HidesReliably(w, runs, i, j, id)
  {
    TurnAt(w, u, states, turns, j);
    var i := PoisonOrigin(w, u, states, turns, j, id);
    var k := Key(w, turns[j].run, id).value;
    MissesAreNew(w, u, states, turns, runs, i);
    DepsMetGrow(w, runs[i], Misses(w, turns[i]), NewRoots(w, runs, i), id);
    NotRootBefore(w, u, states, turns, runs, i, id, k);
    assert HidesReliably(w, runs, i, j, id);
  }

  lemma NothingHiddenReliably(w: World, u: set<string>, states: seq<State>, turns: seq<Turn>, runs: seq<RunInput>, j: nat)
    requires CollisionFree(w.sha, u) && AnalyzerLocal(w)
    requires History(w, u, states, turns) && AllReliable(turns) && Performs(turns, runs) && j < |turns|
    requires forall i, x :: !HidesReliably(w, runs, i, j, x)
    ensures turns[j].out == Uncached(w, runs[j])
  {
    forall id | id in Poisoned(w, turns[j].run, states[j], turns[j].hits)
      ensures Result(w, turns[j].run, id) == []
    {
      if Result(w, turns[j].run, id) != [] {
        PoisonedAreHiddenReliably(w, u, states, turns, runs, j, id);
      }
    }
    Transparent(w, u, states, turns, j);
  }

  // ---- every sequence of runs has a failure-free history ----

  ghost function StoredRoots(w: World, run: RunInput, s: State): set<PackageID>
  {
    set id | id in Roots(w, run) && Key(w, run, id).Some? && Key(w, run, id).value in s.store
  }

  ghost function KeysOf(w: World, run: RunInput, ids: set<PackageID>): set<Digest>
  {
    set id | id in ids && Key(w, run, id).Some? :: Key(w, run, id).value
  }

  ghost function ResultUnder(w: World, run: RunInput, k: Digest): seq<Diagnostic>
    requires exists id :: RootUnder(w, run, id, k)
  {
    var id :| RootUnder(w, run, id, k);
    Result(w, run, id)
  }

  /** The turn of a run that fails nowhere. */
  ghost function Perfect(w: World, run: RunInput, s: State, captured: set<PackageID>): Turn
  {
    var hits := StoredRoots(w, run, s);
    Turn(run, Gather(hits, HitFn(w, run, s)) + Gather(Roots(w, run) - hits, ResultFn(w, run)), hits, captured, true)
  }

  ghost function RootKeys(w: World, run: RunInput): set<Digest>
  {
    KeysOf(w, run, Roots(w, run))
  }

  ghost function DepKeys(w: World, turn: Turn): set<Digest>
  {
    KeysOf(w, turn.run, turn.captured * DepsMet(w, turn.run, Misses(w, turn)))
  }

  /** The store after it: entries for the roots, then for captured dependencies. */
  ghost function After(w: World, run: RunInput, s: State, captured: set<PackageID>): State
  {
    var deps := DepKeys(w, Perfect(w, run, s, captured));
    State(map k | k in s.store.Keys + RootKeys(w, run) + deps ::
            if k in s.store then s.store[k] else if k in RootKeys(w, run) then ResultOrNone(w, run, k) else [],
          s.byDep + (deps - RootKeys(w, run) - s.store.Keys))
  }

  ghost function ResultOrNone(w: World, run: RunInput, k: Digest): seq<Diagnostic>
  {
    if exists id :: RootUnder(w, run, id, k) then ResultUnder(w, run, k) else []
  }

  lemma RootKeyOwner(w: World, run: RunInput, k: Digest)
    requires k in RootKeys(w, run)
    ensures WrittenForRoot(w, run, k, ResultOrNone(w, run, k))
  {
    var id :| id in Roots(w, run) && Key(w, run, id).Some? && Key(w, run, id).value == k;
    assert RootUnder(w, run, id, k);
    var x :| RootUnder(w, run, x, k) && ResultUnder(w, run, k) == Result(w, run, x);
  }

  lemma DepKeyOwner(w: World, turn: Turn, k: Digest)
    requires k in DepKeys(w, turn)
    ensures WrittenForDep(w, turn, k)
  {
  }

  lemma PerfectEntries(w: World, run: RunInput, s: State, captured: set<PackageID>, turn: Turn, t: State)
    requires turn == Perfect(w, run, s, captured) && t == After(w, run, s, captured) && s.byDep <= s.store.Keys
    ensures Grows(s, t) && NewEntries(w, s, turn, t) && t.byDep <= t.store.Keys
  {
    forall k | k in t.store && k !in s.store
      ensures if k in t.byDep then t.store[k] == [] && WrittenForDep(w, turn, k) else WrittenForRoot(w, run, k, t.store[k])
    {
      if k in RootKeys(w, run) {
        RootKeyOwner(w, run, k);
      } else {
        DepKeyOwner(w, turn, k);
      }
    }
  }

  lemma PerfectComplete(w: World, run: RunInput, s: State, captured: set<PackageID>, turn: Turn, t: State)
    requires turn == Perfect(w, run, s, captured) && t == After(w, run, s, captured)
    ensures Complete(w, s, turn, t)
  {
    forall id | id in Roots(w, run) && Key(w, run, id).Some?
      ensures Key(w, run, id).value in t.store
    {
      assert Key(w, run, id).value in RootKeys(w, run);
    }
    forall id | id in captured && id in DepsMet(w, run, Misses(w, turn)) && Key(w, run, id).Some?
      ensures Key(w, run, id).value in t.store
    {
      assert Key(w, run, id).value in DepKeys(w, turn);
    }
  }

  lemma PerfectTurn(w: World, u: set<string>, run: RunInput, s: State, captured: set<PackageID>)
    requires Admissible(w, u, run) && s.byDep <= s.store.Keys
    ensures TurnTaken(w, u, s, Perfect(w, run, s, captured), After(w, run, s, captured))
    ensures After(w, run, s, captured).byDep <= After(w, run, s, captured).store.Keys
  {
    PerfectEntries(w, run, s, captured, Perfect(w, run, s, captured), After(w, run, s, captured));
    PerfectComplete(w, run, s, captured, Perfect(w, run, s, captured), After(w, run, s, captured));
  }

  lemma ReliableStep(w: World, u: set<string>, run: RunInput, s: State, captured: set<PackageID>) returns (turn: Turn, t: State)
    requires Admissible(w, u, run) && s.byDep <= s.store.Keys
    ensures TurnTaken(w, u, s, turn, t) && t.byDep <= t.store.Keys
    ensures turn.run == run && turn.captured == captured && turn.reliable
  {
    PerfectTurn(w, u, run, s, captured);
    turn, t := Perfect(w, run, s, captured), After(w, run, s, captured);
  }

  /** Only the given package is captured, and only in run i. */
  function Caught(i: nat, id: PackageID, n: nat): set<PackageID>
  {
    if n == i then {id} else {}
  }

  /** A failure-free history of the runs that captures just that. */
  ghost predicate Catches(w: World, u: set<string>, runs: seq<RunInput>, i: nat, id: PackageID, states: seq<State>, turns: seq<Turn>)
  {
    && History(w, u, states, turns) && Performs(turns, runs) && AllReliable(turns)
    && forall n :: 0 <= n < |turns| ==> turns[n].captured == Caught(i, id, n)
  }

  lemma CatchingHistory(w: World, u: set<string>, runs: seq<RunInput>, i: nat, id: PackageID) returns (states: seq<State>, turns: seq<Turn>)
    requires AllAdmissible(w, u, runs)
    ensures Catches(w, u, runs, i, id, states, turns)
  {
    states, turns := [EMPTY], [];
    for n := 0 to |runs|
      invariant |turns| == n && History(w, u, states, turns) && states[n].byDep <= states[n].store.Keys
      invariant forall m :: 0 <= m < n ==> turns[m].run == runs[m] && turns[m].reliable && turns[m].captured == Caught(i, id, m)
    {
      RunAdmissible(w, u, runs, n);
      var turn, t := ReliableStep(w, u, runs[n], states[n], Caught(i, id, n));
      HistoryGrows(w, u, states, turns, turn, t);
      states, turns := states + [t], turns + [turn];
    }
  }

  // ---- two runs that fail nowhere ----

  lemma NothingStored(w: World, turn: Turn)
    requires HitsStored(w, EMPTY, turn)
    ensures turn.hits == {} && Misses(w, turn) == Roots(w, turn.run)
  {
    assert forall id :: id !in turn.hits;
  }

  lemma LostPart(w: World, run: RunInput, poisoned: set<PackageID>, id: PackageID, out: multiset<Diagnostic>)
    requires id in poisoned && out + Gather(poisoned, ResultFn(w, run)) == Uncached(w, run)
    ensures out + multiset(Result(w, run, id)) <= Uncached(w, run)
  {
    GatherTake(poisoned, ResultFn(w, run), id);
    assert ResultFn(w, run)(id) == Result(w, run, id);
    assert out + multiset(Result(w, run, id)) + Gather(poisoned - {id}, ResultFn(w, run)) == Uncached(w, run);
  }

  /**
   * Whenever a package is captured as a mere dependency in a first run and is a
   * root under the same key in the next, the next run loses all its findings.
   */
  lemma DependencyEntryHidesFindings(w: World, u: set<string>, first: Turn, mid: State, second: Turn, last: State, id: PackageID)
    requires CollisionFree(w.sha, u) && AnalyzerLocal(w)
    requires TurnTaken(w, u, EMPTY, first, mid) && TurnTaken(w, u, mid, second, last) && first.reliable && second.reliable
    requires id in first.captured && id in DepsOnly(w, first.run) && id in Roots(w, second.run)
    requires Key(w, first.run, id).Some? && Key(w, first.run, id) == Key(w, second.run, id)
    ensures first.out == Uncached(w, first.run)
    ensures second.out + multiset(Result(w, second.run, id)) <= Uncached(w, second.run)
  {
    var k := Key(w, first.run, id).value;
    FirstRunReports(w, u, first, mid);
    CaughtStored(w, u, EMPTY, first, mid, id, k);
    PoisonedHit(w, u, mid, second, last, id, k);
    SecondRunLoses(w, u, first, mid, second, last, id);
  }

  lemma FirstRunReports(w: World, u: set<string>, first: Turn, mid: State)
    requires CollisionFree(w.sha, u) && AnalyzerLocal(w) && TurnTaken(w, u, EMPTY, first, mid)
    ensures first.out == Uncached(w, first.run) && Misses(w, first) == Roots(w, first.run)
  {
    NothingStored(w, first);
    SoundAtFirst(w, u);
    TransparentExactly(w, u, EMPTY, first);
  }

  lemma SecondRunLoses(w: World, u: set<string>, first: Turn, mid: State, second: Turn, last: State, id: PackageID)
    requires CollisionFree(w.sha, u) && AnalyzerLocal(w)
    requires TurnTaken(w, u, EMPTY, first, mid) && TurnTaken(w, u, mid, second, last)
    requires id in Poisoned(w, second.run, mid, second.hits)
    ensures second.out + multiset(Result(w, second.run, id)) <= Uncached(w, second.run)
  {
    SoundAtFirst(w, u);
    SoundTurn(w, u, EMPTY, first, mid);
    OutputAccount(w, u, mid, second);
    LostPart(w, second.run, Poisoned(w, second.run, mid, second.hits), id, second.out);
  }

  // ---- the losing history ----

  /** A run that captures nothing stores keys of roots only. */
  lemma NothingCaught(w: World, s: State, turn: Turn, t: State, k: Digest) returns (x: PackageID)
    requires NewEntries(w, s, turn, t) && turn.captured == {} && k in t.store && k !in s.store
    ensures RootUnder(w, turn.run, x, k)
  {
    assert !WrittenForDep(w, turn, k);
    x :| x in Roots(w, turn.run) && Key(w, turn.run, x) == Some(k) && t.store[k] == Result(w, turn.run, x);
  }

  /** Before run i, only roots have been stored. */
  lemma {:induction false} OnlyRootsBefore(w: World, u: set<string>, runs: seq<RunInput>, i: nat, id: PackageID,
                                           states: seq<State>, turns: seq<Turn>, n: nat, k: Digest) returns (m: nat, x: PackageID)
    requires Catches(w, u, runs, i, id, states, turns) && n <= i && n < |states| && k in states[n].store
    ensures m < n && RootUnder(w, runs[m], x, k)
  {
    assert n > 0;
    if k in states[n - 1].store {
      m, x := OnlyRootsBefore(w, u, runs, i, id, states, turns, n - 1, k);
    } else {
      m := n - 1;
      TurnAt(w, u, states, turns, m);
      x := NothingCaught(w, states[m], turns[m], states[n], k);
    }
  }

  /** A key that is stored before run i belongs to a package that was a root under it. */
  lemma StoredWasRoot(w: World, u: set<string>, runs: seq<RunInput>, i: nat, id: PackageID, states: seq<State>, turns: seq<Turn>, x: PackageID)
    requires CollisionFree(w.sha, u) && AnalyzerLocal(w) && AllAdmissible(w, u, runs)
    requires Catches(w, u, runs, i, id, states, turns) && i < |runs|
    requires Key(w, runs[i], x).Some? && Key(w, runs[i], x).value in states[i].store
    ensures RootBefore(w, runs, i, x, Key(w, runs[i], x).value)
  {
    var k := Key(w, runs[i], x).value;
    var m, y := OnlyRootsBefore(w, u, runs, i, id, states, turns, i, k);
    RunAdmissible(w, u, runs, m);
    RunAdmissible(w, u, runs, i);
    SameKeySameResult(w, u, runs[m], runs[i], y, x);
  }

  lemma NewRootsMissed(w: World, u: set<string>, runs: seq<RunInput>, i: nat, id: PackageID, states: seq<State>, turns: seq<Turn>)
    requires CollisionFree(w.sha, u) && AnalyzerLocal(w) && AllAdmissible(w, u, runs)
    requires Catches(w, u, runs, i, id, states, turns) && i < |runs|
    ensures NewRoots(w, runs, i) <= Misses(w, turns[i]) <= Roots(w, runs[i])
  {
    TurnAt(w, u, states, turns, i);
    forall x | x in NewRoots(w, runs, i)
      ensures x in Misses(w, turns[i])
    {
      if x in turns[i].hits {
        StoredWasRoot(w, u, runs, i, id, states, turns, x);
      }
    }
  }

  /** A captured dependency of what is analysed gets an empty entry. */
  lemma CaughtStored(w: World, u: set<string>, s: State, turn: Turn, t: State, id: PackageID, k: Digest)
    requires CollisionFree(w.sha, u) && AnalyzerLocal(w) && TurnTaken(w, u, s, turn, t) && turn.reliable
    requires id in turn.captured && id in DepsMet(w, turn.run, Misses(w, turn)) && Key(w, turn.run, id) == Some(k)
    requires k !in s.store
    ensures k in t.store && k in t.byDep
  {
    assert Complete(w, s, turn, t);
    if k !in t.byDep {
      var x :| x in Roots(w, turn.run) && Key(w, turn.run, x) == Some(k) && t.store[k] == Result(w, turn.run, x);
      SameKeySameResult(w, u, turn.run, turn.run, x, id);
    }
  }

  lemma DepStored(w: World, u: set<string>, runs: seq<RunInput>, i: nat, j: nat, id: PackageID, states: seq<State>, turns: seq<Turn>, k: Digest)
    requires CollisionFree(w.sha, u) && AnalyzerLocal(w) && AllAdmissible(w, u, runs)
    requires Catches(w, u, runs, i, id, states, turns) && HidesReliably(w, runs, i, j, id) && Key(w, runs[i], id) == Some(k)
    ensures k in states[i + 1].store && k in states[i + 1].byDep
  {
    if k in states[i].store {
      StoredWasRoot(w, u, runs, i, id, states, turns, id);
    }
    NewRootsMissed(w, u, runs, i, id, states, turns);
    DepsMetGrow(w, runs[i], NewRoots(w, runs, i), Misses(w, turns[i]), id);
    TurnAt(w, u, states, turns, i);
    CaughtStored(w, u, states[i], turns[i], states[i + 1], id, k);
  }

  /** Without failures, a root whose key is stored is a hit. */
  lemma PoisonedHit(w: World, u: set<string>, s: State, turn: Turn, t: State, id: PackageID, k: Digest)
    requires TurnTaken(w, u, s, turn, t) && turn.reliable && RootUnder(w, turn.run, id, k) && k in s.store && k in s.byDep
    ensures id in Poisoned(w, turn.run, s, turn.hits)
  {
    assert Complete(w, s, turn, t);
  }

  lemma PoisonedAt(w: World, u: set<string>, states: seq<State>, turns: seq<Turn>, j: nat, id: PackageID, k: Digest)
    requires History(w, u, states, turns) && j < |turns| && turns[j].reliable && RootUnder(w, turns[j].run, id, k)
    requires k in states[j].store && k in states[j].byDep
    ensures id in Poisoned(w, turns[j].run, states[j], turns[j].hits)
  {
    TurnAt(w, u, states, turns, j);
    PoisonedHit(w, u, states[j], turns[j], states[j + 1], id, k);
  }

  /** An empty entry that was there before answers for its root. */
  lemma PoisonedLater(w: World, u: set<string>, states: seq<State>, turns: seq<Turn>, i: nat, j: nat, id: PackageID, k: Digest)
    requires History(w, u, states, turns) && i < j < |turns| && turns[j].reliable && RootUnder(w, turns[j].run, id, k)
    requires k in states[i + 1].store && k in states[i + 1].byDep
    ensures id in Poisoned(w, turns[j].run, states[j], turns[j].hits)
  {
    StaysByDep(w, u, states, turns, i + 1, j, k);
    PoisonedAt(w, u, states, turns, j, id, k);
  }

  lemma LossAt(w: World, u: set<string>, runs: seq<RunInput>, i: nat, j: nat, id: PackageID, states: seq<State>, turns: seq<Turn>)
    requires CollisionFree(w.sha, u) && AnalyzerLocal(w) && AllAdmissible(w, u, runs)
    requires Catches(w, u, runs, i, id, states, turns) && HidesReliably(w, runs, i, j, id)
    ensures turns[j].out != Uncached(w, runs[j])
  {
    var k := Key(w, runs[i], id).value;
    DepStored(w, u, runs, i, j, id, states, turns, k);
    PoisonedLater(w, u, states, turns, i, j, id, k);
    PoisonedLoses(w, u, states, turns, j, id);
  }

  lemma HiddenReliablyIsVisible(w: World, u: set<string>, runs: seq<RunInput>, i: nat, j: nat, id: PackageID)
    requires CollisionFree(w.sha, u) && AnalyzerLocal(w) && AllAdmissible(w, u, runs)
    requires HidesReliably(w, runs, i, j, id)
    ensures !ReliablyInvisible(w, u, runs)
  {
    var states, turns := CatchingHistory(w, u, runs, i, id);
    LossAt(w, u, runs, i, j, id, states, turns);
  }

  /**
   * The exact condition when nothing fails: a sequence of runs and edits is
   * reported as without the cache, whatever is captured, if and only if no root
   * with findings has a key that was first met where the package was only a
   * dependency of roots not seen before under their keys.
   */
  lemma ReliablyInvisibleExactly(w: World, u: set<string>, runs: seq<RunInput>)
    requires CollisionFree(w.sha, u) && AnalyzerLocal(w) && AllAdmissible(w, u, runs)
    ensures ReliablyInvisible(w, u, runs) <==> forall i, j, id :: !HidesReliably(w, runs, i, j, id)
  {
    if i: nat, j: nat, id :| HidesReliably(w, runs, i, j, id) {
      HiddenReliablyIsVisible(w, u, runs, i, j, id);
    } else {
      forall states, turns: seq<Turn>, j | History(w, u, states, turns) && Performs(turns, runs) && AllReliable(turns) && 0 <= j < |runs|
        ensures turns[j].out == Uncached(w, runs[j])
      {
        NothingHiddenReliably(w, u, states, turns, runs, j);
      }
    }
  }
}
