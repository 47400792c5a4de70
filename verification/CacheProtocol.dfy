// The L0 protocol as a state machine: runs, separated by arbitrary edits of
// sources, graph, configuration and versions, sharing one first-writer-wins store.

module CacheProtocol {
  import opened Strings
  import opened Framing
  import opened DepClosure
  import opened Diagnostics
  import opened Gathering
  import opened RunModel

  /** The store, and which of its keys were first written by the dependency writer. */
  datatype State = State(store: map<Digest, seq<Diagnostic>>, byDep: set<Digest>)

  const EMPTY := State(map[], {})

  /**
   * What happened in one run: what it reported, which roots were served from the
   * store, which packages the analysis callback captured, and whether every read
   * and write of the store succeeded.
   */
  datatype Turn = Turn(run: RunInput, out: multiset<Diagnostic>, hits: set<PackageID>, captured: set<PackageID>, reliable: bool)

  /** What a hit on id is served. */
  ghost function HitFn(w: World, run: RunInput, s: State): PackageID -> seq<Diagnostic>
  {
    (id: PackageID) =>
      var k := Key(w, run, id);
      if k.Some? && k.value in s.store then s.store[k.value] else []
  }

  /** k was added for an analysed root, with that root's result. */
  ghost predicate WrittenForRoot(w: World, run: RunInput, k: Digest, ds: seq<Diagnostic>)
  {
    exists id :: id in Roots(w, run) && Key(w, run, id) == Some(k) && ds == Result(w, run, id)
  }

  /** The packages a run meets only as dependencies of the given roots. */
  ghost function DepsMet(w: World, run: RunInput, misses: set<PackageID>): set<PackageID>
  {
    DepsOf(run.env.snap.graph, misses) - Roots(w, run)
  }

  ghost function DepsOnly(w: World, run: RunInput): set<PackageID>
  {
    DepsMet(w, run, Roots(w, run))
  }

  ghost function Misses(w: World, turn: Turn): set<PackageID>
  {
    Roots(w, turn.run) - turn.hits
  }

  /** k was added for a captured package that the run meets only as a dependency of what it analyses. */
  ghost predicate WrittenForDep(w: World, turn: Turn, k: Digest)
  {
    exists id :: id in turn.captured && id in DepsMet(w, turn.run, Misses(w, turn)) && Key(w, turn.run, id) == Some(k)
  }

  // ---- one run ----

  /** Hits are roots whose key is stored. */
  ghost predicate HitsStored(w: World, s: State, turn: Turn)
  {
    && turn.hits <= Roots(w, turn.run)
    && forall id :: id in turn.hits ==> Key(w, turn.run, id).Some? && Key(w, turn.run, id).value in s.store
  }

  /** Hits are served from the store, the other roots are analysed. */
  ghost predicate Reports(w: World, s: State, turn: Turn)
  {
    turn.out == Gather(turn.hits, HitFn(w, turn.run, s)) + Gather(Misses(w, turn), ResultFn(w, turn.run))
  }

  /** The first writer of a key wins. */
  ghost predicate Grows(s: State, t: State)
  {
    forall k :: k in s.store ==> k in t.store && t.store[k] == s.store[k] && (k in t.byDep <==> k in s.byDep)
  }

  ghost predicate NewEntries(w: World, s: State, turn: Turn, t: State)
  {
    forall k :: k in t.store && k !in s.store ==>
      if k in t.byDep then t.store[k] == [] && WrittenForDep(w, turn, k)
      else WrittenForRoot(w, turn.run, k, t.store[k])
  }

  /** Nothing that could be read or written was missed. */
  ghost predicate Complete(w: World, s: State, turn: Turn, t: State)
  {
    && (forall id :: id in Roots(w, turn.run) && Key(w, turn.run, id).Some? ==>
          Key(w, turn.run, id).value in t.store && (Key(w, turn.run, id).value in s.store ==> id in turn.hits))
    && (forall id :: id in turn.captured && id in DepsMet(w, turn.run, Misses(w, turn)) && Key(w, turn.run, id).Some? ==>
          Key(w, turn.run, id).value in t.store)
  }

  /** One run takes the store from s to t. */
  ghost predicate RunStep(w: World, s: State, turn: Turn, t: State)
  {
    && HitsStored(w, s, turn) && Reports(w, s, turn)
    && Grows(s, t) && NewEntries(w, s, turn, t)
    && (turn.reliable ==> Complete(w, s, turn, t))
  }

  // ---- the invariant ----

  /** The result of some admissible run for the package with this key. */
  ghost predicate Justified(w: World, u: set<string>, k: Digest, ds: seq<Diagnostic>)
  {
    exists run, id :: Admissible(w, u, run) && id in Roots(w, run) && Key(w, run, id) == Some(k) && ds == Result(w, run, id)
  }

  ghost predicate SoundEntry(w: World, u: set<string>, s: State, k: Digest)
    requires k in s.store
  {
    if k in s.byDep then s.store[k] == [] else Justified(w, u, k, s.store[k])
  }

  /** Every entry is either an empty dependency entry or a package's true result. */
  ghost predicate Sound(w: World, u: set<string>, s: State)
  {
    forall k :: k in s.store ==> SoundEntry(w, u, s, k)
  }

  lemma RootEntryJustified(w: World, u: set<string>, run: RunInput, k: Digest, ds: seq<Diagnostic>)
    requires Admissible(w, u, run) && WrittenForRoot(w, run, k, ds)
    ensures Justified(w, u, k, ds)
  {
    var id :| id in Roots(w, run) && Key(w, run, id) == Some(k) && ds == Result(w, run, id);
    assert Admissible(w, u, run) && id in Roots(w, run);
  }

  lemma NewEntrySound(w: World, u: set<string>, s: State, turn: Turn, t: State, k: Digest)
    requires Admissible(w, u, turn.run) && NewEntries(w, s, turn, t) && k in t.store && k !in s.store
    ensures SoundEntry(w, u, t, k)
  {
    if k !in t.byDep {
      RootEntryJustified(w, u, turn.run, k, t.store[k]);
    }
  }

  lemma SoundKept(w: World, u: set<string>, s: State, turn: Turn, t: State)
    requires Admissible(w, u, turn.run) && Sound(w, u, s) && Grows(s, t) && NewEntries(w, s, turn, t)
    ensures Sound(w, u, t)
  {
    forall k | k in t.store
      ensures SoundEntry(w, u, t, k)
    {
      if k in s.store {
        assert SoundEntry(w, u, s, k);
      } else {
        NewEntrySound(w, u, s, turn, t, k);
      }
    }
  }

  /** The hits of a run that are answered by a dependency entry. */
  ghost function Poisoned(w: World, run: RunInput, s: State, hits: set<PackageID>): set<PackageID>
  {
    set id | id in hits && Key(w, run, id).Some? && Key(w, run, id).value in s.byDep
  }

  /** A hit answered by a root entry is served its own result. */
  lemma HitServesResult(w: World, u: set<string>, run: RunInput, s: State, id: PackageID)
    requires CollisionFree(w.sha, u) && AnalyzerLocal(w) && Admissible(w, u, run) && Sound(w, u, s)
    requires id in Roots(w, run) && Key(w, run, id).Some? && Key(w, run, id).value in s.store
    requires Key(w, run, id).value !in s.byDep
    ensures HitFn(w, run, s)(id) == Result(w, run, id)
  {
    var k := Key(w, run, id).value;
    assert SoundEntry(w, u, s, k);
    var r, x :| Admissible(w, u, r) && x in Roots(w, r) && Key(w, r, x) == Some(k) && s.store[k] == Result(w, r, x);
    SameKeySameResult(w, u, r, run, x, id);
  }

  lemma GoodHits(w: World, u: set<string>, s: State, turn: Turn, good: set<PackageID>)
    requires CollisionFree(w.sha, u) && AnalyzerLocal(w) && Admissible(w, u, turn.run) && Sound(w, u, s)
    requires HitsStored(w, s, turn) && good == turn.hits - Poisoned(w, turn.run, s, turn.hits)
    ensures Gather(good, HitFn(w, turn.run, s)) == Gather(good, ResultFn(w, turn.run))
  {
    forall id | id in good
      ensures multiset(HitFn(w, turn.run, s)(id)) == multiset(ResultFn(w, turn.run)(id))
    {
      HitServesResult(w, u, turn.run, s, id);
    }
    GatherSame(good, HitFn(w, turn.run, s), ResultFn(w, turn.run));
  }

  lemma PoisonedHitEmpty(w: World, u: set<string>, run: RunInput, s: State, hits: set<PackageID>, id: PackageID)
    requires Sound(w, u, s) && id in Poisoned(w, run, s, hits)
    ensures HitFn(w, run, s)(id) == []
  {
    var k := Key(w, run, id).value;
    if k in s.store {
      assert SoundEntry(w, u, s, k);
    }
  }

  lemma BadHits(w: World, u: set<string>, run: RunInput, s: State, hits: set<PackageID>)
    requires Sound(w, u, s)
    ensures Gather(Poisoned(w, run, s, hits), HitFn(w, run, s)) == multiset{}
  {
    forall id | id in Poisoned(w, run, s, hits)
      ensures HitFn(w, run, s)(id) == []
    {
      PoisonedHitEmpty(w, u, run, s, hits, id);
    }
    GatherEmpty(Poisoned(w, run, s, hits), HitFn(w, run, s));
  }

  /** A run's output, plus what dependency entries hid, is the uncached output. */
  lemma OutputAccount(w: World, u: set<string>, s: State, turn: Turn)
    requires CollisionFree(w.sha, u) && AnalyzerLocal(w) && Admissible(w, u, turn.run) && Sound(w, u, s)
    requires HitsStored(w, s, turn) && Reports(w, s, turn)
    ensures turn.out + Gather(Poisoned(w, turn.run, s, turn.hits), ResultFn(w, turn.run)) == Uncached(w, turn.run)
  {
    var bad := Poisoned(w, turn.run, s, turn.hits);
    GoodHits(w, u, s, turn, turn.hits - bad);
    BadHits(w, u, turn.run, s, turn.hits);
    Account(Roots(w, turn.run), turn.hits, bad, HitFn(w, turn.run, s), ResultFn(w, turn.run));
  }

  /** The sum over the roots, taken apart into misses, true hits and empty hits. */
  lemma Account(roots: set<PackageID>, hits: set<PackageID>, bad: set<PackageID>,
                served: PackageID -> seq<Diagnostic>, result: PackageID -> seq<Diagnostic>)
    requires bad <= hits <= roots
    requires Gather(hits - bad, served) == Gather(hits - bad, result) && Gather(bad, served) == multiset{}
    ensures Gather(hits, served) + Gather(roots - hits, result) + Gather(bad, result) == Gather(roots, result)
  {
    assert hits == (hits - bad) + bad && roots == (roots - hits) + hits;
    GatherUnion(hits - bad, bad, served);
    GatherUnion(hits - bad, bad, result);
    GatherUnion(roots - hits, hits, result);
  }

  /**
   * Cache transparency, exactly: a run equals its uncached self if and only if
   * every hit answered by a dependency entry belongs to a package without findings.
   */
  lemma TransparentExactly(w: World, u: set<string>, s: State, turn: Turn)
    requires CollisionFree(w.sha, u) && AnalyzerLocal(w) && Admissible(w, u, turn.run) && Sound(w, u, s)
    requires HitsStored(w, s, turn) && Reports(w, s, turn)
    ensures turn.out == Uncached(w, turn.run) <==>
            forall id :: id in Poisoned(w, turn.run, s, turn.hits) ==> Result(w, turn.run, id) == []
  {
    var bad := Poisoned(w, turn.run, s, turn.hits);
    OutputAccount(w, u, s, turn);
    GatherEmpty(bad, ResultFn(w, turn.run));
    SumUnchanged(turn.out, Gather(bad, ResultFn(w, turn.run)));
    assert forall id :: ResultFn(w, turn.run)(id) == Result(w, turn.run, id);
  }

  lemma SumUnchanged(a: multiset<Diagnostic>, b: multiset<Diagnostic>)
    ensures a == a + b <==> b == multiset{}
  {
    assert |a + b| == |a| + |b|;
  }

  // ---- histories ----

  /** One admissible run takes the store from s to t. */
  ghost predicate TurnTaken(w: World, u: set<string>, s: State, turn: Turn, t: State)
  {
    Admissible(w, u, turn.run) && RunStep(w, s, turn, t)
  }

  ghost predicate TakenAt(w: World, u: set<string>, states: seq<State>, turns: seq<Turn>, i: nat)
    requires i < |turns| && |states| == |turns| + 1
  {
    TurnTaken(w, u, states[i], turns[i], states[i + 1])
  }

  /** states[i] is the store before turns[i]; the first store is empty. */
  ghost predicate History(w: World, u: set<string>, states: seq<State>, turns: seq<Turn>)
  {
    && |states| == |turns| + 1 && states[0] == EMPTY
    && forall i :: 0 <= i < |turns| ==> TakenAt(w, u, states, turns, i)
  }

  lemma TurnAt(w: World, u: set<string>, states: seq<State>, turns: seq<Turn>, i: nat)
    requires History(w, u, states, turns) && i < |turns|
    ensures TurnTaken(w, u, states[i], turns[i], states[i + 1])
  {
    assert TakenAt(w, u, states, turns, i);
  }

  lemma SoundTurn(w: World, u: set<string>, s: State, turn: Turn, t: State)
    requires TurnTaken(w, u, s, turn, t) && Sound(w, u, s)
    ensures Sound(w, u, t)
  {
    SoundKept(w, u, s, turn, t);
  }

  lemma SoundNext(w: World, u: set<string>, states: seq<State>, turns: seq<Turn>, i: nat)
    requires History(w, u, states, turns) && i < |turns| && Sound(w, u, states[i])
    ensures Sound(w, u, states[i + 1])
  {
    TurnAt(w, u, states, turns, i);
    SoundTurn(w, u, states[i], turns[i], states[i + 1]);
  }

  lemma SoundAtFirst(w: World, u: set<string>)
    ensures Sound(w, u, EMPTY)
  {
  }

  lemma {:induction false} SoundThroughout(w: World, u: set<string>, states: seq<State>, turns: seq<Turn>, i: nat)
    requires History(w, u, states, turns) && i < |states|
    ensures Sound(w, u, states[i])
  {
    if i == 0 {
      SoundAtFirst(w, u);
    } else {
      SoundThroughout(w, u, states, turns, i - 1);
      SoundNext(w, u, states, turns, i - 1);
    }
  }

  /** A dependency entry that was not there before the run was written by it. */
  lemma NewDepEntry(w: World, s: State, turn: Turn, t: State, k: Digest)
    requires Grows(s, t) && NewEntries(w, s, turn, t) && k in t.store && k in t.byDep
    ensures if k in s.store then k in s.byDep else WrittenForDep(w, turn, k)
  {
  }

  /** A dependency entry goes back to the run that first stored its key. */
  lemma {:induction false} DepEntryOrigin(w: World, u: set<string>, states: seq<State>, turns: seq<Turn>, i: nat, k: Digest) returns (j: nat)
    requires History(w, u, states, turns) && i < |states| && k in states[i].store && k in states[i].byDep
    ensures j < i && k !in states[j].store && WrittenForDep(w, turns[j], k)
  {
    assert i > 0;
    j := i - 1;
    TurnAt(w, u, states, turns, j);
    NewDepEntry(w, states[j], turns[j], states[i], k);
    if k in states[j].store {
      j := DepEntryOrigin(w, u, states, turns, j, k);
    }
  }

  lemma DepsMetAreDeps(w: World, run: RunInput, misses: set<PackageID>, id: PackageID)
    requires misses <= Roots(w, run) && id in DepsMet(w, run, misses)
    ensures id in DepsOnly(w, run)
  {
  }

  /** A dependency entry under the key of id was written for id itself. */
  lemma OriginIsSelf(w: World, u: set<string>, turn: Turn, t: RunInput, k: Digest, id: PackageID)
    requires CollisionFree(w.sha, u) && AnalyzerLocal(w) && Admissible(w, u, turn.run) && Admissible(w, u, t)
    requires WrittenForDep(w, turn, k) && Key(w, t, id) == Some(k)
    ensures id in turn.captured && id in DepsMet(w, turn.run, Misses(w, turn)) && Key(w, turn.run, id) == Some(k)
  {
    var x :| x in turn.captured && x in DepsMet(w, turn.run, Misses(w, turn)) && Key(w, turn.run, x) == Some(k);
    SameKeySameResult(w, u, turn.run, t, x, id);
  }

  /** Where a hit answered by a dependency entry comes from. */
  lemma PoisonOrigin(w: World, u: set<string>, states: seq<State>, turns: seq<Turn>, j: nat, id: PackageID) returns (i: nat)
    requires CollisionFree(w.sha, u) && AnalyzerLocal(w)
    requires History(w, u, states, turns) && j < |turns| && id in Poisoned(w, turns[j].run, states[j], turns[j].hits)
    ensures i < j && Key(w, turns[j].run, id).Some? && Key(w, turns[i].run, id) == Key(w, turns[j].run, id)
    ensures Key(w, turns[j].run, id).value !in states[i].store
    ensures id in turns[i].captured && id in DepsMet(w, turns[i].run, Misses(w, turns[i]))
  {
    var k := Key(w, turns[j].run, id).value;
    TurnAt(w, u, states, turns, j);
    i := DepEntryOrigin(w, u, states, turns, j, k);
    TurnAt(w, u, states, turns, i);
    OriginIsSelf(w, u, turns[i], turns[j].run, k, id);
  }

  lemma Transparent(w: World, u: set<string>, states: seq<State>, turns: seq<Turn>, i: nat)
    requires CollisionFree(w.sha, u) && AnalyzerLocal(w) && History(w, u, states, turns) && i < |turns|
    ensures turns[i].out == Uncached(w, turns[i].run) <==>
            forall id :: id in Poisoned(w, turns[i].run, states[i], turns[i].hits) ==> Result(w, turns[i].run, id) == []
  {
    SoundThroughout(w, u, states, turns, i);
    TurnAt(w, u, states, turns, i);
    TransparentExactly(w, u, states[i], turns[i]);
  }

  /** A package that is a root under some key was a root whenever it had that key. */
  ghost predicate StableRoots(w: World, turns: seq<Turn>)
  {
    forall i, j, id :: 0 <= i < j < |turns| && id in Roots(w, turns[j].run)
      && Key(w, turns[i].run, id).Some? && Key(w, turns[i].run, id) == Key(w, turns[j].run, id)
      ==> id in Roots(w, turns[i].run)
  }

  /** With stable roots no dependency entry ever answers for a root. */
  lemma StableRootsUnpoisoned(w: World, u: set<string>, states: seq<State>, turns: seq<Turn>, i: nat)
    requires CollisionFree(w.sha, u) && AnalyzerLocal(w)
    requires History(w, u, states, turns) && i < |turns| && StableRoots(w, turns)
    ensures Poisoned(w, turns[i].run, states[i], turns[i].hits) == {}
  {
    TurnAt(w, u, states, turns, i);
    forall id | id in Poisoned(w, turns[i].run, states[i], turns[i].hits)
      ensures false
    {
      var j := PoisonOrigin(w, u, states, turns, i, id);
    }
  }

  /**
   * Over every history of runs and edits from an empty store in which root sets
   * are stable, every run reports exactly what it would have reported with the
   * cache disabled.
   */
  lemma CacheIsInvisible(w: World, u: set<string>, states: seq<State>, turns: seq<Turn>, i: nat)
    requires CollisionFree(w.sha, u) && AnalyzerLocal(w)
    requires History(w, u, states, turns) && i < |turns| && StableRoots(w, turns)
    ensures turns[i].out == Uncached(w, turns[i].run)
  {
    StableRootsUnpoisoned(w, u, states, turns, i);
    Transparent(w, u, states, turns, i);
  }

  /** After a reliable run, the same run again analyses nothing that has a key. */
  lemma WarmRunAnalysesNothing(w: World, s: State, a: Turn, t: State, b: Turn, v: State)
    requires RunStep(w, s, a, t) && RunStep(w, t, b, v) && a.reliable && b.reliable && a.run == b.run
    ensures forall id :: id in Misses(w, b) ==> Key(w, b.run, id).None?
  {
  }

  // ---- exactly which sequences of runs are safe when anything may fail ----

  /** The history consists of these runs, in this order. */
  ghost predicate Performs(turns: seq<Turn>, runs: seq<RunInput>)
  {
    |turns| == |runs| && forall i :: 0 <= i < |runs| ==> turns[i].run == runs[i]
  }

  ghost predicate AdmissibleAt(w: World, u: set<string>, runs: seq<RunInput>, n: nat)
    requires n < |runs|
  {
    Admissible(w, u, runs[n])
  }

  ghost predicate AllAdmissible(w: World, u: set<string>, runs: seq<RunInput>)
  {
    forall n :: 0 <= n < |runs| ==> AdmissibleAt(w, u, runs, n)
  }

  lemma RunAdmissible(w: World, u: set<string>, runs: seq<RunInput>, n: nat)
    requires AllAdmissible(w, u, runs) && n < |runs|
    ensures Admissible(w, u, runs[n])
  {
    assert AdmissibleAt(w, u, runs, n);
  }

  /** Whatever fails and whatever is captured, every run reports its uncached result. */
  ghost predicate AlwaysInvisible(w: World, u: set<string>, runs: seq<RunInput>)
  {
    forall states, turns: seq<Turn>, i | History(w, u, states, turns) && Performs(turns, runs) && 0 <= i < |runs| ::
      turns[i].out == Uncached(w, runs[i])
  }

  /** In run j the root id has findings and a key it had before as a mere dependency in run i. */
  ghost predicate Hides(w: World, runs: seq<RunInput>, i: nat, j: nat, id: PackageID)
  {
    && i < j < |runs| && id in DepsOnly(w, runs[i]) && id in Roots(w, runs[j])
    && Key(w, runs[i], id).Some? && Key(w, runs[i], id) == Key(w, runs[j], id) && Result(w, runs[j], id) != []
  }

  lemma PoisonedAreHidden(w: World, u: set<string>, states: seq<State>, turns: seq<Turn>, runs: seq<RunInput>, j: nat, id: PackageID)
    requires CollisionFree(w.sha, u) && AnalyzerLocal(w)
    requires History(w, u, states, turns) && Performs(turns, runs) && j < |turns|
    requires id in Poisoned(w, turns[j].run, states[j], turns[j].hits) && Result(w, turns[j].run, id) != []
    ensures exists i :: Hides(w, runs, i, j, id)
  {
    TurnAt(w, u, states, turns, j);
    var i := PoisonOrigin(w, u, states, turns, j, id);
    TurnAt(w, u, states, turns, i);
    DepsMetAreDeps(w, turns[i].run, Misses(w, turns[i]), id);
    assert Hides(w, runs, i, j, id);
  }

  lemma NothingHiddenInvisible(w: World, u: set<string>, states: seq<State>, turns: seq<Turn>, runs: seq<RunInput>, j: nat)
    requires CollisionFree(w.sha, u) && AnalyzerLocal(w)
    requires History(w, u, states, turns) && Performs(turns, runs) && j < |turns|
    requires forall i, x :: !Hides(w, runs, i, j, x)
    ensures turns[j].out == Uncached(w, runs[j])
  {
    forall id | id in Poisoned(w, turns[j].run, states[j], turns[j].hits)
      ensures Result(w, turns[j].run, id) == []
    {
      if Result(w, turns[j].run, id) != [] {
        PoisonedAreHidden(w, u, states, turns, runs, j, id);
      }
    }
    Transparent(w, u, states, turns, j);
  }

  ghost function AfterDepWrite(k: Digest): State { State(map[k := []], {k}) }

  /** The output of a run in which exactly id is a hit. */
  ghost function OneHit(w: World, run: RunInput, s: State, id: PackageID): multiset<Diagnostic>
  {
    Gather({id}, HitFn(w, run, s)) + Gather(Roots(w, run) - {id}, ResultFn(w, run))
  }

  ghost function Idle(w: World, run: RunInput, captured: set<PackageID>): Turn
  {
    Turn(run, Uncached(w, run), {}, captured, false)
  }

  /** A run that can read nothing reports its uncached result. */
  lemma IdleReports(w: World, run: RunInput, s: State, captured: set<PackageID>)
    ensures HitsStored(w, s, Idle(w, run, captured)) && Reports(w, s, Idle(w, run, captured))
    ensures Misses(w, Idle(w, run, captured)) == Roots(w, run)
  {
    assert Roots(w, run) - {} == Roots(w, run);
    assert Gather({}, HitFn(w, run, s)) == multiset{};
  }

  lemma IdleTurn(w: World, u: set<string>, run: RunInput, s: State)
    requires Admissible(w, u, run)
    ensures TurnTaken(w, u, s, Idle(w, run, {}), s)
  {
    IdleReports(w, run, s, {});
  }

  /** A run in which id is only a dependency may leave just id's empty entry behind. */
  lemma DepTurn(w: World, u: set<string>, run: RunInput, id: PackageID)
    requires Admissible(w, u, run) && id in DepsOnly(w, run) && Key(w, run, id).Some?
    ensures TurnTaken(w, u, EMPTY, Idle(w, run, {id}), AfterDepWrite(Key(w, run, id).value))
  {
    IdleReports(w, run, EMPTY, {id});
    assert WrittenForDep(w, Idle(w, run, {id}), Key(w, run, id).value);
  }

  lemma HitTurn(w: World, u: set<string>, run: RunInput, s: State, id: PackageID)
    requires Admissible(w, u, run) && id in Roots(w, run) && Key(w, run, id).Some? && Key(w, run, id).value in s.store
    ensures TurnTaken(w, u, s, Turn(run, OneHit(w, run, s, id), {id}, {}, false), s)
  {
  }

  lemma TakenStays(w: World, u: set<string>, states: seq<State>, turns: seq<Turn>, turn: Turn, t: State, i: nat)
    requires History(w, u, states, turns) && TurnTaken(w, u, states[|turns|], turn, t) && i <= |turns|
    ensures TakenAt(w, u, states + [t], turns + [turn], i)
  {
    if i < |turns| {
      TurnAt(w, u, states, turns, i);
    }
  }

  lemma HistoryGrows(w: World, u: set<string>, states: seq<State>, turns: seq<Turn>, turn: Turn, t: State)
    requires History(w, u, states, turns) && TurnTaken(w, u, states[|turns|], turn, t)
    ensures History(w, u, states + [t], turns + [turn])
  {
    var more, longer := states + [t], turns + [turn];
    forall i | 0 <= i < |longer|
      ensures TakenAt(w, u, more, longer, i)
    {
      TakenStays(w, u, states, turns, turn, t, i);
    }
  }

  /** Turn n of the losing history: idle, but for writing one dependency entry in turn i and hitting it in turn j. */
  lemma LosingTurn(w: World, u: set<string>, run: RunInput, first: bool, second: bool, id: PackageID, k: Digest, s: State)
      returns (turn: Turn, t: State)
    requires Admissible(w, u, run)
    requires first ==> s == EMPTY && id in DepsOnly(w, run) && Key(w, run, id) == Some(k)
    requires second ==> id in Roots(w, run) && Key(w, run, id) == Some(k) && k in s.store
    ensures TurnTaken(w, u, s, turn, t) && turn.run == run
    ensures t == if first then AfterDepWrite(k) else s
    ensures second && !first ==> id in turn.hits
  {
    if first {
      DepTurn(w, u, run, id);
      turn, t := Idle(w, run, {id}), AfterDepWrite(k);
    } else if second {
      HitTurn(w, u, run, s, id);
      turn, t := Turn(run, OneHit(w, run, s, id), {id}, {}, false), s;
    } else {
      IdleTurn(w, u, run, s);
      turn, t := Idle(w, run, {}), s;
    }
  }

  lemma LosingStep(w: World, u: set<string>, runs: seq<RunInput>, i: nat, j: nat, id: PackageID, k: Digest,
                   states: seq<State>, turns: seq<Turn>) returns (turn: Turn, t: State)
    requires AllAdmissible(w, u, runs) && Hides(w, runs, i, j, id) && Key(w, runs[i], id) == Some(k)
    requires History(w, u, states, turns) && |turns| < |runs| && states[|turns|] == if |turns| <= i then EMPTY else AfterDepWrite(k)
    ensures History(w, u, states + [t], turns + [turn])
    ensures turn.run == runs[|turns|] && (|turns| == j ==> id in turn.hits)
    ensures t == if |turns| < i then EMPTY else AfterDepWrite(k)
  {
    var n := |turns|;
    RunAdmissible(w, u, runs, n);
    turn, t := LosingTurn(w, u, runs[n], n == i, n == j, id, k, states[n]);
    HistoryGrows(w, u, states, turns, turn, t);
  }

  /** turns begins the runs, and id is a hit in turn j once that is reached. */
  ghost predicate Begins(runs: seq<RunInput>, turns: seq<Turn>, j: nat, id: PackageID)
  {
    |turns| <= |runs| && forall m :: 0 <= m < |turns| ==> turns[m].run == runs[m] && (m == j ==> id in turns[m].hits)
  }

  lemma BeginsGrows(runs: seq<RunInput>, turns: seq<Turn>, j: nat, id: PackageID, turn: Turn)
    requires Begins(runs, turns, j, id) && |turns| < |runs|
    requires turn.run == runs[|turns|] && (|turns| == j ==> id in turn.hits)
    ensures Begins(runs, turns + [turn], j, id)
  {
  }

  lemma LosingHistory(w: World, u: set<string>, runs: seq<RunInput>, i: nat, j: nat, id: PackageID, k: Digest)
      returns (states: seq<State>, turns: seq<Turn>)
    requires AllAdmissible(w, u, runs) && Hides(w, runs, i, j, id) && Key(w, runs[i], id) == Some(k)
    ensures History(w, u, states, turns) && Performs(turns, runs) && states[j] == AfterDepWrite(k) && id in turns[j].hits
  {
    states, turns := [EMPTY], [];
    for n := 0 to |runs|
      invariant |turns| == n && History(w, u, states, turns) && Begins(runs, turns, j, id)
      invariant states[n] == if n <= i then EMPTY else AfterDepWrite(k)
      invariant j < n ==> states[j] == AfterDepWrite(k)
    {
      var turn, t := LosingStep(w, u, runs, i, j, id, k, states, turns);
      BeginsGrows(runs, turns, j, id, turn);
      states, turns := states + [t], turns + [turn];
    }
  }

  lemma LossAt(w: World, u: set<string>, states: seq<State>, turns: seq<Turn>, j: nat, id: PackageID, k: Digest)
    requires CollisionFree(w.sha, u) && AnalyzerLocal(w) && History(w, u, states, turns) && j < |turns|
    requires states[j] == AfterDepWrite(k) && id in turns[j].hits && Key(w, turns[j].run, id) == Some(k)
    requires Result(w, turns[j].run, id) != []
    ensures turns[j].out != Uncached(w, turns[j].run)
  {
    assert id in Poisoned(w, turns[j].run, states[j], turns[j].hits);
    PoisonedLoses(w, u, states, turns, j, id);
  }

  lemma PoisonedLoses(w: World, u: set<string>, states: seq<State>, turns: seq<Turn>, j: nat, id: PackageID)
    requires CollisionFree(w.sha, u) && AnalyzerLocal(w) && History(w, u, states, turns) && j < |turns|
    requires id in Poisoned(w, turns[j].run, states[j], turns[j].hits) && Result(w, turns[j].run, id) != []
    ensures turns[j].out != Uncached(w, turns[j].run)
  {
    Transparent(w, u, states, turns, j);
  }

  lemma HiddenIsVisible(w: World, u: set<string>, runs: seq<RunInput>, i: nat, j: nat, id: PackageID)
    requires CollisionFree(w.sha, u) && AnalyzerLocal(w) && AllAdmissible(w, u, runs)
    requires Hides(w, runs, i, j, id)
    ensures !AlwaysInvisible(w, u, runs)
  {
    var k := Key(w, runs[i], id).value;
    var states, turns := LosingHistory(w, u, runs, i, j, id, k);
    LossAt(w, u, states, turns, j, id, k);
  }

  /**
   * The exact condition when any read or write may fail: a sequence of runs and
   * edits is always reported as without the cache if and only if no root with
   * findings had its key before in a run that met it only as a dependency.
   */
  lemma InvisibleExactly(w: World, u: set<string>, runs: seq<RunInput>)
    requires CollisionFree(w.sha, u) && AnalyzerLocal(w) && AllAdmissible(w, u, runs)
    ensures AlwaysInvisible(w, u, runs) <==> forall i, j, id :: !Hides(w, runs, i, j, id)
  {
    if i: nat, j: nat, id :| Hides(w, runs, i, j, id) {
      HiddenIsVisible(w, u, runs, i, j, id);
    } else {
      forall states, turns: seq<Turn>, j | History(w, u, states, turns) && Performs(turns, runs) && 0 <= j < |runs|
        ensures turns[j].out == Uncached(w, runs[j])
      {
        NothingHiddenInvisible(w, u, states, turns, runs, j);
      }
    }
  }
}
