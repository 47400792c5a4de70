// The version stamp under processes that overlap: every file operation of init,
// purgeEntries and GC (internal/cache/cache.go) and every entry written is one
// event, and the events of any number of processes interleave freely.

module StampRace {
  import opened Strings
  import opened VersionStamp

  datatype Tree = Typecheck | Analyzer

  function TreeOf(d: Dir, t: Tree): set<Stored>
  {
    match t case Typecheck => d.typecheck case Analyzer => d.analyzer
  }

  function WithTree(d: Dir, t: Tree, entries: set<Stored>): Dir
  {
    match t case Typecheck => d.(typecheck := entries) case Analyzer => d.(analyzer := entries)
  }

  /** Where a process is: each value is a point between two file operations. */
  datatype Pc =
    | Started          // the stamp is not yet read
    | Purging(t: Tree) // another version's stamp was read; the files of t are being removed
    | Purged           // both trees are gone, the stale stamp is still there
    | Stamping         // no stamp was there, or the stale one is unlinked
    | Open             // init returned nil
    | Stopped          // init failed, or the process ended

  datatype Process = Process(version: Version, pc: Pc)

  datatype Shared = Shared(dir: Dir, procs: map<nat, Process>)

  datatype Event =
    | Start(p: nat, v: Version)
    | ReadStamp(p: nat)
    | PurgeFile(p: nat, t: Tree, entry: Stored)
    | TreeGone(p: nat)
    | UnlinkStamp(p: nat)
    | LinkStamp(p: nat) // an existing stamp counts as success
    | Write(p: nat, t: Tree, name: string)
    | Collect(p: nat, t: Tree, entry: Stored)
    | Stop(p: nat)

  predicate At(s: Shared, p: nat, pc: Pc)
  {
    p in s.procs && s.procs[p].pc == pc
  }

  predicate Enabled(s: Shared, e: Event)
  {
    match e
    case Start(p, _) => p !in s.procs
    case ReadStamp(p) => At(s, p, Started)
    case PurgeFile(p, t, entry) => At(s, p, Purging(t)) && entry in TreeOf(s.dir, t)
    case TreeGone(p) => p in s.procs && s.procs[p].pc.Purging? && TreeOf(s.dir, s.procs[p].pc.t) == {}
    case UnlinkStamp(p) => At(s, p, Purged)
    case LinkStamp(p) => At(s, p, Stamping)
    case Write(p, _, _) => At(s, p, Open)
    case Collect(p, t, entry) => At(s, p, Open) && entry in TreeOf(s.dir, t)
    case Stop(p) => p in s.procs
  }

  function Moved(s: Shared, p: nat, pc: Pc): Shared
    requires p in s.procs
  {
    s.(procs := s.procs[p := s.procs[p].(pc := pc)])
  }

  function AfterRead(stamp: Option<Version>, v: Version): Pc
  {
    match stamp case None => Stamping case Some(u) => if u == v then Open else Purging(Typecheck)
  }

  function After(s: Shared, e: Event): Shared
    requires Enabled(s, e)
  {
    match e
    case Start(p, v) => s.(procs := s.procs[p := Process(v, Started)])
    case ReadStamp(p) => Moved(s, p, AfterRead(s.dir.stamp, s.procs[p].version))
    case PurgeFile(p, t, entry) => s.(dir := WithTree(s.dir, t, TreeOf(s.dir, t) - {entry}))
    case TreeGone(p) => Moved(s, p, if s.procs[p].pc.t == Typecheck then Purging(Analyzer) else Purged)
    case UnlinkStamp(p) => Moved(s, p, Stamping).(dir := s.dir.(stamp := None))
    case LinkStamp(p) =>
      Moved(s, p, Open).(dir := if s.dir.stamp.None? then s.dir.(stamp := Some(s.procs[p].version)) else s.dir)
    case Write(p, t, name) => s.(dir := WithTree(s.dir, t, TreeOf(s.dir, t) + {EntryOf(s, e)}))
    case Collect(p, t, entry) => s.(dir := WithTree(s.dir, t, TreeOf(s.dir, t) - {entry}))
    case Stop(p) => Moved(s, p, Stopped)
  }

  /** The entry a write leaves. */
  function EntryOf(s: Shared, e: Event): Stored
    requires e.Write? && e.p in s.procs
  {
    Stored(e.name, s.procs[e.p].version)
  }

  // ---- runs ----

  predicate StepAt(states: seq<Shared>, events: seq<Event>, i: nat)
    requires i < |events| && |states| == |events| + 1
  {
    Enabled(states[i], events[i]) && states[i + 1] == After(states[i], events[i])
  }

  /** Any interleaving, from a directory nobody has open. */
  ghost predicate Run(states: seq<Shared>, events: seq<Event>)
  {
    && |states| == |events| + 1 && states[0].procs == map[]
    && forall i :: 0 <= i < |events| ==> StepAt(states, events, i)
  }

  ghost predicate AlwaysConsistent(states: seq<Shared>)
  {
    forall i :: 0 <= i < |states| ==> Consistent(states[i].dir)
  }

  // ---- the condition ----

  /** A write is made while the stamp names the writer's own version. */
  predicate UnderStamp(s: Shared, e: Event)
  {
    e.Write? && e.p in s.procs ==> s.dir.stamp == Some(s.procs[e.p].version)
  }

  /** The process has removed the tree and not yet unlinked the stale stamp. */
  predicate Passed(s: Shared, p: nat, t: Tree)
  {
    At(s, p, Purged) || (t == Typecheck && At(s, p, Purging(Analyzer)))
  }

  predicate Removes(e: Event, t: Tree, entry: Stored)
  {
    (e.PurgeFile? || e.Collect?) && e.t == t && e.entry == entry
  }

  /** Event i writes into a tree that the process of event b has passed, and the entry is still there when b unlinks the stamp. */
  ghost predicate LateWrite(states: seq<Shared>, events: seq<Event>, i: nat, b: nat)
    requires |states| == |events| + 1
  {
    && i < b < |events| && events[i].Write? && events[i].p in states[i].procs && events[b].UnlinkStamp?
    && Passed(states[i], events[b].p, events[i].t)
    && forall k :: i < k < b ==> !Removes(events[k], events[i].t, EntryOf(states[i], events[i]))
  }

  // ---- one event ----

  predicate Empty(d: Dir)
  {
    d.typecheck == {} && d.analyzer == {}
  }

  /** Only a write under a foreign stamp and an unlink above leftover entries break the stamp. */
  lemma StepExactly(s: Shared, e: Event)
    requires Enabled(s, e) && Consistent(s.dir)
    ensures Consistent(After(s, e).dir) <==> UnderStamp(s, e) && (e.UnlinkStamp? ==> Empty(s.dir))
  {
    if e.Write? {
      assert EntryOf(s, e) in TreeOf(After(s, e).dir, e.t);
    }
  }

  lemma ForeignWriteBreaks(s: Shared, e: Event)
    requires Enabled(s, e) && !UnderStamp(s, e)
    ensures !(Consistent(s.dir) && Consistent(After(s, e).dir))
  {
    if Consistent(s.dir) {
      StepExactly(s, e);
    }
  }

  /** An entry leaves a tree only by an event that removes it. */
  lemma StaysUnlessRemoved(s: Shared, e: Event, t: Tree, entry: Stored)
    requires Enabled(s, e) && entry in TreeOf(s.dir, t) && !Removes(e, t, entry)
    ensures entry in TreeOf(After(s, e).dir, t)
  {
  }

  /** An entry enters a tree only by its write. */
  lemma EntersByWrite(s: Shared, e: Event, t: Tree, entry: Stored)
    requires Enabled(s, e) && entry !in TreeOf(s.dir, t) && entry in TreeOf(After(s, e).dir, t)
    ensures e.Write? && e.t == t && EntryOf(s, e) == entry
  {
  }

  /** A process passes a tree at a moment when the tree is empty. */
  lemma PassedEmpty(s: Shared, e: Event, p: nat, t: Tree)
    requires Enabled(s, e) && !Passed(s, p, t) && Passed(After(s, e), p, t)
    ensures TreeOf(After(s, e).dir, t) == {}
  {
  }

  // ---- whole runs ----

  lemma {:induction false} StillThere(states: seq<Shared>, events: seq<Event>, i: nat, b: nat, t: Tree, entry: Stored)
    requires Run(states, events) && i <= b < |states| && entry in TreeOf(states[i].dir, t)
    requires forall k :: i <= k < b ==> !Removes(events[k], t, entry)
    ensures entry in TreeOf(states[b].dir, t)
    decreases b - i
  {
    if i < b {
      StillThere(states, events, i, b - 1, t, entry);
      assert StepAt(states, events, b - 1);
      StaysUnlessRemoved(states[b - 1], events[b - 1], t, entry);
    }
  }

  /** An entry in a tree that p has passed was written after p passed it, and has not been removed since. */
  lemma {:induction false} WrittenLate(states: seq<Shared>, events: seq<Event>, b: nat, p: nat, t: Tree, entry: Stored) returns (i: nat)
    requires Run(states, events) && b < |states| && Passed(states[b], p, t) && entry in TreeOf(states[b].dir, t)
    ensures i < b && events[i].Write? && events[i].t == t && events[i].p in states[i].procs && EntryOf(states[i], events[i]) == entry
    ensures Passed(states[i], p, t) && forall k :: i < k < b ==> !Removes(events[k], t, entry)
    decreases b
  {
    assert b > 0;
    var s, e := states[b - 1], events[b - 1];
    assert StepAt(states, events, b - 1);
    if !Passed(s, p, t) {
      PassedEmpty(s, e, p, t);
      assert false;
    }
    if entry in TreeOf(s.dir, t) {
      i := WrittenLate(states, events, b - 1, p, t, entry);
      assert !Removes(e, t, entry);
    } else {
      EntersByWrite(s, e, t, entry);
      i := b - 1;
    }
  }

  lemma LateWriteBreaksAt(states: seq<Shared>, events: seq<Event>, i: nat, b: nat)
    requires Run(states, events) && LateWrite(states, events, i, b)
    ensures !Consistent(states[b + 1].dir)
  {
    var t, entry := events[i].t, EntryOf(states[i], events[i]);
    assert StepAt(states, events, i) && StepAt(states, events, b);
    StillThere(states, events, i + 1, b, t, entry);
    assert entry in TreeOf(states[b + 1].dir, t);
  }

  lemma UnlinkFindsLate(states: seq<Shared>, events: seq<Event>, b: nat)
    requires Run(states, events) && b < |events| && events[b].UnlinkStamp? && !Empty(states[b].dir)
    ensures exists i :: LateWrite(states, events, i, b)
  {
    assert StepAt(states, events, b);
    var p := events[b].p;
    var t := if states[b].dir.typecheck != {} then Typecheck else Analyzer;
    assert TreeOf(states[b].dir, t) != {};
    var entry :| entry in TreeOf(states[b].dir, t);
    var i := WrittenLate(states, events, b, p, t, entry);
    assert LateWrite(states, events, i, b);
  }

  ghost predicate Careful(states: seq<Shared>, events: seq<Event>)
    requires |states| == |events| + 1
  {
    && (forall i :: 0 <= i < |events| ==> UnderStamp(states[i], events[i]))
    && (forall i, b :: !LateWrite(states, events, i, b))
  }

  lemma {:induction false} CarefulConsistent(states: seq<Shared>, events: seq<Event>, n: nat)
    requires Run(states, events) && Consistent(states[0].dir) && Careful(states, events) && n < |states|
    ensures Consistent(states[n].dir)
  {
    if n > 0 {
      CarefulConsistent(states, events, n - 1);
      assert StepAt(states, events, n - 1);
      assert UnderStamp(states[n - 1], events[n - 1]);
      if events[n - 1].UnlinkStamp? && !Empty(states[n - 1].dir) {
        UnlinkFindsLate(states, events, n - 1);
        assert false;
      }
      StepExactly(states[n - 1], events[n - 1]);
    }
  }

  /**
   * However the file operations of any number of processes interleave, the stamp
   * vouches for every entry in every state if and only if every write is made
   * under the writer's own stamp and none that stays falls between another
   * process's removal of that tree and its unlink of the stamp.
   */
  lemma OverlapExactly(states: seq<Shared>, events: seq<Event>)
    requires Run(states, events) && Consistent(states[0].dir)
    ensures AlwaysConsistent(states) <==> Careful(states, events)
  {
    if Careful(states, events) {
      forall n | 0 <= n < |states|
        ensures Consistent(states[n].dir)
      {
        CarefulConsistent(states, events, n);
      }
    } else if i :| 0 <= i < |events| && !UnderStamp(states[i], events[i]) {
      assert StepAt(states, events, i);
      ForeignWriteBreaks(states[i], events[i]);
      assert !(Consistent(states[i].dir) && Consistent(states[i + 1].dir));
    } else {
      var i, b :| LateWrite(states, events, i, b);
      LateWriteBreaksAt(states, events, i, b);
    }
  }

  // ---- one version ----

  /** Nobody purges, and whoever has the cache open has it open under the stamp. */
  ghost predicate OneVersion(s: Shared, v: Version)
  {
    && Consistent(s.dir) && (s.dir.stamp.None? || s.dir.stamp == Some(v))
    && forall p :: p in s.procs ==>
         && s.procs[p].version == v && !s.procs[p].pc.Purging? && !s.procs[p].pc.Purged?
         && (s.procs[p].pc.Open? ==> s.dir.stamp == Some(v))
  }

  lemma OneVersionStep(s: Shared, e: Event, v: Version)
    requires OneVersion(s, v) && Enabled(s, e) && (e.Start? ==> e.v == v)
    ensures OneVersion(After(s, e), v)
  {
  }

  /** Any number of processes of one version, stopping anywhere, are safe on a fresh directory or one of their own. */
  lemma {:induction false} OneVersionStays(states: seq<Shared>, events: seq<Event>, v: Version, n: nat)
    requires Run(states, events) && n < |states|
    requires Consistent(states[0].dir) && (states[0].dir.stamp.None? || states[0].dir.stamp == Some(v))
    requires forall i :: 0 <= i < |events| && events[i].Start? ==> events[i].v == v
    ensures OneVersion(states[n], v)
  {
    if n > 0 {
      OneVersionStays(states, events, v, n - 1);
      assert StepAt(states, events, n - 1);
      OneVersionStep(states[n - 1], events[n - 1], v);
    }
  }

  // ---- runs that break the stamp ----

  const FRESH := Shared(Dir(None, {}, {}), map[])

  lemma Then(states: seq<Shared>, events: seq<Event>, e: Event) returns (states': seq<Shared>, events': seq<Event>)
    requires Run(states, events) && Enabled(states[|events|], e)
    ensures Run(states', events') && events' == events + [e] && states'[|events|] == states[|events|]
    ensures states'[|events'|] == After(states[|events|], e) && states'[..|states|] == states
  {
    states', events' := states + [After(states[|events|], e)], events + [e];
    forall i | 0 <= i < |events'|
      ensures StepAt(states', events', i)
    {
      if i < |events| {
        assert StepAt(states, events, i);
      }
    }
  }

  /** A process opens the fresh directory and stamps it. */
  lemma Opened(v: Version) returns (states: seq<Shared>, events: seq<Event>)
    ensures events == [Start(0, v), ReadStamp(0), LinkStamp(0)] && Run(states, events) && states[0] == FRESH
    ensures states[3] == Shared(Dir(Some(v), {}, {}), map[0 := Process(v, Open)])
  {
    states, events := [FRESH], [];
    states, events := Then(states, events, Start(0, v));
    states, events := Then(states, events, ReadStamp(0));
    states, events := Then(states, events, LinkStamp(0));
  }

  /** Another version has purged both trees of that directory. */
  lemma PurgedBy(older: Version, newer: Version) returns (states: seq<Shared>, events: seq<Event>)
    requires older != newer
    ensures events == [Start(0, older), ReadStamp(0), LinkStamp(0), Start(1, newer), ReadStamp(1), TreeGone(1), TreeGone(1)]
    ensures Run(states, events) && states[0] == FRESH
    ensures states[7] == Shared(Dir(Some(older), {}, {}), map[0 := Process(older, Open), 1 := Process(newer, Purged)])
  {
    states, events := Opened(older);
    states, events := Then(states, events, Start(1, newer));
    states, events := Then(states, events, ReadStamp(1));
    states, events := Then(states, events, TreeGone(1));
    states, events := Then(states, events, TreeGone(1));
  }

  /** An older process that is still open writes after the newer one has stamped. */
  lemma OverlapBreaks(older: Version, newer: Version, t: Tree, name: string) returns (states: seq<Shared>, events: seq<Event>)
    requires older != newer
    ensures events == [Start(0, older), ReadStamp(0), LinkStamp(0), Start(1, newer), ReadStamp(1), TreeGone(1), TreeGone(1),
                       UnlinkStamp(1), LinkStamp(1), Write(0, t, name)]
    ensures Run(states, events) && states[0] == FRESH && !Consistent(states[10].dir)
  {
    states, events := PurgedBy(older, newer);
    states, events := Then(states, events, UnlinkStamp(1));
    states, events := Then(states, events, LinkStamp(1));
    states, events := Then(states, events, Write(0, t, name));
    assert Stored(name, older) in TreeOf(states[10].dir, t);
  }

  /** The older process writes under its own stamp, between the newer one's purge and its unlink. */
  lemma LateWriteBreaks(older: Version, newer: Version, t: Tree, name: string) returns (states: seq<Shared>, events: seq<Event>)
    requires older != newer
    ensures events == [Start(0, older), ReadStamp(0), LinkStamp(0), Start(1, newer), ReadStamp(1), TreeGone(1), TreeGone(1),
                       Write(0, t, name), UnlinkStamp(1), LinkStamp(1)]
    ensures Run(states, events) && states[0] == FRESH && UnderStamp(states[7], events[7])
    ensures states[10].dir.stamp == Some(newer) && Stored(name, older) in TreeOf(states[10].dir, t)
  {
    states, events := PurgedBy(older, newer);
    states, events := Then(states, events, Write(0, t, name));
    states, events := Then(states, events, UnlinkStamp(1));
    states, events := Then(states, events, LinkStamp(1));
  }

  /** Two versions open a fresh directory: both succeed, one of them under the other's stamp. */
  lemma ForeignStamp(first: Version, second: Version) returns (states: seq<Shared>, events: seq<Event>)
    requires first != second
    ensures events == [Start(0, first), ReadStamp(0), Start(1, second), ReadStamp(1), LinkStamp(0), LinkStamp(1)]
    ensures Run(states, events) && states[0] == FRESH
    ensures At(states[6], 0, Open) && At(states[6], 1, Open) && states[6].dir.stamp == Some(first)
  {
    states, events := [FRESH], [];
    states, events := Then(states, events, Start(0, first));
    states, events := Then(states, events, ReadStamp(0));
    states, events := Then(states, events, Start(1, second));
    states, events := Then(states, events, ReadStamp(1));
    states, events := Then(states, events, LinkStamp(0));
    states, events := Then(states, events, LinkStamp(1));
  }

  lemma BothPurge(older: Version, v: Version) returns (states: seq<Shared>, events: seq<Event>)
    requires older != v
    ensures events == [Start(0, v), ReadStamp(0), Start(1, v), ReadStamp(1)]
    ensures Run(states, events) && states[0] == Shared(Dir(Some(older), {}, {}), map[])
    ensures states[4] == Shared(Dir(Some(older), {}, {}), map[0 := Process(v, Purging(Typecheck)), 1 := Process(v, Purging(Typecheck))])
  {
    states, events := [Shared(Dir(Some(older), {}, {}), map[])], [];
    states, events := Then(states, events, Start(0, v));
    states, events := Then(states, events, ReadStamp(0));
    states, events := Then(states, events, Start(1, v));
    states, events := Then(states, events, ReadStamp(1));
  }

  /** Two processes of a new version, one of which has stamped while the other still purges. */
  lemma Bumped(older: Version, v: Version) returns (states: seq<Shared>, events: seq<Event>)
    requires older != v
    ensures events == [Start(0, v), ReadStamp(0), Start(1, v), ReadStamp(1), TreeGone(0), TreeGone(0), UnlinkStamp(0), LinkStamp(0)]
    ensures Run(states, events) && states[0] == Shared(Dir(Some(older), {}, {}), map[])
    ensures states[8] == Shared(Dir(Some(v), {}, {}), map[0 := Process(v, Open), 1 := Process(v, Purging(Typecheck))])
  {
    states, events := BothPurge(older, v);
    states, events := Then(states, events, TreeGone(0));
    states, events := Then(states, events, TreeGone(0));
    states, events := Then(states, events, UnlinkStamp(0));
    states, events := Then(states, events, LinkStamp(0));
  }

  /** Both processes of a new version purge the old directory; the slower one unlinks the stamp of the faster one. */
  lemma BumpRace(older: Version, v: Version, t: Tree, name: string) returns (states: seq<Shared>, events: seq<Event>)
    requires older != v
    ensures events == [Start(0, v), ReadStamp(0), Start(1, v), ReadStamp(1), TreeGone(0), TreeGone(0), UnlinkStamp(0), LinkStamp(0),
                       TreeGone(1), TreeGone(1), Write(0, t, name), UnlinkStamp(1)]
    ensures Run(states, events) && states[0] == Shared(Dir(Some(older), {}, {}), map[])
    ensures states[12].dir.stamp.None? && Stored(name, v) in TreeOf(states[12].dir, t)
  {
    states, events := Bumped(older, v);
    states, events := Then(states, events, TreeGone(1));
    states, events := Then(states, events, TreeGone(1));
    states, events := Then(states, events, Write(0, t, name));
    states, events := Then(states, events, UnlinkStamp(1));
  }
}
