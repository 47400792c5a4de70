// The version stamp of the L1/L2 cache directory (internal/cache/cache.go):
// init, purgeEntries and GC, each able to stop between any two file operations.

module VersionStamp {
  import opened Strings

  type Version = string

  /** An entry on disk, with the version of the process that wrote it. */
  datatype Stored = Stored(name: string, version: Version)

  /** What is on disk: meta/cache-version, typecheck/ and analyzer/. */
  datatype Dir = Dir(stamp: Option<Version>, typecheck: set<Stored>, analyzer: set<Stored>)

  ghost predicate AllOf(entries: set<Stored>, v: Version)
  {
    forall e :: e in entries ==> e.version == v
  }

  /** A stamp v vouches for every entry; without a stamp there is no entry. */
  ghost predicate Consistent(d: Dir)
  {
    match d.stamp
    case None => d.typecheck == {} && d.analyzer == {}
    case Some(v) => AllOf(d.typecheck, v) && AllOf(d.analyzer, v)
  }

  /** The entries touched since the cutoff. */
  function Recent(entries: set<Stored>, touched: Stored -> int, cutoff: int): set<Stored>
  {
    set e | e in entries && touched(e) >= cutoff
  }

  class CacheDir {
    var stamp: Option<Version>
    var typecheck: set<Stored>
    var analyzer: set<Stored>

    constructor ()
      ensures OnDisk() == Dir(None, {}, {})
    {
      stamp, typecheck, analyzer := None, {}, {};
    }

    function OnDisk(): Dir
      reads this
    {
      Dir(stamp, typecheck, analyzer)
    }

    /** os.RemoveAll of one subtree: files go one by one, and the process may stop after any of them. */
    method RemoveTree(tree: set<Stored>) returns (left: set<Stored>, finished: bool)
      ensures left <= tree && (finished ==> left == {})
    {
      left := tree;
      while left != {}
        invariant left <= tree
        decreases left
      {
        var stop: bool := *;
        if stop { return left, false; }
        var e :| e in left;
        left := left - {e};
      }
      finished := true;
    }

    /** purgeEntries. */
    method PurgeEntries() returns (finished: bool)
      modifies this`typecheck, this`analyzer
      ensures typecheck <= old(typecheck) && analyzer <= old(analyzer)
      ensures finished ==> typecheck == {} && analyzer == {}
    {
      typecheck, finished := RemoveTree(typecheck);
      if !finished { return; }
      analyzer, finished := RemoveTree(analyzer);
    }

    /**
     * init under version v.  It may die (or fail) at any point; it reports
     * true only when the cache is open, and then the stamp is v.
     */
    method Init(v: Version) returns (ready: bool)
      requires Consistent(OnDisk())
      modifies this
      ensures Consistent(OnDisk())
      ensures ready ==> stamp == Some(v)
      ensures ready && old(stamp) == Some(v) ==> OnDisk() == old(OnDisk())
      ensures ready && old(stamp) != Some(v) ==> typecheck == {} && analyzer == {}
      ensures typecheck <= old(typecheck) && analyzer <= old(analyzer)
    {
      var stop: bool := *;
      if stop { return false; }
      match stamp {
        case None =>
        case Some(existing) =>
          if existing == v { return true; }
          var purged := PurgeEntries();
          if !purged { return false; }
          stop := *;
          if stop { return false; }
          stamp := None;
      }
      stop := *;
      if stop { return false; }
      // link(2): the stamp is absent here, so the new one is published
      stamp := Some(v);
      ready := true;
    }

    /** A write through a handle opened under v. */
    method WriteEntry(v: Version, name: string, isTypecheck: bool)
      requires Consistent(OnDisk()) && stamp == Some(v)
      modifies this`typecheck, this`analyzer
      ensures Consistent(OnDisk())
      ensures if isTypecheck then typecheck == old(typecheck) + {Stored(name, v)} && analyzer == old(analyzer)
              else analyzer == old(analyzer) + {Stored(name, v)} && typecheck == old(typecheck)
    {
      if isTypecheck { typecheck := typecheck + {Stored(name, v)}; } else { analyzer := analyzer + {Stored(name, v)}; }
    }

    /** GC: unlinks the entries last touched before the cutoff, under either subtree. */
    method Collect(touched: Stored -> int, cutoff: int) returns (finished: bool)
      requires Consistent(OnDisk())
      modifies this`typecheck, this`analyzer
      ensures Consistent(OnDisk())
      ensures Recent(old(typecheck), touched, cutoff) <= typecheck <= old(typecheck)
      ensures Recent(old(analyzer), touched, cutoff) <= analyzer <= old(analyzer)
      ensures finished ==> typecheck == Recent(old(typecheck), touched, cutoff) && analyzer == Recent(old(analyzer), touched, cutoff)
      ensures forall e :: e in old(typecheck) && touched(e) >= cutoff ==> e in typecheck
      ensures forall e :: e in old(analyzer) && touched(e) >= cutoff ==> e in analyzer
      ensures finished ==> forall e :: e in typecheck || e in analyzer ==> touched(e) >= cutoff
    {
      var recent, left, done := Recent(typecheck, touched, cutoff), {}, true;
      left, finished := RemoveTree(typecheck - recent);
      typecheck := recent + left;
      recent := Recent(analyzer, touched, cutoff);
      left, done := RemoveTree(analyzer - recent);
      analyzer := recent + left;
      finished := finished && done;
    }

    /** What one process does: open, then write and collect for as long as it lives. */
    method Life(v: Version, work: seq<(string, bool)>, touched: Stored -> int, cutoff: int)
      requires Consistent(OnDisk())
      modifies this
      ensures Consistent(OnDisk())
    {
      var ready := Init(v);
      if !ready { return; }
      for i := 0 to |work|
        invariant Consistent(OnDisk()) && stamp == Some(v)
      {
        var stop: bool := *;
        if stop { return; }
        var gc: bool := *;
        if gc { var finished := Collect(touched, cutoff); } else { WriteEntry(v, work[i].0, work[i].1); }
      }
    }

    /** Any sequence of processes, under any versions, each dying wherever it likes. */
    method Lives(versions: seq<Version>, work: seq<seq<(string, bool)>>, touched: Stored -> int, cutoff: int)
      requires |work| == |versions| && Consistent(OnDisk())
      modifies this
      ensures Consistent(OnDisk())
    {
      for i := 0 to |versions|
        invariant Consistent(OnDisk())
      {
        Life(versions[i], work[i], touched, cutoff);
      }
    }
  }
}
