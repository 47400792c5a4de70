// runInProcess (internal/engine/engine.go), step by step over a mutable store.

module Engine {
  import opened Strings
  import opened Framing
  import opened DepClosure
  import opened L0Keys
  import opened Diagnostics
  import opened Suppression
  import opened Exclusion
  import opened FilterObjects
  import opened Partition
  import opened Filenames
  import opened Gathering
  import opened RunModel
  import opened CacheProtocol

  // ---- choosing the packages ----

  /** dropTestSupersededPackages, over the packages in any order. */
  method DropTestSuperseded(ws: Graph) returns (pkgs: Graph)
    ensures pkgs == Unsuperseded(ws)
  {
    var has: set<string> := {};
    var todo := ws.Keys;
    while todo != {}
      invariant todo <= ws.Keys
      invariant forall p :: p in has ==> HasTestVariant(ws, p)
      invariant forall id :: id in ws && id !in todo && ws[id].forTest != "" && ws[id].forTest == ws[id].pkgPath ==> ws[id].pkgPath in has
      decreases todo
    {
      var id :| id in todo;
      todo := todo - {id};
      if ws[id].forTest != "" && ws[id].forTest == ws[id].pkgPath { has := has + {ws[id].pkgPath}; }
    }
    pkgs := map id | id in ws && !(ws[id].forTest == "" && ws[id].pkgPath in has) :: ws[id];
  }

  /** Dropping a superseded variant loses no file when the test variant compiles them all. */
  lemma SupersededFilesStay(ws: Graph, id: PackageID, file: string)
    requires id in ws && file in ws[id].compiledGoFiles
    requires forall i, j, f | i in ws && j in ws && ws[i].forTest == "" && ws[j].forTest != "" && ws[j].forTest == ws[j].pkgPath
               && ws[i].pkgPath == ws[j].pkgPath && f in ws[i].compiledGoFiles :: f in ws[j].compiledGoFiles
    ensures exists k :: k in Unsuperseded(ws) && file in Unsuperseded(ws)[k].compiledGoFiles
  {
    if id in Unsuperseded(ws) {
      assert file in Unsuperseded(ws)[id].compiledGoFiles;
    } else {
      var j :| j in ws && ws[j].forTest != "" && ws[j].forTest == ws[j].pkgPath && ws[j].pkgPath == ws[id].pkgPath;
      assert j in Unsuperseded(ws) && file in Unsuperseded(ws)[j].compiledGoFiles;
    }
  }

  /** pruneExcludedRoots, over the packages in any order. */
  method PruneExcludedRoots(filter: Filter?, h: Host, disk: Files, pkgs: Graph) returns (roots: set<PackageID>)
    requires filter != null ==> filter.h == h && filter.Valid(disk)
    modifies filter
    ensures filter != null ==> filter.Valid(disk)
    ensures roots == set id | id in pkgs && !ExcludesAll(h, disk, ConfigOf(filter), pkgs[id].compiledGoFiles)
  {
    if filter == null { return pkgs.Keys; }
    roots := {};
    var todo := pkgs.Keys;
    while todo != {}
      invariant todo <= pkgs.Keys && filter.Valid(disk)
      invariant roots == set id | id in pkgs && id !in todo && !ExcludesAll(h, disk, ConfigOf(filter), pkgs[id].compiledGoFiles)
      decreases todo
    {
      var id :| id in todo;
      todo := todo - {id};
      var excluded := filter.CheckExcludesAll(disk, pkgs[id].compiledGoFiles);
      if !excluded { roots := roots + {id}; }
    }
  }

  // ---- the store ----

  /** The diagnostics of an entry; fact blobs are not modelled. */
  datatype Entry = Entry(packageID: string, diagnostics: seq<Diagnostic>)

  /** The state with one new entry. */
  ghost function Added(s: State, k: Digest, ds: seq<Diagnostic>, dep: bool): State
  {
    State(s.store[k := ds], if dep then s.byDep + {k} else s.byDep)
  }

  class L0Cache {
    var store: map<Digest, Entry>
    ghost var byDep: set<Digest>
    const reliable: bool

    constructor (reliable: bool)
      ensures this.reliable == reliable && Abstract() == EMPTY
    {
      this.reliable := reliable;
      store, byDep := map[], {};
    }

    ghost function Abstract(): State
      reads this
    {
      State(map k | k in store :: store[k].diagnostics, byDep)
    }

    /** Get; reading or decoding may fail. */
    method Get(k: Digest) returns (e: Option<Entry>)
      ensures e.Some? ==> k in store && e.value == store[k]
      ensures reliable && k in store ==> e.Some?
    {
      if k !in store { return None; }
      var ok: bool := *;
      if reliable || ok { return Some(store[k]); }
      return None;
    }

    /** Put: first writer wins; the write may fail. */
    method Put(k: Digest, e: Entry, ghost dep: bool)
      modifies this
      ensures store == old(store) || (k !in old(store) && store == old(store)[k := e])
      ensures reliable ==> k in store
      ensures byDep == if dep && k in store && k !in old(store) then old(byDep) + {k} else old(byDep)
      ensures Abstract() == old(Abstract()) || (k !in old(store) && Abstract() == Added(old(Abstract()), k, e.diagnostics, dep))
    {
      if k in store { return; }
      var ok: bool := *;
      if reliable || ok {
        ghost var before := Abstract();
        store := store[k := e];
        if dep { byDep := byDep + {k}; }
        assert Abstract().store == before.store[k := e.diagnostics];
      }
    }
  }

  // ---- looking up the roots ----

  lemma MoveOne(todo: set<PackageID>, done: set<PackageID>, all: set<PackageID>, id: PackageID)
    requires todo + done == all && todo !! done && id in todo
    ensures (todo - {id}) + (done + {id}) == all && (todo - {id}) !! (done + {id})
  {
  }

  /** keys holds true keys of packages of the run. */
  ghost predicate TrueKeys(w: World, run: RunInput, keys: map<PackageID, Digest>)
  {
    forall id :: id in keys ==> Key(w, run, id) == Some(keys[id])
  }

  /** Which of the roots in done have a key and which were found, given the keys of all packages. */
  ghost predicate Decided(keyOf: PackageID -> Option<Digest>, stored: set<Digest>, reliable: bool, done: set<PackageID>,
                          hits: set<PackageID>, keys: map<PackageID, Digest>)
  {
    && hits <= done && keys.Keys <= done
    && (forall id :: id in keys ==> keyOf(id) == Some(keys[id]))
    && (forall id :: id in hits ==> id in keys && keys[id] in stored)
    && (reliable ==> forall id :: id in done && keyOf(id).Some? ==> id in keys && (keys[id] in stored ==> id in hits))
  }

  ghost function KeyFn(w: World, run: RunInput): PackageID -> Option<Digest>
  {
    (id: PackageID) => Key(w, run, id)
  }

  /** What the lookup loop knows once it has decided the roots in done. */
  ghost predicate SplitSoFar(w: World, run: RunInput, s: State, reliable: bool, done: set<PackageID>,
                             hits: set<PackageID>, keys: map<PackageID, Digest>, cached: seq<Diagnostic>)
  {
    && Decided(KeyFn(w, run), s.store.Keys, reliable, done, hits, keys)
    && multiset(cached) == Gather(hits, HitFn(w, run, s))
  }

  lemma DecideNoKey(keyOf: PackageID -> Option<Digest>, stored: set<Digest>, reliable: bool, done: set<PackageID>,
                    hits: set<PackageID>, keys: map<PackageID, Digest>, id: PackageID)
    requires Decided(keyOf, stored, reliable, done, hits, keys) && keyOf(id).None?
    ensures Decided(keyOf, stored, reliable, done + {id}, hits, keys)
  {
  }

  lemma DecideMiss(keyOf: PackageID -> Option<Digest>, stored: set<Digest>, reliable: bool, done: set<PackageID>,
                   hits: set<PackageID>, keys: map<PackageID, Digest>, id: PackageID, k: Digest)
    requires Decided(keyOf, stored, reliable, done, hits, keys) && id !in done
    requires keyOf(id) == Some(k) && (reliable ==> k !in stored)
    ensures Decided(keyOf, stored, reliable, done + {id}, hits, keys[id := k])
  {
  }

  lemma DecideHit(keyOf: PackageID -> Option<Digest>, stored: set<Digest>, reliable: bool, done: set<PackageID>,
                  hits: set<PackageID>, keys: map<PackageID, Digest>, id: PackageID, k: Digest)
    requires Decided(keyOf, stored, reliable, done, hits, keys) && id !in done
    requires keyOf(id) == Some(k) && k in stored
    ensures Decided(keyOf, stored, reliable, done + {id}, hits + {id}, keys[id := k])
  {
  }

  lemma GatherHit(w: World, run: RunInput, s: State, hits: set<PackageID>, id: PackageID, k: Digest)
    requires id !in hits && Key(w, run, id) == Some(k) && k in s.store
    ensures Gather(hits + {id}, HitFn(w, run, s)) == Gather(hits, HitFn(w, run, s)) + multiset(s.store[k])
  {
    GatherTake(hits + {id}, HitFn(w, run, s), id);
    assert hits + {id} - {id} == hits;
  }

  method DeriveKey(w: World, run: RunInput, c: L0Context, id: PackageID) returns (key: Option<Digest>)
    requires id in run.env.snap.graph && c.sha == w.sha && c.env == run.env && c.Valid()
    modifies c
    ensures c.Valid() && key == KeyFn(w, run)(id)
  {
    var k, ok := c.KeyFor(run.env.snap.graph[id]);
    key := if ok then Some(k) else None;
  }

  /** The key of one root and what the cache holds under it. */
  method LookUp(w: World, run: RunInput, cache: L0Cache, c: L0Context, id: PackageID, ghost s: State)
    returns (key: Option<Digest>, found: Option<seq<Diagnostic>>)
    requires WellKeyed(run.env.snap.graph) && id in run.env.snap.graph && s == cache.Abstract()
    requires c.sha == w.sha && c.env == run.env && c.Valid()
    modifies c
    ensures c.Valid() && key == KeyFn(w, run)(id)
    ensures found.Some? ==> key.Some? && key.value in s.store && found.value == s.store[key.value]
    ensures cache.reliable && key.Some? && key.value in s.store ==> found.Some?
  {
    key := DeriveKey(w, run, c, id);
    if key.None? { return None, None; }
    var entry := cache.Get(key.value);
    found := if entry.Some? then Some(entry.value.diagnostics) else None;
  }

  /** splitByL0, over the roots in any order. */
  method SplitByL0(w: World, run: RunInput, cache: L0Cache, roots: set<PackageID>)
    returns (hits: set<PackageID>, keys: map<PackageID, Digest>, cached: seq<Diagnostic>, lc: L0Context?)
    requires WellKeyed(run.env.snap.graph) && roots <= run.env.snap.graph.Keys
    ensures SplitSoFar(w, run, cache.Abstract(), cache.reliable, roots, hits, keys, cached)
    ensures lc != null ==> fresh(lc) && lc.sha == w.sha && lc.env == run.env && lc.Valid()
    ensures cache.reliable ==> lc != null
  {
    hits, keys, cached, lc := {}, map[], [], null;
    var derivable: bool := *;
    if !cache.reliable && !derivable { return; }
    var c := new L0Context(w.sha, run.env);
    ghost var keyOf, s, done := KeyFn(w, run), cache.Abstract(), {};
    var todo := roots;
    while todo != {}
      invariant todo + done == roots && todo !! done && fresh(c) && c.sha == w.sha && c.env == run.env && c.Valid()
      invariant Decided(keyOf, s.store.Keys, cache.reliable, done, hits, keys)
      invariant multiset(cached) == Gather(hits, HitFn(w, run, s))
      decreases todo
    {
      var id :| id in todo;
      var key, entry := LookUp(w, run, cache, c, id, s);
      if key.None? {
        DecideNoKey(keyOf, s.store.Keys, cache.reliable, done, hits, keys, id);
      } else if entry.None? {
        DecideMiss(keyOf, s.store.Keys, cache.reliable, done, hits, keys, id, key.value);
        keys := keys[id := key.value];
      } else {
        DecideHit(keyOf, s.store.Keys, cache.reliable, done, hits, keys, id, key.value);
        GatherHit(w, run, s, hits, id, key.value);
        keys := keys[id := key.value];
        hits := hits + {id};
        cached := cached + entry.value;
      }
      MoveOne(todo, done, roots, id);
      todo, done := todo - {id}, done + {id};
    }
    lc := c;
  }

  // ---- analysing the misses ----

  function FilesFn(mp: Package): string -> bool
  {
    (file: string) => file in mp.compiledGoFiles
  }

  /** found interleaves, in any way, the diagnostics of the packages in ids. */
  ghost predicate Interleaves(w: World, run: RunInput, ids: set<PackageID>, found: seq<Diagnostic>)
    requires ids <= Pkgs(run).Keys
  {
    && (forall id :: id in ids ==> InClass(found, FilesFn(Pkgs(run)[id])) == w.analyze(run.env, id))
    && (forall d :: d in found ==> exists id :: id in ids && d.pos.filename in Pkgs(run)[id].compiledGoFiles)
  }

  function OwnedBy(owns: (PackageID, string) -> bool, id: PackageID): string -> bool
  {
    (file: string) => owns(id, file)
  }

  lemma DeliverOne(owns: (PackageID, string) -> bool, id: PackageID, other: PackageID, found: seq<Diagnostic>, d: Diagnostic)
    requires owns(id, d.pos.filename) && (owns(other, d.pos.filename) ==> other == id)
    ensures InClass(found + [d], OwnedBy(owns, other)) ==
            InClass(found, OwnedBy(owns, other)) + if other == id then [d] else []
  {
    var c := OwnedBy(owns, other);
    InClassAppend(found, [d], c);
    assert InClass([d], c) == if c(d.pos.filename) then [d] else [] by { assert [d][1..] == []; }
  }

  /** The first pos[id] diagnostics of every list have been delivered, and nothing else. */
  ghost predicate Delivered(ids: set<PackageID>, lists: PackageID -> seq<Diagnostic>, owns: (PackageID, string) -> bool,
                            found: seq<Diagnostic>, pos: map<PackageID, nat>)
  {
    && pos.Keys == ids
    && (forall id :: id in ids ==> pos[id] <= |lists(id)| && InClass(found, OwnedBy(owns, id)) == lists(id)[..pos[id]])
    && (forall d :: d in found ==> exists id :: id in ids && owns(id, d.pos.filename))
  }

  lemma PrefixGrows(list: seq<Diagnostic>, i: nat, j: nat, more: seq<Diagnostic>)
    requires i <= j <= |list| && more == list[i..j]
    ensures list[..i] + more == list[..j]
  {
  }

  lemma DeliverClass(lists: PackageID -> seq<Diagnostic>, owns: (PackageID, string) -> bool,
                     found: seq<Diagnostic>, pos: map<PackageID, nat>, id: PackageID, other: PackageID)
    requires id in pos && other in pos && pos[id] < |lists(id)| && pos[other] <= |lists(other)|
    requires owns(id, lists(id)[pos[id]].pos.filename)
    requires owns(other, lists(id)[pos[id]].pos.filename) ==> other == id
    requires InClass(found, OwnedBy(owns, other)) == lists(other)[..pos[other]]
    ensures var next := pos[id := pos[id] + 1];
            next[other] <= |lists(other)| &&
            InClass(found + [lists(id)[pos[id]]], OwnedBy(owns, other)) == lists(other)[..next[other]]
  {
    var d := lists(id)[pos[id]];
    DeliverOne(owns, id, other, found, d);
    PrefixGrows(lists(other), pos[other], pos[id := pos[id] + 1][other], if other == id then [d] else []);
  }

  lemma DeliverStep(ids: set<PackageID>, lists: PackageID -> seq<Diagnostic>, owns: (PackageID, string) -> bool,
                    found: seq<Diagnostic>, pos: map<PackageID, nat>, id: PackageID)
    requires forall id, d :: id in ids && d in lists(id) ==> owns(id, d.pos.filename)
    requires forall i, j, f :: i in ids && j in ids && owns(i, f) && owns(j, f) ==> i == j
    requires Delivered(ids, lists, owns, found, pos) && id in ids && pos[id] < |lists(id)|
    ensures Delivered(ids, lists, owns, found + [lists(id)[pos[id]]], pos[id := pos[id] + 1])
  {
    var d, next := lists(id)[pos[id]], pos[id := pos[id] + 1];
    assert d in lists(id) && owns(id, d.pos.filename);
    forall other | other in ids
      ensures next[other] <= |lists(other)| && InClass(found + [d], OwnedBy(owns, other)) == lists(other)[..next[other]]
    {
      DeliverClass(lists, owns, found, pos, id, other);
    }
  }

  /** Delivers the lists of ids one diagnostic at a time, from an arbitrary list each time. */
  method Interleave(ids: set<PackageID>, lists: PackageID -> seq<Diagnostic>, ghost owns: (PackageID, string) -> bool)
    returns (found: seq<Diagnostic>)
    requires forall id, d :: id in ids && d in lists(id) ==> owns(id, d.pos.filename)
    requires forall i, j, f :: i in ids && j in ids && owns(i, f) && owns(j, f) ==> i == j
    ensures forall id :: id in ids ==> InClass(found, OwnedBy(owns, id)) == lists(id)
    ensures forall d :: d in found ==> exists id :: id in ids && owns(id, d.pos.filename)
  {
    found := [];
    var pos: map<PackageID, nat> := map id | id in ids :: 0;
    var pending := ids;
    while pending != {}
      invariant pending <= ids
      invariant Delivered(ids, lists, owns, found, pos)
      invariant forall id :: id in ids - pending ==> pos[id] == |lists(id)|
      decreases Left(ids, lists, pos), pending
    {
      var id :| id in pending;
      if pos[id] == |lists(id)| {
        pending := pending - {id};
      } else {
        DeliverStep(ids, lists, owns, found, pos, id);
        LeftStep(ids, lists, pos, id);
        found := found + [lists(id)[pos[id]]];
        pos := pos[id := pos[id] + 1];
      }
    }
  }

  /** How many diagnostics are still to be delivered. */
  ghost function Left(ids: set<PackageID>, lists: PackageID -> seq<Diagnostic>, pos: map<PackageID, nat>): nat
    requires ids <= pos.Keys
  {
    if ids == {} then 0
    else
      var id :| id in ids;
      (if pos[id] <= |lists(id)| then |lists(id)| - pos[id] else 0) + Left(ids - {id}, lists, pos)
  }

  lemma {:induction false} LeftStep(ids: set<PackageID>, lists: PackageID -> seq<Diagnostic>, pos: map<PackageID, nat>, x: PackageID)
    requires ids <= pos.Keys && x in pos && pos[x] < |lists(x)|
    ensures Left(ids, lists, pos[x := pos[x] + 1]) == if x in ids then Left(ids, lists, pos) - 1 else Left(ids, lists, pos)
    decreases ids
  {
    if ids != {} {
      var next := pos[x := pos[x] + 1];
      var id :| id in ids && Left(ids, lists, pos) ==
        (if pos[id] <= |lists(id)| then |lists(id)| - pos[id] else 0) + Left(ids - {id}, lists, pos)
        && Left(ids, lists, next) == (if next[id] <= |lists(id)| then |lists(id)| - next[id] else 0) + Left(ids - {id}, lists, next);
      LeftStep(ids - {id}, lists, pos, x);
    }
  }

  /** invokeAnalyze: the driver fails, or reports the packages' diagnostics in some interleaving. */
  method InvokeAnalyze(w: World, run: RunInput, ghost pkgs: Graph, ids: set<PackageID>) returns (ok: bool, found: seq<Diagnostic>)
    requires pkgs == Pkgs(run) && ids <= pkgs.Keys && DisjointFiles(pkgs) && OwnFilesOnly(w, run)
    ensures if ok then Interleaves(w, run, ids, found) else found == []
  {
    ok := *;
    if !ok { return false, []; }
    ghost var owns := (id: PackageID, file: string) => id in pkgs && file in pkgs[id].compiledGoFiles;
    found := Interleave(ids, id => w.analyze(run.env, id), owns);
    forall id | id in ids ensures InClass(found, FilesFn(pkgs[id])) == w.analyze(run.env, id) {
      InClassSame(found, OwnedBy(owns, id), FilesFn(pkgs[id]));
    }
  }

  /** Whatever the interleaving and the owner map, each bucket is one package's own list. */
  lemma BucketIsAnalysis(w: World, run: RunInput, owner: map<string, PackageID>, ids: set<PackageID>, found: seq<Diagnostic>, id: PackageID)
    requires ids <= Pkgs(run).Keys && DisjointFiles(Pkgs(run)) && IsOwnerMap(Pkgs(run), owner) && "" !in ids
    requires Interleaves(w, run, ids, found)
    ensures id in ids ==> Bucket(owner, ids, found, id) == w.analyze(run.env, id)
    ensures id == "" ==> Bucket(owner, ids, found, id) == []
  {
    forall d | d in found ensures BucketOf(owner, ids, d.pos.filename) in ids
      && d.pos.filename in Pkgs(run)[BucketOf(owner, ids, d.pos.filename)].compiledGoFiles
    {
      var j :| j in ids && d.pos.filename in Pkgs(run)[j].compiledGoFiles;
      assert owner[d.pos.filename] == j;
    }
    if id in ids {
      InClassSame(found, BucketFn(owner, ids, id), FilesFn(Pkgs(run)[id]));
    } else if id == "" {
      var b := Bucket(owner, ids, found, id);
      HeadIn(b);
    }
  }

  // ---- portable names ----

  lemma PortableResult(w: World, run: RunInput, m: map<string, string>, id: PackageID)
    requires NamedPortably(w, run) && IsUriPkgPath(Pkgs(run), m) && id in Pkgs(run)
    ensures RenameList(ApplySpec(w.host, DiskOf(run), run.filter, w.analyze(run.env, id)), CanonicalFn(m)) == Result(w, run, id)
  {
    var ds := w.analyze(run.env, id);
    var kept := ApplySpec(w.host, DiskOf(run), run.filter, ds);
    forall i | 0 <= i < |kept| ensures Rename(kept[i], CanonicalFn(m)) == Rename(kept[i], run.portable) {
      ApplyKeepsMembers(w.host, DiskOf(run), run.filter, ds, kept[i]);
      RenameSame(kept[i], CanonicalFn(m), run.portable);
    }
  }

  lemma ApplyKeepsMembers(h: Host, disk: Files, f: Option<Config>, ds: seq<Diagnostic>, d: Diagnostic)
    requires d in ApplySpec(h, disk, f, ds)
    ensures d in ds
  {
    if f.Some? { KeepSubset(DropFn(h, disk, f.value), f.value.uniqByLine, ds, {}); }
  }

  // ---- writing back ----

  /** From s to t only root entries of this run were added. */
  ghost predicate RootWrites(w: World, run: RunInput, s: State, t: State)
  {
    && t.byDep == s.byDep
    && (forall k :: k in s.store ==> k in t.store && t.store[k] == s.store[k])
    && (forall k :: k in t.store && k !in s.store ==> k !in t.byDep && WrittenForRoot(w, run, k, t.store[k]))
  }

  lemma RootWriteStep(w: World, run: RunInput, s: State, m: State, k: Digest, ds: seq<Diagnostic>)
    requires RootWrites(w, run, s, m) && s.byDep <= s.store.Keys && k !in m.store && WrittenForRoot(w, run, k, ds)
    ensures RootWrites(w, run, s, Added(m, k, ds, false))
  {
  }

  /** writeL0Entries, over the analysed packages in any order. */
  method WriteL0Entries(w: World, ghost run: RunInput, cache: L0Cache, keys: map<PackageID, Digest>,
                        byPkg: map<PackageID, seq<Diagnostic>>, analyzed: set<PackageID>)
    requires TrueKeys(w, run, keys) && analyzed <= Roots(w, run) && analyzed <= byPkg.Keys
    requires forall id :: id in analyzed ==> byPkg[id] == Result(w, run, id)
    requires cache.byDep <= cache.store.Keys
    modifies cache
    ensures RootWrites(w, run, old(cache.Abstract()), cache.Abstract()) && cache.byDep <= cache.store.Keys
    ensures cache.reliable ==> forall id :: id in analyzed && id in keys ==> keys[id] in cache.store
  {
    var todo := analyzed;
    while todo != {}
      invariant todo <= analyzed
      invariant RootWrites(w, run, old(cache.Abstract()), cache.Abstract()) && cache.byDep <= cache.store.Keys
      invariant cache.reliable ==> forall id :: id in analyzed - todo && id in keys ==> keys[id] in cache.store
      decreases todo
    {
      var id :| id in todo;
      todo := todo - {id};
      if id !in keys { continue; }
      assert WrittenForRoot(w, run, keys[id], byPkg[id]);
      if keys[id] !in cache.store {
        RootWriteStep(w, run, old(cache.Abstract()), cache.Abstract(), keys[id], byPkg[id]);
      }
      cache.Put(keys[id], Entry(id, byPkg[id]), false);
    }
  }

  /** From s to t only empty entries for the packages in ids were added. */
  ghost predicate DepWrites(w: World, run: RunInput, ids: set<PackageID>, s: State, t: State)
  {
    && (forall k :: k in s.store ==> k in t.store && t.store[k] == s.store[k] && (k in t.byDep <==> k in s.byDep))
    && (forall k :: k in t.store && k !in s.store ==>
          k in t.byDep && t.store[k] == [] && exists id :: id in ids && Key(w, run, id) == Some(k))
  }

  lemma DepWriteStep(w: World, run: RunInput, ids: set<PackageID>, s: State, m: State, k: Digest, id: PackageID)
    requires DepWrites(w, run, ids, s, m) && k !in m.store && id in ids && Key(w, run, id) == Some(k)
    ensures DepWrites(w, run, ids, s, Added(m, k, [], true))
  {
  }

  /** writeDepL0Entries, over the captured nodes in any order. */
  method WriteDepL0Entries(w: World, ghost run: RunInput, cache: L0Cache, depKeys: map<PackageID, Digest>,
                           captured: set<PackageID>, rootIDs: set<PackageID>)
    requires TrueKeys(w, run, depKeys) && cache.byDep <= cache.store.Keys
    modifies cache
    ensures DepWrites(w, run, captured * depKeys.Keys - rootIDs, old(cache.Abstract()), cache.Abstract())
    ensures cache.byDep <= cache.store.Keys
    ensures old(cache.store.Keys) <= cache.store.Keys
    ensures cache.reliable ==> forall id :: id in captured - rootIDs && id in depKeys ==> depKeys[id] in cache.store
  {
    var todo := captured;
    while todo != {}
      invariant todo <= captured
      invariant DepWrites(w, run, captured * depKeys.Keys - rootIDs, old(cache.Abstract()), cache.Abstract())
      invariant cache.byDep <= cache.store.Keys && old(cache.store.Keys) <= cache.store.Keys
      invariant cache.reliable ==> forall id :: id in captured - rootIDs - todo && id in depKeys ==> depKeys[id] in cache.store
      decreases todo
    {
      var id :| id in todo;
      todo := todo - {id};
      if id in rootIDs { continue; }
      if id !in depKeys { continue; }
      if depKeys[id] !in cache.store {
        DepWriteStep(w, run, captured * depKeys.Keys - rootIDs, old(cache.Abstract()), cache.Abstract(), depKeys[id], id);
      }
      cache.Put(depKeys[id], Entry(id, []), true);
    }
  }

  lemma DecidedKeys(w: World, run: RunInput, deps: set<PackageID>, keys: map<PackageID, Digest>)
    requires Decided(KeyFn(w, run), {}, true, deps, {}, keys)
    ensures TrueKeys(w, run, keys) && keys.Keys <= deps
    ensures forall id :: id in deps && Key(w, run, id).Some? ==> id in keys
  {
    forall id | id in deps && Key(w, run, id).Some?
      ensures id in keys
    {
      assert KeyFn(w, run)(id).Some?;
    }
  }

  /** computeAllDepKeys: the keys of the dependencies of the analysed packages. */
  method ComputeAllDepKeys(w: World, run: RunInput, lc: L0Context, analyzed: set<PackageID>) returns (depKeys: map<PackageID, Digest>)
    requires lc.sha == w.sha && lc.env == run.env && lc.Valid()
    modifies lc
    ensures TrueKeys(w, run, depKeys) && depKeys.Keys <= DepsOf(run.env.snap.graph, analyzed)
    ensures forall id :: id in DepsOf(run.env.snap.graph, analyzed) && Key(w, run, id).Some? ==> id in depKeys
  {
    var deps := CollectDepClosure(run.env.snap.graph, analyzed);
    depKeys := map[];
    var todo := deps;
    ghost var keyOf, done := KeyFn(w, run), {};
    while todo != {}
      invariant todo + done == deps && todo !! done && lc.Valid()
      invariant Decided(keyOf, {}, true, done, {}, depKeys)
      decreases todo
    {
      var id :| id in todo;
      var key := DeriveKey(w, run, lc, id);
      if key.Some? {
        DecideMiss(keyOf, {}, true, done, {}, depKeys, id, key.value);
        depKeys := depKeys[id := key.value];
      } else {
        DecideNoKey(keyOf, {}, true, done, {}, depKeys, id);
      }
      MoveOne(todo, done, deps, id);
      todo, done := todo - {id}, done + {id};
    }
    DecidedKeys(w, run, deps, depKeys);
  }

  // ---- the run ----

  /** The cold path: analyse, partition, filter, and give names their portable form. */
  method AnalyzeMisses(w: World, ghost u: set<string>, run: RunInput, filter: Filter?, pkgs: Graph, misses: set<PackageID>)
    returns (ok: bool, byPkg: map<PackageID, seq<Diagnostic>>)
    requires Admissible(w, u, run) && pkgs == Pkgs(run) && misses <= pkgs.Keys
    requires ConfigOf(filter) == run.filter && (filter != null ==> filter.h == w.host && filter.Valid(DiskOf(run)))
    modifies filter
    ensures filter != null ==> filter.Valid(DiskOf(run))
    ensures misses == {} ==> ok
    ensures ok ==> misses <= byPkg.Keys
    ensures ok ==> forall id :: id in byPkg ==> byPkg[id] == if id in misses then Result(w, run, id) else []
  {
    var uriPkg := UriPkgPathMap(pkgs);
    var found: seq<Diagnostic> := [];
    ok := true;
    if misses != {} {
      ok, found := InvokeAnalyze(w, run, pkgs, misses);
      if !ok { return false, map[]; }
    }
    ghost var owner;
    var kept;
    kept, owner := PartitionAndFilter(filter, w.host, DiskOf(run), pkgs, misses, found);
    byPkg := map id | id in kept :: RenameList(kept[id], CanonicalFn(uriPkg));
    forall id | id in byPkg ensures byPkg[id] == if id in misses then Result(w, run, id) else [] {
      BucketIsAnalysis(w, run, owner, misses, found, id);
      if id in misses { PortableResult(w, run, uriPkg, id); } else { ApplyToNothing(w.host, DiskOf(run), run.filter); }
    }
  }

  lemma ApplyToNothing(h: Host, disk: Files, f: Option<Config>)
    ensures ApplySpec(h, disk, f, []) == []
  {
  }

  ghost function ListFn(byPkg: map<PackageID, seq<Diagnostic>>): PackageID -> seq<Diagnostic>
  {
    (id: PackageID) => if id in byPkg then byPkg[id] else []
  }

  /** The final merge, over the lists in any order. */
  method Merge(cached: seq<Diagnostic>, byPkg: map<PackageID, seq<Diagnostic>>) returns (out: seq<Diagnostic>)
    ensures multiset(out) == multiset(cached) + Gather(byPkg.Keys, ListFn(byPkg))
  {
    out := cached;
    var todo := byPkg.Keys;
    while todo != {}
      invariant todo <= byPkg.Keys
      invariant multiset(out) + Gather(todo, ListFn(byPkg)) == multiset(cached) + Gather(byPkg.Keys, ListFn(byPkg))
      decreases todo
    {
      var id :| id in todo;
      GatherTake(todo, ListFn(byPkg), id);
      todo := todo - {id};
      out := out + byPkg[id];
    }
  }

  /** Merging the cold-path lists yields the results of the analysed packages. */
  lemma MergedResults(w: World, run: RunInput, byPkg: map<PackageID, seq<Diagnostic>>, misses: set<PackageID>)
    requires misses <= byPkg.Keys
    requires forall id :: id in byPkg ==> byPkg[id] == if id in misses then Result(w, run, id) else []
    ensures Gather(byPkg.Keys, ListFn(byPkg)) == Gather(misses, ResultFn(w, run))
  {
    var rest := byPkg.Keys - misses;
    assert byPkg.Keys == misses + rest;
    GatherUnion(misses, rest, ListFn(byPkg));
    GatherSame(misses, ListFn(byPkg), ResultFn(w, run));
    GatherEmpty(rest, ListFn(byPkg));
  }

  /** New keys come from the root writes or from the dependency writes that follow them. */
  lemma StepNewEntries(w: World, s: State, m: State, t: State, turn: Turn, deps: set<PackageID>)
    requires HitsStored(w, s, turn) && RootWrites(w, turn.run, s, m) && s.byDep <= s.store.Keys
    requires DepWrites(w, turn.run, deps, m, t) && deps <= turn.captured * DepsOf(turn.run.env.snap.graph, Misses(w, turn))
    ensures Grows(s, t) && NewEntries(w, s, turn, t)
  {
    forall k | k in t.store && k !in s.store
      ensures if k in t.byDep then t.store[k] == [] && WrittenForDep(w, turn, k) else WrittenForRoot(w, turn.run, k, t.store[k])
    {
      if k !in m.store {
        var id :| id in deps && Key(w, turn.run, id) == Some(k);
        assert id !in turn.hits;
        assert id in DepsMet(w, turn.run, Misses(w, turn));
      }
    }
  }

  lemma StepComplete(w: World, s: State, m: State, t: State, turn: Turn, keys: map<PackageID, Digest>, cached: seq<Diagnostic>)
    requires SplitSoFar(w, turn.run, s, true, Roots(w, turn.run), turn.hits, keys, cached)
    requires RootWrites(w, turn.run, s, m) && Grows(m, t)
    requires forall id :: id in Misses(w, turn) && id in keys ==> keys[id] in m.store
    requires forall id :: id in turn.captured && id in DepsMet(w, turn.run, Misses(w, turn)) && Key(w, turn.run, id).Some? ==>
               Key(w, turn.run, id).value in t.store
    ensures Complete(w, s, turn, t)
  {
    forall id | id in Roots(w, turn.run) && Key(w, turn.run, id).Some?
      ensures Key(w, turn.run, id).value in t.store && (Key(w, turn.run, id).value in s.store ==> id in turn.hits)
    {
      assert KeyFn(w, turn.run)(id).Some?;
    }
  }

  /** The pieces of a cached run add up to one step of the protocol. */
  lemma StepAssembled(w: World, s: State, m: State, t: State, turn: Turn, keys: map<PackageID, Digest>, cached: seq<Diagnostic>, deps: set<PackageID>)
    requires SplitSoFar(w, turn.run, s, turn.reliable, Roots(w, turn.run), turn.hits, keys, cached)
    requires RootWrites(w, turn.run, s, m) && s.byDep <= s.store.Keys
    requires DepWrites(w, turn.run, deps, m, t) && deps <= turn.captured * DepsOf(turn.run.env.snap.graph, Misses(w, turn))
    requires turn.out == multiset(cached) + Gather(Misses(w, turn), ResultFn(w, turn.run))
    requires turn.reliable ==> forall id :: id in Misses(w, turn) && id in keys ==> keys[id] in m.store
    requires turn.reliable ==> forall id :: id in turn.captured && id in DepsMet(w, turn.run, Misses(w, turn)) && Key(w, turn.run, id).Some? ==>
               Key(w, turn.run, id).value in t.store
    ensures RunStep(w, s, turn, t)
  {
    SplitHits(w, s, turn, keys, cached);
    StepNewEntries(w, s, m, t, turn, deps);
    if turn.reliable {
      StepComplete(w, s, m, t, turn, keys, cached);
    }
  }

  lemma SplitHits(w: World, s: State, turn: Turn, keys: map<PackageID, Digest>, cached: seq<Diagnostic>)
    requires SplitSoFar(w, turn.run, s, turn.reliable, Roots(w, turn.run), turn.hits, keys, cached)
    ensures HitsStored(w, s, turn)
  {
    forall id | id in turn.hits
      ensures Key(w, turn.run, id).Some? && Key(w, turn.run, id).value in s.store
    {
      assert KeyFn(w, turn.run)(id) == Some(keys[id]);
    }
  }

  /** Dependency entries, when the capture callback saw anything. */
  method WriteDeps(w: World, run: RunInput, cache: L0Cache, lc: L0Context?, captured: set<PackageID>, misses: set<PackageID>)
      returns (ghost deps: set<PackageID>)
    requires lc != null ==> lc.sha == w.sha && lc.env == run.env && lc.Valid()
    requires cache.byDep <= cache.store.Keys && (cache.reliable ==> lc != null)
    modifies cache, lc
    ensures deps <= captured * DepsOf(run.env.snap.graph, misses)
    ensures DepWrites(w, run, deps, old(cache.Abstract()), cache.Abstract()) && cache.byDep <= cache.store.Keys
    ensures cache.reliable ==> forall id :: id in captured && id in DepsOf(run.env.snap.graph, misses) && Key(w, run, id).Some? ==>
              Key(w, run, id).value in cache.store
  {
    deps := {};
    if lc == null || misses == {} {
      NoRootsNoDeps(run.env.snap.graph);
      return;
    }
    var depKeys := ComputeAllDepKeys(w, run, lc, misses);
    WriteDepL0Entries(w, run, cache, depKeys, captured, misses);
    deps := captured * depKeys.Keys - misses;
    CapturedStored(w, run, depKeys, captured, misses, cache.store.Keys, cache.reliable);
  }

  lemma NoRootsNoDeps(g: Graph)
    ensures DepsOf(g, {}) == {}
  {
  }

  lemma CapturedStored(w: World, run: RunInput, depKeys: map<PackageID, Digest>, captured: set<PackageID>, misses: set<PackageID>,
                       stored: set<Digest>, reliable: bool)
    requires TrueKeys(w, run, depKeys)
    requires forall id :: id in DepsOf(run.env.snap.graph, misses) && Key(w, run, id).Some? ==> id in depKeys
    requires reliable ==> forall id :: id in captured - misses && id in depKeys ==> depKeys[id] in stored
    ensures reliable ==> forall id :: id in captured && id in DepsOf(run.env.snap.graph, misses) && Key(w, run, id).Some? ==>
              Key(w, run, id).value in stored
  {
  }

  /** The writes that follow an analysis: first for the roots, then for captured dependencies. */
  method WriteResults(w: World, run: RunInput, cache: L0Cache, keys: map<PackageID, Digest>, byPkg: map<PackageID, seq<Diagnostic>>,
                      lc: L0Context?, captured: set<PackageID>, misses: set<PackageID>)
      returns (ghost m: State, ghost deps: set<PackageID>)
    requires TrueKeys(w, run, keys) && misses <= Roots(w, run) && misses <= byPkg.Keys
    requires forall id :: id in misses ==> byPkg[id] == Result(w, run, id)
    requires lc != null ==> lc.sha == w.sha && lc.env == run.env && lc.Valid()
    requires cache.byDep <= cache.store.Keys && (cache.reliable ==> lc != null)
    modifies cache, lc
    ensures RootWrites(w, run, old(cache.Abstract()), m) && DepWrites(w, run, deps, m, cache.Abstract())
    ensures deps <= captured * DepsOf(run.env.snap.graph, misses) && cache.byDep <= cache.store.Keys
    ensures cache.reliable ==> forall id :: id in misses && id in keys ==> keys[id] in m.store
    ensures cache.reliable ==> forall id :: id in captured && id in DepsOf(run.env.snap.graph, misses) && Key(w, run, id).Some? ==>
              Key(w, run, id).value in cache.store
  {
    WriteL0Entries(w, run, cache, keys, byPkg, misses);
    m := cache.Abstract();
    deps := WriteDeps(w, run, cache, lc, captured, misses);
  }

  /** The cached path of runInProcess, once the roots are known. */
  method RunWithCache(w: World, ghost u: set<string>, run: RunInput, filter: Filter?, cache: L0Cache,
                      pkgs: Graph, roots: set<PackageID>, captured: set<PackageID>)
    returns (ok: bool, out: seq<Diagnostic>, hits: set<PackageID>)
    requires Admissible(w, u, run) && pkgs == Pkgs(run) && roots == Roots(w, run)
    requires ConfigOf(filter) == run.filter && (filter != null ==> filter.h == w.host && filter.Valid(DiskOf(run)))
    requires cache.byDep <= cache.store.Keys
    modifies filter, cache
    ensures if ok then RunStep(w, old(cache.Abstract()), Turn(run, multiset(out), hits, captured, cache.reliable), cache.Abstract())
            else out == [] && cache.Abstract() == old(cache.Abstract())
    ensures cache.byDep <= cache.store.Keys
  {
    ghost var s := cache.Abstract();
    var keys, cached, lc;
    hits, keys, cached, lc := SplitByL0(w, run, cache, roots);
    var misses := roots - hits;
    var byPkg;
    ok, byPkg := AnalyzeMisses(w, u, run, filter, pkgs, misses);
    assert cache.Abstract() == s;
    if !ok { return false, [], hits; }
    ghost var m, deps := WriteResults(w, run, cache, keys, byPkg, lc, captured, misses);
    out := Merge(cached, byPkg);
    MergedResults(w, run, byPkg, misses);
    StepAssembled(w, s, m, cache.Abstract(), Turn(run, multiset(out), hits, captured, cache.reliable), keys, cached, deps);
  }

  /**
   * runInProcess.  Without a cache the run reports the uncached diagnostics; with
   * one it takes exactly one step of the cache protocol.  When the analysis fails
   * it reports nothing and leaves the cache alone.
   */
  method RunInProcess(w: World, ghost u: set<string>, run: RunInput, filter: Filter?, cache: L0Cache?, captured: set<PackageID>)
    returns (ok: bool, out: seq<Diagnostic>, hits: set<PackageID>)
    requires Admissible(w, u, run)
    requires ConfigOf(filter) == run.filter && (filter != null ==> filter.h == w.host && filter.Valid(DiskOf(run)))
    requires cache != null ==> cache.byDep <= cache.store.Keys
    modifies filter, cache
    ensures cache == null ==> hits == {} && multiset(out) == if ok then Uncached(w, run) else multiset{}
    ensures cache != null && ok ==>
      RunStep(w, old(cache.Abstract()), Turn(run, multiset(out), hits, captured, cache.reliable), cache.Abstract())
    ensures cache != null && !ok ==> out == [] && cache.Abstract() == old(cache.Abstract())
    ensures cache != null ==> cache.byDep <= cache.store.Keys
  {
    var pkgs := DropTestSuperseded(run.ws);
    var roots := PruneExcludedRoots(filter, w.host, DiskOf(run), pkgs);
    assert roots == Roots(w, run);
    if cache != null {
      assert cache.Abstract() == old(cache.Abstract());
      ok, out, hits := RunWithCache(w, u, run, filter, cache, pkgs, roots, captured);
    } else {
      hits := {};
      var byPkg;
      ok, byPkg := AnalyzeMisses(w, u, run, filter, pkgs, roots);
      if !ok { return false, [], {}; }
      out := Merge([], byPkg);
      MergedResults(w, run, byPkg, roots);
    }
  }
}
