// partitionAndFilter (internal/engine/engine.go): the analyzer's flat list is
// cut into one bucket per analysed package plus an ownerless one, and each
// bucket is streamed through the filter.

module Partition {
  import opened Strings
  import opened DepClosure
  import opened Diagnostics
  import opened Suppression
  import opened Exclusion
  import opened FilterObjects
  import opened Gathering

  // ---- file ownership ----

  /** owner names, for every compiled file of pkgs, some package compiling it. */
  ghost predicate IsOwnerMap(pkgs: Graph, owner: map<string, PackageID>)
  {
    && (forall u :: u in owner ==> owner[u] in pkgs && u in pkgs[owner[u]].compiledGoFiles)
    && (forall id, u :: id in pkgs && u in pkgs[id].compiledGoFiles ==> u in owner)
  }

  /** uriPkgMap, over the packages in any order; first write wins. */
  method UriPkgMap(pkgs: Graph) returns (owner: map<string, PackageID>)
    ensures IsOwnerMap(pkgs, owner)
  {
    owner := map[];
    var todo := pkgs.Keys;
    while todo != {}
      invariant todo <= pkgs.Keys
      invariant forall u :: u in owner ==> owner[u] in pkgs && u in pkgs[owner[u]].compiledGoFiles
      invariant forall id, u :: id in pkgs && id !in todo && u in pkgs[id].compiledGoFiles ==> u in owner
      decreases todo
    {
      var id :| id in todo;
      todo := todo - {id};
      var files := pkgs[id].compiledGoFiles;
      ghost var before := owner;
      for i := 0 to |files|
        invariant before.Keys <= owner.Keys
        invariant forall u :: u in owner ==> owner[u] in pkgs && u in pkgs[owner[u]].compiledGoFiles
        invariant forall j :: 0 <= j < i ==> files[j] in owner
      {
        if files[i] !in owner { owner := owner[files[i] := id]; }
      }
    }
  }

  /** The bucket a file's diagnostics go to; "" is the ownerless one. */
  function BucketOf(owner: map<string, PackageID>, analyzed: set<PackageID>, file: string): PackageID
  {
    if file in owner && owner[file] in analyzed then owner[file] else ""
  }

  function BucketFn(owner: map<string, PackageID>, analyzed: set<PackageID>, id: PackageID): string -> bool
  {
    (file: string) => BucketOf(owner, analyzed, file) == id
  }

  function Bucket(owner: map<string, PackageID>, analyzed: set<PackageID>, found: seq<Diagnostic>, id: PackageID): seq<Diagnostic>
  {
    InClass(found, BucketFn(owner, analyzed, id))
  }

  // ---- grouping ----

  function BucketIn(raw: map<PackageID, seq<Diagnostic>>, id: PackageID): seq<Diagnostic>
  {
    if id in raw then raw[id] else []
  }

  lemma BucketSnoc(owner: map<string, PackageID>, analyzed: set<PackageID>, found: seq<Diagnostic>, d: Diagnostic, id: PackageID)
    ensures Bucket(owner, analyzed, found + [d], id) ==
            Bucket(owner, analyzed, found, id) + if BucketOf(owner, analyzed, d.pos.filename) == id then [d] else []
  {
    var c := BucketFn(owner, analyzed, id);
    InClassAppend(found, [d], c);
    assert InClass([d], c) == if c(d.pos.filename) then [d] else [] by { assert [d][1..] == []; }
  }

  method Group(owner: map<string, PackageID>, analyzed: set<PackageID>, found: seq<Diagnostic>)
    returns (raw: map<PackageID, seq<Diagnostic>>)
    ensures forall id :: BucketIn(raw, id) == Bucket(owner, analyzed, found, id)
  {
    raw := map[];
    for i := 0 to |found|
      invariant forall id :: BucketIn(raw, id) == Bucket(owner, analyzed, found[..i], id)
    {
      var d := found[i];
      var dest := if d.pos.filename !in owner then "" else if owner[d.pos.filename] !in analyzed then "" else owner[d.pos.filename];
      ghost var before := raw;
      raw := raw[dest := BucketIn(raw, dest) + [d]];
      forall id ensures BucketIn(raw, id) == Bucket(owner, analyzed, found[..i + 1], id) {
        assert found[..i] + [d] == found[..i + 1];
        BucketSnoc(owner, analyzed, found[..i], d, id);
        assert BucketIn(before, id) == Bucket(owner, analyzed, found[..i], id);
      }
    }
    assert found[..|found|] == found;
  }

  // ---- streaming one bucket does not disturb another ----

  /** Nothing in seen concerns the class c. */
  ghost predicate Untouched(c: string -> bool, seen: set<FileLine>)
  {
    forall k: FileLine :: k in seen ==> !c(k.0)
  }

  /** A stream only claims lines of the files it was given. */
  lemma {:induction false} ClaimsOwnFiles(drop: Diagnostic -> bool, uniq: bool, ds: seq<Diagnostic>, seen: set<FileLine>)
    ensures forall k :: k in Keep(drop, uniq, ds, seen).seen ==> k in seen || exists d :: d in ds && LineOf(d) == k
    decreases ds
  {
    if ds != [] {
      ClaimsOwnFiles(drop, uniq, ds[1..], seen);
      ClaimsOwnFiles(drop, uniq, ds[1..], if uniq then seen + {LineOf(ds[0])} else seen);
      assert ds[0] in ds;
    }
  }

  /** On a class nothing has been claimed in, the stream behaves like a found one. */
  lemma StreamLocal(h: Host, disk: Files, f: Option<Config>, ds: seq<Diagnostic>, c: string -> bool, seen: set<FileLine>)
    requires f.Some? ==> f.value.generatedMode != ""
    requires (forall d :: d in ds ==> c(d.pos.filename)) && Untouched(c, seen)
    ensures StreamSpec(h, disk, f, ds, seen).out == ApplySpec(h, disk, f, ds)
  {
    if f.Some? && !StreamNoOp(f.value) {
      var drop, uniq := DropFn(h, disk, f.value), f.value.uniqByLine;
      KeepInClass(drop, uniq, ds, c, seen, {});
      InClassAll(ds, c);
      KeepSubset(drop, uniq, ds, seen);
      InClassAll(Keep(drop, uniq, ds, seen).out, c);
    }
  }

  lemma StreamStaysUntouched(h: Host, disk: Files, f: Option<Config>, ds: seq<Diagnostic>, c: string -> bool, seen: set<FileLine>)
    requires (forall d :: d in ds ==> !c(d.pos.filename)) && Untouched(c, seen)
    ensures Untouched(c, StreamSpec(h, disk, f, ds, seen).seen)
  {
    if f.Some? && !StreamNoOp(f.value) {
      ClaimsOwnFiles(DropFn(h, disk, f.value), f.value.uniqByLine, ds, seen);
    }
  }

  /** A diagnostic lands in exactly one bucket, and buckets share no file. */
  lemma BucketsDisjoint(owner: map<string, PackageID>, analyzed: set<PackageID>, found: seq<Diagnostic>, d: Diagnostic)
    requires d in found
    ensures d in Bucket(owner, analyzed, found, BucketOf(owner, analyzed, d.pos.filename))
    ensures forall id, e :: e in Bucket(owner, analyzed, found, id) && e.pos.filename == d.pos.filename ==>
              id == BucketOf(owner, analyzed, d.pos.filename)
  {
  }

  function ConfigOf(filter: Filter?): Option<Config>
  {
    if filter == null then None else Some(filter.cfg)
  }

  /** None of the buckets in ids has had a line claimed. */
  ghost predicate AllUntouched(owner: map<string, PackageID>, analyzed: set<PackageID>, ids: set<PackageID>, seen: set<FileLine>)
  {
    forall id :: id in ids ==> Untouched(BucketFn(owner, analyzed, id), seen)
  }

  lemma StreamOneBucket(h: Host, disk: Files, f: Option<Config>, owner: map<string, PackageID>, analyzed: set<PackageID>,
                        found: seq<Diagnostic>, id: PackageID, ids: set<PackageID>, seen: set<FileLine>)
    requires f.Some? ==> f.value.generatedMode != ""
    requires id in ids && AllUntouched(owner, analyzed, ids, seen)
    ensures var k := StreamSpec(h, disk, f, Bucket(owner, analyzed, found, id), seen);
            k.out == ApplySpec(h, disk, f, Bucket(owner, analyzed, found, id))
            && AllUntouched(owner, analyzed, ids - {id}, k.seen)
  {
    var batch := Bucket(owner, analyzed, found, id);
    StreamLocal(h, disk, f, batch, BucketFn(owner, analyzed, id), seen);
    forall other | other in ids - {id}
      ensures Untouched(BucketFn(owner, analyzed, other), StreamSpec(h, disk, f, batch, seen).seen)
    {
      StreamStaysUntouched(h, disk, f, batch, BucketFn(owner, analyzed, other), seen);
    }
  }

  ghost predicate StreamReady(stream: Stream?, filter: Filter?, h: Host, disk: Files, claimed: set<FileLine>)
    reads stream, filter
  {
    && (stream == null <==> filter == null)
    && (stream != null ==> stream.f == filter && filter.h == h && stream.Open() && stream.Seen() == claimed && filter.Valid(disk))
  }

  /** AddPackage on a possibly nil stream. */
  method AddTo(stream: Stream?, filter: Filter?, h: Host, disk: Files, batch: seq<Diagnostic>, ghost claimed: set<FileLine>)
    returns (kept: seq<Diagnostic>)
    requires StreamReady(stream, filter, h, disk, claimed)
    modifies stream, filter
    ensures kept == StreamSpec(h, disk, ConfigOf(filter), batch, claimed).out
    ensures StreamReady(stream, filter, h, disk, StreamSpec(h, disk, ConfigOf(filter), batch, claimed).seen)
  {
    if stream == null { return batch; }
    kept := stream.AddPackage(disk, batch);
  }

  /** The streaming loop over the analysed packages, in any order. */
  method StreamBuckets(stream: Stream?, filter: Filter?, h: Host, disk: Files, ghost owner: map<string, PackageID>,
                       analyzed: set<PackageID>, ghost found: seq<Diagnostic>, raw: map<PackageID, seq<Diagnostic>>)
    returns (byPkg: map<PackageID, seq<Diagnostic>>, ghost claimed: set<FileLine>)
    requires filter != null ==> filter.cfg.generatedMode != ""
    requires StreamReady(stream, filter, h, disk, {}) && "" !in analyzed
    requires forall id :: BucketIn(raw, id) == Bucket(owner, analyzed, found, id)
    modifies stream, filter
    ensures StreamReady(stream, filter, h, disk, claimed)
    ensures byPkg.Keys == analyzed && AllUntouched(owner, analyzed, {""}, claimed)
    ensures forall id :: id in analyzed ==>
      byPkg[id] == ApplySpec(h, disk, ConfigOf(filter), Bucket(owner, analyzed, found, id))
  {
    ghost var f := ConfigOf(filter);
    byPkg := map[];
    claimed := {};
    var todo := analyzed;
    while todo != {}
      invariant todo <= analyzed && byPkg.Keys == analyzed - todo
      invariant StreamReady(stream, filter, h, disk, claimed)
      invariant AllUntouched(owner, analyzed, todo + {""}, claimed)
      invariant forall id :: id in analyzed - todo ==>
        byPkg[id] == ApplySpec(h, disk, f, Bucket(owner, analyzed, found, id))
      decreases todo
    {
      var id :| id in todo;
      StreamOneBucket(h, disk, f, owner, analyzed, found, id, todo + {""}, claimed);
      assert todo + {""} - {id} == todo - {id} + {""};
      todo := todo - {id};
      var kept := AddTo(stream, filter, h, disk, BucketIn(raw, id), claimed);
      claimed := StreamSpec(h, disk, f, BucketIn(raw, id), claimed).seen;
      byPkg := byPkg[id := kept];
    }
  }

  /**
   * partitionAndFilter.  For every order in which packages are visited, each
   * package's list is what Apply gives on that package's bucket alone.
   */
  method PartitionAndFilter(filter: Filter?, h: Host, disk: Files, allPkgs: Graph, analyzed: set<PackageID>, found: seq<Diagnostic>)
    returns (byPkg: map<PackageID, seq<Diagnostic>>, ghost owner: map<string, PackageID>)
    requires filter != null ==> filter.h == h && filter.Valid(disk) && filter.cfg.generatedMode != ""
    requires "" !in analyzed
    modifies filter
    ensures filter != null ==> filter.Valid(disk)
    ensures IsOwnerMap(allPkgs, owner)
    ensures forall id :: id in analyzed ==>
      id in byPkg && byPkg[id] == ApplySpec(h, disk, ConfigOf(filter), Bucket(owner, analyzed, found, id))
    ensures forall id :: id in byPkg && id !in analyzed ==>
      id == "" && byPkg[id] == ApplySpec(h, disk, ConfigOf(filter), Bucket(owner, analyzed, found, ""))
    ensures Bucket(owner, analyzed, found, "") != [] ==> "" in byPkg
  {
    var owned := UriPkgMap(allPkgs);
    owner := owned;
    if |found| == 0 {
      byPkg := map id | id in analyzed :: [];
      return;
    }
    var raw := Group(owned, analyzed, found);
    var stream: Stream? := null;
    if filter != null { stream := new Stream(filter); }
    ghost var claimed;
    byPkg, claimed := StreamBuckets(stream, filter, h, disk, owned, analyzed, found, raw);
    var owls := BucketIn(raw, "");
    if "" in raw && |owls| > 0 {
      StreamOneBucket(h, disk, ConfigOf(filter), owned, analyzed, found, "", {""}, claimed);
      var kept := AddTo(stream, filter, h, disk, owls, claimed);
      byPkg := byPkg["" := kept];
    }
    if stream != null { stream.Finish(); }
  }

  // ---- nothing is lost ----

  function KeptFn(h: Host, disk: Files, f: Option<Config>, owner: map<string, PackageID>, analyzed: set<PackageID>, found: seq<Diagnostic>):
    PackageID -> seq<Diagnostic>
  {
    (id: PackageID) => ApplySpec(h, disk, f, Bucket(owner, analyzed, found, id))
  }

  /** Filtering one bucket is taking that bucket out of the filtered whole. */
  lemma KeptIsClass(h: Host, disk: Files, f: Option<Config>, owner: map<string, PackageID>, analyzed: set<PackageID>, found: seq<Diagnostic>, id: PackageID)
    ensures ApplySpec(h, disk, f, Bucket(owner, analyzed, found, id)) == Bucket(owner, analyzed, ApplySpec(h, disk, f, found), id)
  {
    if f.Some? && !BatchNoOp(f.value) {
      KeepInClass(DropFn(h, disk, f.value), f.value.uniqByLine, found, BucketFn(owner, analyzed, id), {}, {});
    }
  }

  /**
   * Taken together, the filtered buckets are exactly what one batch pass over
   * the analyzer's flat list keeps.
   */
  lemma PartitionLosesNothing(h: Host, disk: Files, f: Option<Config>, owner: map<string, PackageID>, analyzed: set<PackageID>, found: seq<Diagnostic>)
    ensures Gather(analyzed + {""}, KeptFn(h, disk, f, owner, analyzed, found)) == multiset(ApplySpec(h, disk, f, found))
  {
    var whole := ApplySpec(h, disk, f, found);
    var bucket := (file: string) => BucketOf(owner, analyzed, file);
    forall id | id in analyzed + {""}
      ensures KeptFn(h, disk, f, owner, analyzed, found)(id) == ClassFn(whole, bucket)(id)
    {
      KeptIsClass(h, disk, f, owner, analyzed, found, id);
      InClassSame(whole, BucketFn(owner, analyzed, id), file => bucket(file) == id);
    }
    GatherSame(analyzed + {""}, KeptFn(h, disk, f, owner, analyzed, found), ClassFn(whole, bucket));
    GatherClasses(analyzed + {""}, whole, bucket);
    InClassAll(whole, file => bucket(file) in analyzed + {""});
  }
}
