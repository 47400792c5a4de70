// What a run without a cache reports, finding by finding.

module RunLaws {
  import opened Strings
  import opened DepClosure
  import opened KeyLaws
  import opened Diagnostics
  import opened Suppression
  import opened Exclusion
  import opened FilterLaws
  import opened Filenames
  import opened Gathering
  import opened RunModel
  import CacheProtocol

  /** A loaded package, other than a plain one that comes with an in-package test variant. */
  ghost predicate Analysed(ws: Graph, id: PackageID)
  {
    && id in ws
    && (ws[id].forTest == "" ==>
          !exists j :: j in ws && ws[j].forTest == ws[j].pkgPath == ws[id].pkgPath && ws[j].forTest != "")
  }

  lemma AnalysedExactly(run: RunInput, id: PackageID)
    ensures id in Pkgs(run) <==> Analysed(run.ws, id)
  {
    if j :| j in run.ws && id in run.ws && run.ws[j].forTest == run.ws[j].pkgPath == run.ws[id].pkgPath && run.ws[j].forTest != "" {
      assert HasTestVariant(run.ws, run.ws[id].pkgPath);
    }
  }

  /** The filter has no use for the file, whatever is found in it. */
  ghost predicate Unwanted(w: World, run: RunInput, f: Config, file: string)
  {
    file != "" && exists rel :: SeenAs(w.host, f.basePath, file, rel) && FileUnwanted(w.host, run.env.snap.files, f, file, rel)
  }

  /** The roots are the analysed packages except those with files that are all unwanted. */
  lemma RootsExactly(w: World, run: RunInput, id: PackageID)
    ensures id in Roots(w, run) <==>
      && Analysed(run.ws, id)
      && (run.filter.None? || run.ws[id].compiledGoFiles == []
          || exists file :: file in run.ws[id].compiledGoFiles && !Unwanted(w, run, run.filter.value, file))
  {
    AnalysedExactly(run, id);
    if run.filter.Some? && id in run.ws {
      var f, files := run.filter.value, run.ws[id].compiledGoFiles;
      forall file
        ensures ExcludesFile(w.host, DiskOf(run), f, file) <==> Unwanted(w, run, f, file)
      {
        UnwantedExactly(w, run, f, file);
      }
      if file :| file in files && !Unwanted(w, run, f, file) {
        var i :| 0 <= i < |files| && files[i] == file;
      }
    }
  }

  lemma UnwantedExactly(w: World, run: RunInput, f: Config, file: string)
    ensures ExcludesFile(w.host, DiskOf(run), f, file) <==> Unwanted(w, run, f, file)
  {
    forall rel | SeenAs(w.host, f.basePath, file, rel)
      ensures ExcludesFile(w.host, DiskOf(run), f, file) <==> file != "" && FileUnwanted(w.host, DiskOf(run), f, file, rel)
    {
      ExcludedExactly(w.host, DiskOf(run), f, file, rel);
    }
    SeenExactly(w.host, f, file, RelativePath(w.host, f, file));
  }

  /** A run meets a package only as a dependency exactly when some root needs it and it is no root itself. */
  lemma DepsOnlyExactly(w: World, run: RunInput, id: PackageID)
    ensures id in CacheProtocol.DepsOnly(w, run) <==>
            id !in Roots(w, run) && exists r :: r in Roots(w, run) && Needs(run.env.snap.graph, r, id)
  {
    forall r
      ensures Needs(run.env.snap.graph, r, id) <==> id in Closure(run.env.snap.graph, r)
    {
      NeedsIsClosure(run.env.snap.graph, r, id);
    }
  }

  /** The filter lets the package's k-th finding through. */
  ghost predicate Passes(w: World, run: RunInput, ds: seq<Diagnostic>, k: nat)
    requires k < |ds|
  {
    run.filter.Some? && run.filter.value != Idle(run.filter.value.basePath) ==>
      FirstOfLine(DropFn(w.host, run.env.snap.files, run.filter.value), run.filter.value.uniqByLine, ds, k)
  }

  /** Some finding of the package passes, and d is that finding under portable names. */
  ghost predicate Reports(w: World, run: RunInput, id: PackageID, d: Diagnostic)
  {
    var ds := w.analyze(run.env, id);
    exists k :: 0 <= k < |ds| && Passes(w, run, ds, k) && RenamedBy(ds[k], d, run.portable)
  }

  lemma PassedExactly(w: World, run: RunInput, ds: seq<Diagnostic>, d: Diagnostic)
    ensures d in ApplySpec(w.host, DiskOf(run), run.filter, ds) <==> exists k :: 0 <= k < |ds| && ds[k] == d && Passes(w, run, ds, k)
  {
    match run.filter
    case None =>
      assert forall k :: 0 <= k < |ds| ==> Passes(w, run, ds, k);
    case Some(f) =>
      AppliedMeans(w.host, DiskOf(run), f, ds, d);
      assert forall k :: 0 <= k < |ds| ==>
        (Passes(w, run, ds, k) <==> f == Idle(f.basePath) || FirstOfLine(DropFn(w.host, DiskOf(run), f), f.uniqByLine, ds, k));
  }

  lemma ResultExactly(w: World, run: RunInput, id: PackageID, d: Diagnostic)
    ensures d in Result(w, run, id) <==> Reports(w, run, id, d)
  {
    var ds := w.analyze(run.env, id);
    var passed := ApplySpec(w.host, DiskOf(run), run.filter, ds);
    if d in Result(w, run, id) {
      var p :| 0 <= p < |passed| && Result(w, run, id)[p] == d;
      PassedExactly(w, run, ds, passed[p]);
      RenamedExactly(passed[p], d, run.portable);
    }
    if k :| 0 <= k < |ds| && Passes(w, run, ds, k) && RenamedBy(ds[k], d, run.portable) {
      PassedExactly(w, run, ds, ds[k]);
      RenamedExactly(ds[k], d, run.portable);
      var p :| 0 <= p < |passed| && passed[p] == ds[k];
      assert Result(w, run, id)[p] == d;
    }
  }

  /** A run reports exactly the passing findings of the analysed packages, whichever roots are pruned before. */
  lemma ReportedExactly(w: World, run: RunInput, d: Diagnostic)
    requires OwnFilesOnly(w, run)
    ensures d in Uncached(w, run) <==> exists id :: Analysed(run.ws, id) && Reports(w, run, id, d)
  {
    PruningInvisible(w, run);
    GatherMember(Pkgs(run).Keys, ResultFn(w, run), d);
    forall id
      ensures id in Pkgs(run).Keys && d in ResultFn(w, run)(id) <==> Analysed(run.ws, id) && Reports(w, run, id, d)
    {
      AnalysedExactly(run, id);
      ResultExactly(w, run, id, d);
    }
  }
}
