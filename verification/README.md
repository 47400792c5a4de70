# plaid-lint, verified core

plaid-lint runs Go analyzers over a module and remembers, per package, what they
reported. This project models the parts that decide whether that memory can be
trusted, and proves what the program promises about them:

- **the L0 diagnostic cache** as a protocol over whole histories of runs and
  edits: key derivation, lookup, analysis of the misses, first-writer-wins
  stores for analysed packages and for their dependencies;
- **the diagnostic filter**: batch and streaming forms with their memo tables,
  `//nolint` ranges, uniq-by-line, the digest of a filter, per-package filtering;
- **the on-disk cache**: multi-writer publication, the version stamp across
  crashes, the binary envelope and canonical JSON;
- **names and configuration**: portable file names and back, configuration salts;
- **smaller kernels**: edit distance and spelling suggestions, pairing of two
  diagnostic lists, `**` globs, the search for IR producers.

`dafny verify dfyconfig.toml` checks everything.

## How the model is built

A Go string is a Dafny `string` with one character per byte. Code that updates
things in place is a class, an array or a loop; code that only computes is a
function. Iteration over a Go map is a loop that picks an arbitrary remaining
key, so every result about such a loop holds for every iteration order. A system
call or cache operation that may fail succeeds or fails arbitrarily.

SHA-256 is a parameter. Where the program relies on it being collision free, the
hypothesis is `CollisionFree(sha, u)` for a finite set `u` that holds every byte
string hashed in the history; no hash is injective on all strings. Library code
(regular expressions, the Go parser, `filepath.Match`, `json.Marshal` of a
string, the analyzer driver) appears as function-valued parameters.

`RunModel.Admissible` lists what the main theorem assumes of each run: packages
are filed under their own IDs; no two analysed packages share a compiled file; a
package's findings lie in its own compiled files; base names are unique within a
package. Runs may lie in different checkouts: base paths and absolute file names
may differ, as long as every file has the same module-relative path in all runs.
Every name a finding mentions, related and edit positions included, is given the
portable name the run assigns to that file. Findings, so renamed, depend only on
the package's files, the files of the packages it needs through any chain of
imports, the analyzers and the versions (`RunModel.AnalyzerLocal`). The filter is one that
configuration validation lets through, has no expression spelled like the nil
marker, and has tokens that belong to it alone (`FilterTokens.Unambiguous`).
`Scenario` exhibits runs that meet all of it.

### Laws in plain terms

The methods are proved against specification functions. So that these functions say
what is meant, `KeyLaws`, `FilterLaws`, `RunLaws` and parts of `Suppression`,
`Filenames`, `Compare` and `CanonicalJson` restate them without using them: a key by
the packages that import chains lead to and the contents of their files; a drop by
file names, lines, patterns and linter names; a filtered list by the files and lines
of its diagnostics; a renaming position by position; a comparison by file, line,
linter and message; canonical bytes by a reader of JSON that returns the value; and
the output of a run by the findings that pass. The main theorem's assumption about
analyzers, `RunModel.AnalyzerLocal`, is in that plain form.

### Where the code does not do what it says

- A dependency's L0 entry carries no diagnostics but sits under the same key as
  the entry the package gets when it is a root. While a package has an in-package
  test variant, its plain variant is superseded and met only as a dependency. Once
  the test file is deleted, or tests are switched off, the plain variant is a root
  under that same key and filter digest, and its findings are lost.
  `Scenario.LoseFinding` is such a pair of runs through `Engine.RunInProcess`, with
  a built filter and a cache that never fails. `CacheProtocol.InvisibleExactly` says
  exactly which sequences of runs and edits are safe when reads and writes may fail,
  `FailureFree.ReliablyInvisibleExactly` which are safe when none does, whatever is
  captured, `FullCapture.FullyInvisibleExactly` which are safe when none does and
  everything analysed is captured,
  `CacheProtocol.TransparentExactly` when a single run is unaffected, and
  `CacheProtocol.CacheIsInvisible` that stable root sets suffice.
- A comment in `depHashOf` says a dependency without metadata makes the key
  underivable. The walk skips such dependencies first, so they have no influence
  on the key at all (`L0Keys.MissingMetadataInvisible`).
- The tokens behind `ConfigDigest` are not self-delimiting. Among the filters the
  program accepts, the tokens of one belong to it alone if and only if no path
  pattern is spelled "paths-except", no tail of the path-except patterns reads as
  rules, and no source expression is spelled "rules" where the linters up to it
  could be patterns (`FilterDigest.DeterminedExactly`). Every filter that fails one
  of these has an accepted partner with the same tokens
  (`FilterDigest.SeparatorInPaths`, `SeparatorInExcept`, `PatternsAreRules`,
  `SourceIsMarker`). Beyond that, the digest ignores the base path and cannot tell
  an absent expression from the nil marker (`FilterDigest.FoldedTokens`,
  `FilterDigest.NilCollides`). `FilterDigest.CollisionChangesDecision` gives two
  accepted configurations with one digest of which one drops what the other keeps.
- The batch and the streaming filter use different tests for "nothing to do".
  They differ exactly for a filter whose generated-file mode is the empty string
  and that has no other active stage; `NewFilter` never builds one
  (`Exclusion.NoOpTestsAgree`, `Exclusion.BuiltFilterStreams`).
- Two writers that draw the same random suffix can truncate an entry that is
  already published (`Publish.SharedNameDestroys`).
- A package path whose files lie in two directories does not survive the file
  name round trip (`Filenames.TwoDirectoriesMisplace`).
- The version stamp is not safe under processes that overlap. File operation by file
  operation, over every interleaving, it vouches for all entries if and only if every
  write is made under the writer's own stamp and no write that stays falls between
  another process's removal of that tree and its unlink of the stamp
  (`StampRace.OverlapExactly`). Three runs break it: a write after a newer version
  has stamped (`OverlapBreaks`), a write under its own stamp after a newer version
  has purged (`LateWriteBreaks`), and two processes of one new version
  (`BumpRace`). Two versions that open a fresh directory both succeed, one of them
  under the other's stamp (`ForeignStamp`). Processes of one version on a fresh
  directory or one of their own are safe (`OneVersionStays`).

## Model

| member | source | states |
|---|---|---|
| Framing.NewActionID | internal/cache/keys.go:28-39 | the digest of the parts is the hash of their length-prefixed frames, in order |
| Framing.FramesInjective | internal/cache/keys.go:28-39 | two part lists with equal frames are equal, so parts cannot run into each other |
| SortedRows.HashSortedRows | internal/l0/l0.go:374-390 | rows reach the hasher sorted by name, whatever order they are given in |
| SortedRows.RowsInjective | internal/l0/l0.go:365-452 | equal row bytes mean equal rows: name, extra fields and digest |
| L0Keys.HashFiles | internal/l0/l0.go:365-390 | zero for lists of different length, otherwise the hash of the name-sorted rows |
| L0Keys.ComputeAnalyzerSetHash | internal/engine/l0.go:222-242 | nil entries and repeated pointers are dropped, the rest hashed sorted by name; an empty plan hashes to zero |
| L0Keys.ComputeKey | internal/l0/l0.go:128-144 | the key is the framed hash of the cache version, the domain tag and the nine parts, in that order |
| L0Keys.L0Context.SourceHashOf | internal/engine/l0.go:134-152 | succeeds exactly when every compiled file can be read, returns the hash of the sorted sources, and keeps the memo true |
| L0Keys.L0Context.DepHashOf | internal/engine/l0.go:157-187 | succeeds exactly when every package in the closure can be read, and returns the hash of the sorted closure whatever order it is walked in; `KeyLaws.NeedsIsClosure` says what the closure is |
| L0Keys.L0Context.KeyFor | internal/engine/l0.go:100-124 | the derived key is a function of the snapshot and settings alone; the memo tables never show |
| L0Keys.KeySound | internal/engine/l0.go:100-187 | two packages of any two runs share a key if and only if they have the same identity, sources, dependency closure with sources, analyzer set, filter digest and versions |
| KeyLaws.NeedsIsClosure | internal/engine/l0.go:192-216 | a package lies in the closure of another exactly when a chain of imports leads to it through packages of the graph |
| KeyLaws.DerivableExactly | internal/engine/l0.go:100-187 | a package has a key if and only if every compiled file of every package that import chains lead to, itself included, can be read |
| KeyLaws.KeyMeaning | internal/engine/l0.go:100-187 | two packages of any two runs share a key if and only if they are the same package with the same path, import chains lead to the same packages, each of those has under every base name the same file contents in both runs, the analyzers agree name by name, and filter digest and versions are equal |
| KeyLaws.SourcesExactly | internal/engine/l0.go:134-152 | two packages are hashed alike if and only if under every base name they list the same contents in the same order |
| KeyLaws.AnalyzersExactly | internal/engine/l0.go:222-242 | two plans give one analyzer set if and only if both or neither are empty and, name by name, the first uses of their analyzers agree |
| Framing.FrameLayout | internal/cache/keys.go:28-39 | a frame is the length in eight bytes, the lowest first, and then the part |
| Strings.LessMeaning | internal/cache/codec.go:225-233 | one string sorts before another exactly when it is a proper prefix of it or has the smaller byte where they first differ |
| L0Keys.SourcesOrderFree | internal/engine/l0.go:134-152 | reordering the compiled-file list does not change what is hashed, given distinct base names |
| L0Keys.PlanOrderFree | internal/engine/l0.go:222-242 | neither the order of the plan nor repetitions and nil entries change the analyzers' part of the key, given that pointers and names tell analyzers apart |
| L0Keys.MissingMetadataInvisible | internal/engine/l0.go:154-216 | adding or removing dependencies that have no metadata never changes a key |
| DepClosure.ClosureWalk.CollectClosure | internal/engine/l0.go:192-216 | on any graph, cyclic or not, the walk ends, always succeeds, restores its in-progress set and adds only reachable packages, closed under dependencies |
| DepClosure.ClosureOf | internal/engine/l0.go:157-216 | the walk finds exactly the packages reachable from its root |
| DepClosure.DepWalk.Visit | internal/engine/dep_override.go:127-143 | the visit ends on any graph and visits exactly what is reachable and not yet visited |
| DepClosure.CollectDepClosure | internal/engine/dep_override.go:123-148 | the result is the union of the roots' closures without the roots |
| Exclusion.NewFilter | internal/exclusion/exclusion.go:115-184 | a built filter has a generated-file mode and honours nolint |
| FilterLaws.SuppressedMeaning | internal/exclusion/nolint.go:57-260 | a diagnostic is suppressed exactly when some directive of its file names its linter, its family or nothing, and its line lies within the directive's lines, or within them and the last line of a node that starts one line below the directive in the same column |
| FilterLaws.OneCondition | internal/exclusion/exclusion.go:597-626 | what a rule with a single condition matches: linters by name or family, a path, every other path, a text; a rule without conditions matches nothing |
| FilterLaws.AllConditions | internal/exclusion/exclusion.go:597-626 | a rule matches exactly when it has a condition, no source expression, and each of its conditions alone matches |
| FilterLaws.ExceptionNegates | internal/exclusion/exclusion.go:606-611 | where the other conditions hold, path-except matches exactly where path does not |
| FilterLaws.MoreConditionsMatchLess | internal/exclusion/exclusion.go:597-626 | adding conditions to a rule that has one never adds matches |
| FilterLaws.FamilyCovers | internal/exclusion/exclusion.go:640-652 | a rule that names a family matches for every member of the family |
| FilterLaws.RecursiveTarget | internal/exclusion/exclusion.go:655-678 | a recursive target covers its own path and everything below it; the module root covers everything |
| FilterLaws.FlatTarget | internal/exclusion/exclusion.go:655-678 | a flat target covers exactly the files directly in its directory |
| FilterLaws.RecursiveIsFlatBelow | internal/exclusion/exclusion.go:655-678 | a recursive target covers exactly the files that the flat targets at or below it cover |
| FilterLaws.DropsExactly | internal/exclusion/exclusion.go:384-454 | a diagnostic is dropped exactly when its file is outside the targets, matches a path pattern, matches none of the exceptions or is generated, when nolint suppresses it, when its check is disabled by default or is the known version skew, or when some rule matches |
| FilterLaws.BuiltDropsExactly | internal/exclusion/exclusion.go:115-184 | the same for a filter built from a configuration, setting by setting: configured and preset rules both count |
| FilterLaws.DefaultDropsExactly | internal/exclusion/exclusion.go:115-184 | the same for a filter built without a configuration |
| FilterLaws.ExcludedExactly | internal/exclusion/exclusion.go:355-380 | a file is excluded exactly when it has a name and is outside the targets, matches a path pattern, matches none of the exceptions or is generated |
| FilterLaws.ExcludedIsFileWide | internal/exclusion/exclusion.go:355-454 | a file is excluded exactly when the filter without rules, nolint and disabled checks drops any diagnostic in it |
| FilterLaws.AppliedExactly | internal/exclusion/exclusion.go:300-336 | a filtered list holds, in order, undropped diagnostics only, no two of one file and line under uniq-by-line, and every undropped one is in it or follows one of its file and line; a filter with every stage off keeps all |
| FilterLaws.AppliedMeans | internal/exclusion/exclusion.go:300-336 | a finding is in the filtered list exactly when it is undropped and, under uniq-by-line, no earlier undropped one has its file and line |
| Exclusion.ExcludedFileDropsAll | internal/exclusion/exclusion.go:355-454 | an excluded file has every diagnostic on it dropped |
| Exclusion.NoOpTestsAgree | internal/exclusion/streaming.go:141-161 | the batch and streaming tests for an idle filter agree except for the empty mode with nothing else active |
| Exclusion.StreamEqualsBatch | internal/exclusion/streaming.go:42-161 | for every cutting of a list into packages, streaming it equals one batch application, if and only if the idle tests agree or nothing would be dropped |
| Exclusion.BuiltFilterStreams | internal/exclusion/streaming.go:60-94 | for a filter built by NewFilter, streaming always equals batch |
| Suppression.KeepIsSurvivors | internal/exclusion/exclusion.go:300-336 | the filter loop keeps a diagnostic exactly when it is not dropped and, under uniq-by-line, is the first undropped one on its line |
| Suppression.KeptExactly | internal/exclusion/exclusion.go:312-335 | on file names and line numbers: which positions the loop keeps, given the lines claimed before |
| Suppression.ClaimedExactly | internal/exclusion/streaming.go:78-93 | a file and line is claimed afterwards exactly when it was before or an undropped diagnostic lies there |
| Suppression.KeepInClass | internal/exclusion/exclusion.go:300-336 | filtering and restricting to a set of files commute, claimed lines included |
| FilterObjects.Filter.CheckGenerated | internal/exclusion/exclusion.go:476-494 | the memoised answer is the answer for the file on disk |
| FilterObjects.Filter.BuildRanges | internal/exclusion/nolint.go:99-238 | inline ranges followed by their expansion over the syntax tree |
| FilterObjects.Filter.CheckSuppressed | internal/exclusion/nolint.go:57-89 | the memoised ranges never change the decision |
| FilterObjects.Filter.CheckExcludesAll | internal/exclusion/exclusion.go:343-353 | true exactly when there are files and every one of them is excluded |
| FilterObjects.Filter.DropDiagnostic | internal/exclusion/exclusion.go:384-454 | the staged checks with their early exits decide exactly the drop predicate and keep the memos true |
| FilterObjects.Filter.Apply | internal/exclusion/exclusion.go:300-336 | the batch loop computes the specified list and keeps the memos true; under uniq-by-line no two results share file and line; every undropped diagnostic is kept or follows a kept one with its file and line |
| FilterObjects.Stream.AddPackage | internal/exclusion/streaming.go:60-94 | one package is filtered against the lines claimed by earlier packages, and the claimed lines are updated; under uniq-by-line no two results share file and line and none lies on a line claimed before; every undropped diagnostic is kept, lies on such a line or follows a kept one with its file and line |
| FilterObjects.Stream.Finish | internal/exclusion/streaming.go:108-136 | after Finish the filter is valid for every later state of the disk |
| FilterDigest.ConfigDigest | internal/exclusion/exclusion.go:209-295 | the digest is the hash of the framed token list, sets sorted; a missing filter has the zero digest |
| FilterTokens.AcceptedExactly | internal/config/base_rule.go:27-64 | a filter is accepted if and only if NewFilter builds it from a configuration that passes validation: a known mode, non-empty patterns that compile, rules with at most one path expression and at least two conditions |
| FilterTokens.SameRules | internal/exclusion/exclusion.go:238-258 | rules with at most one path expression each are determined by the tokens they write, whatever the other rules are |
| FilterTokens.ReadOnce | internal/exclusion/exclusion.go:209-295 | any accepted filter with the tokens of an unambiguous one is that filter, up to the base path and expressions spelled like the nil marker; only one of the two has to be unambiguous |
| FilterDigest.DeterminedExactly | internal/exclusion/exclusion.go:209-295 | among accepted filters, the tokens of one are no other's if and only if it is unambiguous, a condition on that filter alone |
| FilterDigest.SeparatorInPaths | internal/exclusion/exclusion.go:230-237 | a path pattern spelled like the separator: the list cut there gives another filter with the same tokens |
| FilterDigest.SeparatorInExcept | internal/exclusion/exclusion.go:230-237 | a path-except pattern spelled like the separator: the same, cut on the other side |
| FilterDigest.SourceIsMarker | internal/exclusion/exclusion.go:234-259 | a source expression spelled like the rules marker, after linters that are patterns: the rules up to it read as path-except patterns of another accepted filter |
| FilterDigest.PatternsAreRules | internal/exclusion/exclusion.go:234-259 | path-except patterns that read as rules: another accepted filter has those rules |
| FilterDigest.FoldedTokens | internal/exclusion/exclusion.go:200-228 | filters that differ only in the base path and in nil-marker expressions have the same tokens |
| FilterDigest.NilCollides | internal/exclusion/exclusion.go:222-228 | every accepted filter with a rule that has no source expression shares its tokens with a different accepted filter |
| FilterDigest.DigestSound | internal/exclusion/exclusion.go:209-295 | an accepted filter with the digest of an unambiguous one is equal to it up to the base path |
| FilterDigest.CollisionChangesDecision | internal/exclusion/exclusion.go:115-454 | two accepted filters that NewFilter builds from different settings share their tokens, and one drops every unsuppressed diagnostic on a path their patterns do not match while the other keeps it |
| Partition.UriPkgMap | internal/engine/l0.go:292-308 | every compiled file is mapped to one of its owners, whichever package is visited first |
| Partition.BucketsDisjoint | internal/engine/engine.go:774-834 | every diagnostic lies in exactly one bucket, and no file name occurs in two |
| Partition.StreamLocal | internal/engine/engine.go:800-834 | over disjoint files, lines claimed by other packages never matter |
| Partition.PartitionAndFilter | internal/engine/engine.go:774-834 | each package's kept list is the batch filter applied to its own bucket alone, for every iteration order and every set of co-analysed packages |
| Partition.PartitionLosesNothing | internal/engine/engine.go:774-834 | all buckets together keep exactly what one batch application to all diagnostics keeps |
| Filenames.UriPkgPathMap | internal/engine/canonicalize.go:21-34 | every owned file gets the path of some owner, in any fill order |
| Filenames.PkgDirsFor | internal/engine/canonicalize.go:46-65 | every package path with sources gets the directory of some package with that path, in any fill order |
| Filenames.ResolveExactly | internal/canonicalpath/canonicalpath.go:40-121 | resolving a portable name gives the file back if and only if the recorded directory is the file's own |
| Filenames.FilenamesReturn | internal/output/canonicalize.go:19-37 | renaming there and back restores every primary, related and edit file name, whichever order the two maps were filled in |
| Filenames.CanonicalizeThenResolve | internal/engine/canonicalize.go:77-109 | the two in-place passes, one after the other, leave the list of diagnostics unchanged |
| Filenames.RenameAll | internal/engine/canonicalize.go:77-92 | position by position: the file name of the finding, of every related position and of both ends of every edit becomes its renamed form, and every other field stays |
| Filenames.RenamedExactly | internal/engine/canonicalize.go:77-92 | renaming is the only change that does this |
| Filenames.CanonicalEverywhere | internal/engine/canonicalize.go:77-109 | after canonicalisation every name of an owned file, wherever it stands in the diagnostic, is a package path, a slash and the file's base name, and every other name is unchanged |
| Filenames.TwoDirectoriesMisplace | internal/engine/canonicalize.go:46-65 | a file outside the directory recorded for its package path does not come back |
| RunModel.SameInputsSameResult | internal/engine/engine.go:774-834 | in two checkouts, the same sources, relative paths, portable findings and filter up to its base path give the same filtered portable result |
| RunModel.SameKeySameResult | internal/engine/l0.go:100-187 | packages of two admissible runs, in any two checkouts, with one key are the same package with the same filtered portable result |
| RunModel.PrunedContributesNothing | internal/engine/engine.go:590-605 | a package left out of the roots would have contributed nothing |
| RunModel.PruningInvisible | internal/engine/engine.go:590-605 | analysing every package reports exactly what analysing the kept roots reports |
| RunLaws.RootsExactly | internal/engine/engine.go:388-605 | the roots are the packages without a superseding test variant, except those with files that are all unwanted |
| RunLaws.DepsOnlyExactly | internal/engine/dep_override.go:123-148 | a run meets a package only as a dependency exactly when it is no root and a chain of imports leads to it from one |
| RunLaws.ReportedExactly | internal/engine/engine.go:402-584 | an uncached run reports a finding exactly when it is some analysed package's, passes the filter and has its positions renamed, whatever is pruned |
| CacheProtocol.SoundKept | internal/engine/engine.go:402-734 | a run keeps the store sound: every entry is an empty dependency entry or some package's true result |
| CacheProtocol.SoundThroughout | internal/engine/engine.go:402-734 | the store is sound before and after every run of every history from an empty store |
| CacheProtocol.OutputAccount | internal/engine/engine.go:613-668 | a run's output plus what dependency entries hid is exactly the output without the cache |
| CacheProtocol.TransparentExactly | internal/engine/engine.go:613-668 | a run equals its uncached self if and only if every hit answered by a dependency entry belongs to a package without findings |
| CacheProtocol.StableRootsUnpoisoned | internal/engine/dep_override.go:222-268 | when root sets are stable, no dependency entry ever answers for a root |
| CacheProtocol.CacheIsInvisible | internal/engine/engine.go:402-584 | over every history of runs and edits with stable roots, every run reports, as a multiset, what it would report without the cache |
| CacheProtocol.InvisibleExactly | internal/engine/engine.go:402-584 | a sequence of runs and edits is always reported as without the cache, whatever is hit and whatever fails, if and only if no root with findings had its key before in a run that met it only as a dependency |
| CacheProtocol.WarmRunAnalysesNothing | internal/engine/engine.go:613-734 | after a run without I/O failures, repeating it analyses no package that has a key |
| FailureFree.ReliablyInvisibleExactly | internal/engine/engine.go:402-584 | when no read or write fails, a sequence of runs and edits is reported as without the cache, whatever is captured, if and only if no root with findings has a key first met in a run where the package was only a dependency of roots that had to be analysed |
| FullCapture.FirstMet | internal/engine/dep_override.go:178-268 | a key counts as a dependency's only because some earlier run met it as that of a dependency of what it analysed, before any run had stored it |
| FullCapture.KeysFollow | internal/engine/dep_override.go:178-268 | every sequence of runs has such a list of stored keys |
| FullCapture.TrackedThroughout | internal/engine/engine.go:402-584 | when nothing fails and everything analysed is captured, the stored keys and which of them are dependencies' are a function of the runs alone |
| FullCapture.FullRunExactly | internal/engine/engine.go:402-584 | in such a history, each run reports what it would without the cache if and only if none of its roots with findings has a dependency's key |
| FullCapture.FullyInvisibleExactly | internal/engine/engine.go:402-584 | the same for whole sequences of runs and edits, with the condition computed from the runs |
| FailureFree.DependencyEntryHidesFindings | internal/engine/dep_override.go:222-268 | in any two failure-free runs, a package captured as a dependency in the first and a root under the same key in the second loses all its findings, while the first run reports correctly |
| Scenario.FindingLost | internal/engine/dep_override.go:222-268 | a concrete module whose test file is deleted between two runs: in every pair of failure-free protocol steps that captures the plain package, the second run reports nothing where an uncached run reports one finding |
| Scenario.LoseFinding | internal/engine/engine.go:371-584 | the same through two calls of RunInProcess with one built filter and a cache that never fails |
| Engine.DropTestSuperseded | internal/engine/engine.go:388-400 | exactly the plain variants of packages with an in-package test variant are removed |
| Engine.SupersededFilesStay | internal/engine/engine.go:371-400 | when the test variant holds the plain variant's files, no file goes unanalysed |
| Engine.PruneExcludedRoots | internal/engine/engine.go:590-605 | the roots are the packages whose files are not all excluded; a package without files stays |
| Engine.L0Cache.Get | internal/l0/l0.go:325-342 | returns what is stored or nothing; without I/O failures it returns what is stored |
| Engine.L0Cache.Put | internal/l0/l0.go:346-361 | the first writer of a key wins; nothing else changes |
| Engine.SplitByL0 | internal/engine/engine.go:613-668 | hits, keys and cached diagnostics are those of the roots with stored keys, in any iteration order |
| Engine.InvokeAnalyze | internal/engine/engine.go:672-682 | the driver fails, or returns the packages' diagnostics in an arbitrary interleaving |
| Engine.BucketIsAnalysis | internal/engine/engine.go:774-834 | partitioning an interleaving by file gives every package its own diagnostics back, in order, and leaves no orphans |
| Engine.WriteL0Entries | internal/engine/engine.go:696-734 | only results of analysed roots are added, under their true keys; without I/O failures all of them are |
| Engine.ComputeAllDepKeys | internal/engine/engine.go:740-754 | exactly the dependencies with a derivable key get one, and it is their true key |
| Engine.WriteDepL0Entries | internal/engine/dep_override.go:222-268 | only empty entries for captured non-roots with a key are added, and without I/O failures all of them |
| Engine.RunInProcess | internal/engine/engine.go:402-584 | the whole run, step by step, is one step of the protocol, in which a cache that never fails stores every analysed root and every captured dependency with a key; without a cache it reports the uncached result; a driver failure reports nothing and leaves the cache alone |
| EditDistance.Levenshtein | internal/registry/validate.go:111-144 | the two swapped rows compute the edit distance |
| EditDistance.LevIsLeast | internal/registry/validate.go:108-144 | the distance is the least number of single-byte insertions, deletions and replacements leading from one string to the other |
| EditDistance.LevIsMetric | internal/registry/validate.go:108-144 | the distance is zero exactly for equal strings, symmetric, and satisfies the triangle inequality |
| EditDistance.Suggestion | internal/registry/validate.go:84-106 | the alphabetically least of the closest names, and empty exactly when none is within three edits |
| Publish.InvStep | internal/cache/atomic.go:26-69 | every system call of every process keeps the invariant, under any interleaving |
| Publish.InvThroughout | internal/cache/atomic.go:26-69 | the invariant holds in every state of every trace of unboundedly many writers and readers |
| Publish.PublishedIsComplete | internal/cache/atomic.go:26-58 | the final name is absent or holds one writer's complete bytes, and every reader has a prefix of one writer's complete bytes |
| Publish.PublishedIsStable | internal/cache/atomic.go:26-58 | until the final name is removed, neither its binding nor its bytes change |
| Publish.PublishedKeptExactly | internal/cache/atomic.go:26-69 | under any names, new or not, the only system calls that change a published entry are a create that truncates it and an append to it |
| Publish.NoTempsLeft | internal/cache/atomic.go:26-58 | once every writer has returned and could remove its file, no temporary name is left |
| Publish.SuccessMeansPresent | internal/cache/local_backend.go:38-65 | a writer that got past the link finds the entry present, as long as nobody removes it |
| Publish.SharedNameDestroys | internal/cache/atomic.go:63-69 | a concrete trace in which two writers with the same suffix empty a published entry |
| VersionStamp.CacheDir.PurgeEntries | internal/cache/cache.go:287-298 | entries are only removed; when it finishes both trees are empty |
| VersionStamp.CacheDir.Init | internal/cache/cache.go:251-283 | from any consistent directory, stopping anywhere leaves it consistent; success leaves the stamp of this version, and an empty cache unless it was there before |
| VersionStamp.CacheDir.Collect | internal/cache/cache.go:325-359 | garbage collection, stopping anywhere, removes only entries last touched before the cutoff and keeps consistency; when it finishes, every entry left was touched at the cutoff or later |
| VersionStamp.CacheDir.Lives | internal/cache/cache.go:251-298 | over every sequence of opens under differing versions, each able to stop between any two steps, a stamp means all entries are of that version and no stamp means no entries |
| StampRace.StepExactly | internal/cache/cache.go:251-298 | one file operation of one process breaks the stamp exactly when it writes under a foreign stamp or unlinks the stamp above entries |
| StampRace.WrittenLate | internal/cache/cache.go:285-298 | an entry found in a tree that a process has purged was written after that process passed the tree, and has not been removed since |
| StampRace.OverlapExactly | internal/cache/cache.go:251-298 | over every interleaving of the file operations of any number of processes, stopping anywhere, the stamp vouches for all entries throughout if and only if every write is made under the writer's own stamp and none that stays falls between another process's purge of its tree and unlink of the stamp |
| StampRace.OneVersionStays | internal/cache/cache.go:251-283 | processes of one version, on a fresh directory or one of their own, keep it consistent under every interleaving, and each has it open under its own stamp |
| StampRace.OverlapBreaks | internal/cache/cache.go:251-298 | a concrete run: the older process, still open, writes after the newer one has stamped |
| StampRace.LateWriteBreaks | internal/cache/cache.go:266-283 | a concrete run: the older process writes under its own stamp between the newer one's purge and its unlink, and the new stamp covers the old entry |
| StampRace.BumpRace | internal/cache/cache.go:266-283 | a concrete run: of two processes of one new version, the slower one unlinks the stamp above the faster one's entry |
| StampRace.ForeignStamp | internal/cache/cache.go:258-281 | a concrete run: two versions open a fresh directory, both succeed, and one of them has it open under the other's stamp |
| Envelope.WriteEnvelope | internal/cache/codec.go:35-57 | the bytes written are magic, kind, count and length-prefixed sections |
| Envelope.ReadEnvelope | internal/cache/codec.go:61-96 | the reader accepts exactly what the decoding function accepts, with the same limits |
| Envelope.EnvelopeReturns | internal/cache/codec.go:35-96 | decoding an encoding returns the sections if and only if they are within the reader's limits |
| Envelope.DecodedIsPrefix | internal/cache/codec.go:61-96 | re-encoding whatever decodes gives a prefix of the input |
| Envelope.KindsApart | internal/cache/codec.go:61-96 | a blob decodes under at most one kind |
| Envelope.L2Returns | internal/cache/l2.go:73-117 | an L2 entry round-trips if and only if its sections fit and no optional blob is present but empty |
| Envelope.L1IsNotL2 | internal/cache/l1.go:73-108 | L1 and L2 blobs never decode as each other |
| Sorting.SortStrings | internal/cache/codec.go:225-233 | the in-place insertion sort leaves a sorted permutation |
| Sorting.SortedUnique | internal/cache/codec.go:225-233 | that sorted order is the only one |
| CanonicalJson.WriteCanonical | internal/cache/codec.go:155-221 | the bytes depend on the value alone, not on the order object keys are enumerated in |
| CanonicalJson.ReadBack | internal/cache/codec.go:155-221 | a reader of JSON values returns the printed value and what follows it, for every value at any depth |
| CanonicalJson.PrintPrefix | internal/cache/codec.go:155-221 | a printed value shows where it ends and which value it is, whatever may follow it |
| CanonicalJson.CanonicalExactly | internal/cache/codec.go:141-221 | equal canonical bytes exactly for equal JSON trees, given self-delimiting string quoting |
| CanonicalJson.QuotedBack | internal/cache/codec.go:172-178 | strings with quotes and backslashes escaped are read back by a concrete reader |
| CanonicalJson.QuotedDelimits | internal/cache/codec.go:172-178 | escaping quotes and backslashes is such a quoting |
| ConfigSalt.Canonicalize | internal/analyzers/configsalt.go:110-165 | the recursive pass returns the specified value, its objects as key and value lists in sorted key order |
| ConfigSalt.Marshal | internal/analyzers/configsalt.go:176-197 | printing those lists gives the canonical bytes of the value |
| ConfigSalt.ComputeSalt | internal/analyzers/configsalt.go:43-104 | the salt is the framed hash of the analyzer name and the canonical bytes |
| ConfigSalt.NilExactly | internal/analyzers/configsalt.go:110-165 | nil is returned exactly for empty values |
| ConfigSalt.CanonTrimmed | internal/analyzers/configsalt.go:110-165 | no null or empty value is left at any depth |
| ConfigSalt.TrimmedFixed | internal/analyzers/configsalt.go:110-165 | a value without empty parts is returned unchanged, so the pass is idempotent |
| ConfigSalt.ElemsInOrder | internal/analyzers/configsalt.go:135-150 | an array keeps exactly its non-empty elements, in order |
| ConfigSalt.CanonExactly | internal/analyzers/configsalt.go:110-165 | two configurations share a canonical form if and only if erasing empty parts one at a time can make them equal |
| ConfigSalt.SaltExactly | internal/analyzers/configsalt.go:43-165 | two salts agree if and only if the analyzer is the same and the configurations differ in empty parts only |
| Compare.RunCompare | cmd/compare-lints/main.go:190-282 | the index maps, boolean arrays and counters compute the pairing and its sorted per-linter table, in any map order |
| Compare.PairedCounts | cmd/compare-lints/main.go:190-235 | per key, the overlap is the smaller count, the leftovers are the surplus, and the two leftover lists share no key |
| Compare.PairedPlainly | cmd/compare-lints/main.go:88-235 | for every file, line, linter and normalised message: as many diagnostics pair as both sides have, and the rest of each side is left over |
| Compare.TableMeaning | cmd/compare-lints/main.go:237-279 | each row holds its linter's five counts, and the rows stand in strictly ascending order of linters |
| Compare.TableCovers | cmd/compare-lints/main.go:237-279 | a linter has a row exactly when one of the sides has a diagnostic of it |
| Compare.GolangciTotals | cmd/compare-lints/main.go:237-279 | the golangci side is overlap plus leftovers, overall and per linter, although overlap entries come from the other side |
| Compare.PlaidTotals | cmd/compare-lints/main.go:237-279 | the plaid side is overlap plus leftovers, overall and per linter |
| Compare.TableAddsUp | cmd/compare-lints/main.go:258-273 | every row of the table adds up on both sides |
| Glob.MatchSegs | internal/bench/exclude.go:278-304 | matching ends, and succeeds exactly when the name can be cut so that each plain segment covers one matching segment and each `**` any run |
| Glob.MatchDoubleStar | internal/bench/exclude.go:272-276 | the same for slash-separated strings |
| RequiresIR.Search.Walk | internal/analyzers/bundled_staticcheck.go:50-66 | a walk that finds nothing leaves a set closed under Requires and free of producers; one that stops early has reached a producer |
| RequiresIR.AnalyzerRequiresIR | internal/analyzers/bundled_staticcheck.go:43-75 | true exactly when an IR producer is reachable through Requires, on any graph |

## Left out

- The gopls fork, the scheduler and the workspace loader: `Snapshot.Analyze` is an uninterpreted function of the snapshot, the settings and the package.
- The facts stored with L0 entries and their reuse for dependencies: only that dependency entries are written, under which key and without diagnostics.
- Subprocess linters, metrics counters, progress output and the command line: plumbing with easy claims.
- The gocacheprog backend: only the local first-writer-wins store is modelled; the mtime refresh on read is not, because nothing but garbage collection reads it.
- The JSON of L1 diagnostics and the L1 action ID: the envelope and the canonical printer they are made of are covered.
- Parsing of `//nolint` comments, target patterns and rule regexes: easy string handling; the parsed forms are inputs of the model.
- `sort.Slice` and `sort.Strings` are represented by an insertion sort; where names repeat, Go's unstable sort may order the rows differently.
- Durability: a crash is the loss of a process, not of data the operating system has accepted.
- CanonicalJson.ReadBack: takes the reader of string literals as a parameter that returns what was quoted; whitespace, which canonical bytes do not have, is not read, and number literals are read as their characters.
- FilterLaws.FlatTarget: stated for relative paths without empty, "." or ".." segments, which is what the filter sees for files below its base path.
- CanonicalJson.CanonicalExactly: assumes that string quoting is injective, which `json.Marshal` is on valid UTF-8; the float fallback of the printer is unreachable after decoding with numbers kept as literals.
- ConfigSalt.ComputeSalt: starts from decoded JSON; the error branch that salts an unmarshallable configuration and the difference in HTML escaping between the outermost string and nested ones are not modelled.
- FilterDigest.DeterminedExactly: takes the regular expression syntax as a parameter and assumes that the eight words ConfigDigest writes as markers compile, as plain words do.
- StampRace.OverlapExactly: writing an entry is one event, although the entry itself is published by several system calls (`Publish` has those), and an entry that is already there under another version's name is not modelled as blocking a write.
- Scenario.LoseFinding: promises something only when the modelled driver succeeds both times, since it may fail at any call.
- Exclusion.NewFilter: the contract states only the two facts the streaming theorem rests on; what a built filter drops is `FilterLaws.BuiltDropsExactly`.
- Publish.PublishedIsComplete: assumes that the random suffix of a temporary name is not in use. Some such condition is needed, as `Publish.SharedNameDestroys` shows; this one is sufficient, and `Publish.PublishedKeptExactly` names the steps it has to rule out.
- Compare.RunCompare: the normalisation of messages is a parameter, and only the order of the per-linter table, not that of the overlap list, is determined, because the overlap follows map order.
- VersionStamp.CacheDir.Init: creation of the directory skeleton is not modelled; it adds no entries.
