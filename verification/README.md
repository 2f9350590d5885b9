# Porch, modelled and verified in Dafny

Porch manages revisions of configuration packages: it creates, edits, renders, proposes and publishes
them. This project models the parts of Porch that decide things themselves and proves properties of
them for every input, every run or every interleaving. `dafny verify dfyconfig.toml` checks all of it.

| file | models |
|---|---|
| `Text.dfy`, `Paths.dfy`, `Directories.dfy` | Go strings and paths, and their segment view |
| `Names.dfy`, `NameLimits.dfy` | object names of packages and package revisions, and the accepted ones that do not round-trip |
| `SubpackageDirs.dfy`, `GitRefs.dfy` | subpackage directories; git references of upstreams |
| `Subpackages.dfy`, `ResourceSizes.dfy` | cloning, upgrading and extracting subpackages |
| `PackageChecks.dfy` | the uniqueness and nesting checks of new packages |
| `PackageFiles.dfy` | resources on the render file system, and the choice of package directory |
| `Conditions.dfy` | the merge of conditions into the Kptfile, and readiness |
| `Effects.dfy`, `Engine.dfy` | the revision lifecycle engine |
| `Outcomes.dfy` | what each engine call comes to, case by case |
| `Rendering.dfy` | the render mutation between a draft and kpt |
| `RepoCache.dfy` | the finalizer protocol of the repository cache |
| `Watchers.dfy` | the watcher slots |
| `Discovery.dfy` | the discovery cache |

## Main results

- **Engine.** Over every run of create, update, resource-update, upload and delete calls, where each
  repository call may fail before or after taking effect, whatever is stored outside Draft is what some
  call on that very revision rendered without error from its own resources, unchanged since
  (`NonDraftRendersClean`, `NonDraftIsRenderOutput`). Contents change only while a revision is a Draft,
  so published contents are frozen (`ContentsChangeInDraft`, `PublishedIsFrozen`); a deleted revision
  never comes back (`DeletedStaysGone`). What every call stores, and when it reports success, is settled
  case by case over the fields of the request and the answers it gets (`Outcomes.dfy`): among them that
  a Draft with a clean render can go to any lifecycle and one with a failed render to none
  (`CleanDraftUpdate`, `FailedDraftUpdate`), and exactly which creations are accepted
  (`CreateAllowedIff`).
- **Nesting.** Over every run, stored packages never lie inside one another if and only if no creation
  overlapped, when it was made, a stored package that the nesting check does not cover
  (`NeverNestedIff`). The check covers a stored package that is not nested, for a request that creates
  a package and has no leading slash (`RightAboutTopLevelIff`, `CreationAvoidsTopLevelIff`).
- **Names.** Both round trips are settled with "if and only if" (`RevNameRoundTrip`,
  `RevNamePrintsBack`, and the same for packages), and so is which keys are valid (`ValidKeyIff`).
- **Subpackages.** Over every run of clones and upgrades, from any parent map, the roots never lie
  above one another and each reads back as what was last put there (`RunKeepsSubpackages`).
- **Repository cache.** In every interleaving of reconcile steps, user steps and API calls, a
  repository opened by a reconcile and still cached has an API object that carries the finalizer
  (`FinalizerOutlivesCacheEntry`). An entry without such an object was opened by an API call since the
  last eviction, and only then (`UnguardedCachedIff`). A reconcile opens only what it read as live, ready
  and not migrated (`OpenedWasReady`).
- **Conditions.** A patch holds each requested type once, with the last condition requested for it, the
  types already there first and in their order; readiness looks at the last condition of each gate
  (`PatchConditions`, `PackageRevisionIsReady`).
- **Watchers.** The slot array refines a set of live watchers; its length is exactly the largest number
  ever active together (`SlotsRefineSet`, `NotificationCalls`).
- **Discovery.** With a constant source every cached call returns what direct discovery returns
  (`CachedCallsAreDirect`), and that is the last resource listed for the kind by the first version that
  has one (`DirectScanMeans`).

Some things one might expect turned out false of the code. Each has inputs that show it and its exact
condition proved:

- A printed revision name parses back to its key only if the path has no outer slash and the workspace
  is not an all-digits continuation of a version in the package path (`RevNameRoundTrip`). Valid keys
  that fail: `DigitsAfterVersionCollide`, two of them with one name, and `OuterSlashIsLost`.
- A parsed name prints back only if it has no slash and no empty segment before the workspace
  (`RevNamePrintsBack`). Every DNS-1123 subdomain qualifies; the parser also accepts others, which do
  not print back (`SlashInNameIsLost`, `EmptySegmentIsLost`).
- Workspace names are documented as unique, but the check compares the requested name, which may be a
  pathname, with leaf names: it catches repetitions exactly for names without a slash
  (`UniquenessCheckedIff`). A repeated request is accepted exactly when its name has a slash and, if it
  creates the package, its first segment is not its leaf (`RepeatedCreateAllowedIff`); such requests
  are accepted by an empty repository (`NestedRequestAllowed`).
- "Packages cannot be nested" is checked in the same way, and with the slashes that storing trims. About
  a stored package that is not nested, the check is right about where a valid request will be stored
  exactly when the request has no leading slash or starts with another segment
  (`RightAboutTopLevelIff`, `LeadingSlashIsMissed`). Without leading slashes, it is right about a stored
  package on all valid requests exactly when that package is not itself nested (`NestingCheckedIff`).
  Two runs store one package inside another: dir/pkg and then dir (`NestedThenOuter`), and dir and then
  /dir/pkg (`OuterThenSlashed`).
- A comment promises that the render mutation always returns resources
  (pkg/task/generictaskhandler.go:204-205). It returns none for keys that nest, for an unconvertible
  result list and for unreadable files (`Rendering.Apply`); keys that nest are accepted
  (`AcceptedKeysCanNest`), and a revision that asks to be pushed on render failure is then stored empty
  (`DraftEmptiedIff`, `UpdateEmptiesIff`).
- The finalizer is meant to guarantee eviction on delete. Opened again by an API call between the
  eviction and the removal of the finalizer, an entry outlives its object (`EntryCanOutliveObject`).

## How the model reads the code

- Go's map iteration order is an arbitrary choice (`var key :| key in todo`); results do not depend on it.
- A Go string is a sequence of bytes, and a Dafny `char` here stands for one of its bytes: lengths and
  sizes count bytes. Integers are unbounded.
- `Engine.dfy`: calls run one after another (the API server holds a lock per revision,
  pkg/registry/porch/packagecommon.go:280-291), and `oldObj.Spec.Lifecycle` is the stored lifecycle. A
  stored revision has an identity that is never reused, so a second revision with the same key does not
  overwrite the first. A new draft starts in Draft. A published revision moves only between Published
  and DeletionProposed, as the repository interface promises. Tasks, healing, Kptfile patches and the
  renderer are arbitrary functions that may fail.
- `RepoCache.dfy`: reconciles of one object do not overlap, reads may be old but never go back, updates
  from an old version are rejected, and nobody else removes this controller's finalizer.
- `Watchers.dfy`: a watcher is asked at most once per scan whether it is finished.
- `PackageFiles.dfy`: in the file system a name is a file or a directory, never both.
- A panic on an unknown condition status is a result of its own (`Panicked`, `None`).
- Calls to clocks, networks and logs are not modelled; outcomes of outside calls are parameters.

## Model

| member | source | states |
|---|---|---|
| Text.PrefixIsSegmentPrefix | pkg/repository/util.go:165-170 | `HasPrefix(q+"/", p+"/")` holds exactly when the segments of p are a prefix of those of q, for all strings |
| Paths.SafeJoinAcceptsCanonical | pkg/util/safejoin.go:30-42 | a key passes exactly when it is a list of non-empty segments other than "." and ".."; the joined path is then the key |
| Paths.ValidPathsAreCanonical | pkg/util/safejoin.go:48-55 | a resource map is accepted exactly when all its keys are canonical |
| Names.SplitIn3OnDelimiter | api/util/util.go:223-254 | head, rejoined middle and tail; together they are the input again |
| Names.WorkspaceShape | api/util/util.go:208-218 | the workspace found is a dotted version or has no dot |
| Names.WorkspaceReadableIff | api/util/util.go:208-218 | the workspace read off head.workspace is that workspace exactly when it is a version, or dot-free and not the all-digits tail of a version |
| Names.RevParserSplitsName | api/porch/key/types.go:55-82 | the parser accepts exactly when the segments before the workspace make a valid key with the dashed workspace, and returns that key |
| Names.RevNameRoundTrip | api/porch/key/types.go:55-82 | parsing the printed name gives the key back if and only if its path has no outer slash and its workspace is readable |
| Names.RevNamesInjective | api/util/util.go:129-136 | printing is injective on those keys |
| NameLimits.DigitsAfterVersionCollide | api/util/util.go:213-214 | outside them two different keys, both accepted, share one name, and parsing it gives the second |
| NameLimits.OuterSlashIsLost | api/util/util.go:129-136 | a key whose path starts with a slash is accepted, prints as the key without it, and does not come back |
| Names.RevNamePrintsBack | api/porch/key/types.go:55-82 | printing the parsed key gives the name back if and only if the name has no slash and no empty segment before the workspace |
| NameLimits.SlashInNameIsLost | api/porch/key/types.go:55-82 | names of the form repo.a/b.pkg.workspace are accepted and print back differently |
| NameLimits.EmptySegmentIsLost | api/porch/key/types.go:55-82 | names of the form repo..pkg.workspace are accepted and print back differently |
| Names.PkgNameRoundTrip | api/porch/key/types.go:131-147 | parsing the printed package name gives the key back if and only if its path has no outer slash |
| Names.PkgNamePrintsBack | api/porch/key/types.go:131-147 | printing the parsed package key gives the name back if and only if it has no slash and no empty segment |
| Names.SubdomainsPrintBack | api/porch/key/types.go:55-82 | every accepted DNS-1123 subdomain prints back, as a revision name and as a package name |
| NameLimits.ValidKeyIff | api/util/util.go:158-180 | for a path without outer slashes, a revision key is valid if and only if repository, package and workspace are labels of at most 63 characters, the path is made of label-shaped segments of at most 63 characters together, and the name has at most 253 |
| NameLimits.ValidPkgKeyIff | api/util/util.go:137-156 | the same for package keys |
| SubpackageDirs.ValidDirIsLabelSegments | api/porch/util.go:30-50 | the checks accept exactly the lists of label-shaped segments of at most 253 characters |
| GitRefs.DecodeOfDecomposition | pkg/util/util.go:227-254 | on a matching reference: error for a leading slash, error for "." and "..", otherwise the trimmed front and the last segment |
| GitRefs.ManagedIff | pkg/util/util.go:187-255 | an upstream decodes to a managed base and workspace if and only if its reference is base/directory/workspace with valid parts |
| GitRefs.DecodeCases | pkg/util/util.go:187-225 | the errors for a missing repository, a bad directory and an empty reference, and a reference that is not the directory's passed on unchanged, each exactly when |
| GitRefs.NeverInconsistent | pkg/util/util.go:240-244 | the "inconsistent" error is unreachable |
| Subpackages.PackageResources.WriteUnder | pkg/task/generictaskhandler.go:384-386 | the parent plus the subpackage's keys prefixed by the directory |
| Subpackages.PackageResources.InsertSubpackage | pkg/task/generictaskhandler.go:370-390 | in every iteration order: succeeds exactly when nothing is in the directory and no Kptfile is at or above it; the parent without the directory plus the subpackage, or unchanged |
| Subpackages.PackageResources.UpgradeSubpackage | pkg/task/generictaskhandler.go:394-426 | in every iteration order: succeeds exactly when the directory has content, no file is at its own path and no Kptfile is above it; the result; a failure touches only the directory |
| Subpackages.ParentFoundIff | pkg/task/generictaskhandler.go:428-440 | for a valid directory the test finds exactly the keys q/Kptfile whose q is the directory or above it |
| Subpackages.KptfileBlocks | pkg/task/generictaskhandler.go:428-440 | a Kptfile at or above a directory is found and its own directory returned |
| Subpackages.CloneAcceptedIff | pkg/task/generictaskhandler.go:370-383 | a clone is accepted if and only if no key is in the directory and no Kptfile at or above it |
| Subpackages.UpgradeAcceptedIff | pkg/task/generictaskhandler.go:394-421 | an upgrade is accepted if and only if a key is in the directory, none is at its own path, and no Kptfile outside it is at or above it |
| Subpackages.ExtractSubpackage | pkg/task/upgrade.go:97-115 | the keys under the directory with the prefix cut; the two errors exactly for an empty result and a missing Kptfile |
| Subpackages.ExtractAfterReplace | pkg/task/upgrade.go:100-104 | extracting after a clone or an upgrade gives the subpackage back |
| Subpackages.ExtractElsewhere | pkg/task/generictaskhandler.go:404-408 | directories neither above nor below keep their contents |
| Subpackages.UpgradeAfterClone | pkg/task/generictaskhandler.go:400-402 | after an accepted clone the subpackage can be upgraded exactly when the parent had no file at the directory's own path |
| Subpackages.RunKeepsSubpackages | pkg/task/generictaskhandler.go:370-440 | over every run: roots pairwise not above one another, each region reads back as last put |
| Subpackages.RunKeepsOutside | pkg/task/generictaskhandler.go:370-440 | over every run: keys outside the touched directories never change |
| Subpackages.ReplaceSize | pkg/repository/util.go:194-200 | a clone adds exactly the subpackage's size; an upgrade also gives back the old size of the directory |
| ResourceSizes.CalculateResourcesSize | pkg/repository/util.go:194-200 | the sum of the sizes in bytes, in any iteration order |
| PackageChecks.SplitPackagePathName | api/porch/key/types.go:191-200 | the pathname without its outer slashes is the path, a slash and the leaf, or the leaf alone with an empty path; the leaf has no slash |
| PackageChecks.LeafIsLastSegment | api/porch/key/types.go:191-200 | the leaf of a canonical pathname is its last segment |
| PackageChecks.SamePackage | pkg/engine/engine.go:169-174 | exactly the listed revisions whose leaf name is the requested name |
| PackageChecks.UniquenessCheckedIff | pkg/engine/engine.go:268-277 | the check rejects every repetition if and only if the requested name has no slash |
| PackageChecks.OverlapIsProperPrefix | pkg/repository/util.go:161-172 | two paths overlap exactly when one's segments are a proper prefix of the other's |
| PackageChecks.ValidatePackagePathOverlap | pkg/repository/util.go:139-158 | accepts exactly when no stored name of the repository equals or overlaps the request |
| PackageChecks.RejectedByFirstSegment | pkg/repository/util.go:142-153 | a stored package causes a rejection exactly when its leaf is the first segment of the request |
| PackageChecks.RightAboutTopLevelIff | pkg/repository/util.go:139-158 | for every valid request and every stored package that is not nested: the check rejects exactly when the pathname to be stored equals or overlaps the package, if and only if the request has no leading slash or that pathname starts with another segment |
| PackageChecks.NestingCheckedIff | pkg/repository/util.go:139-158 | over all valid requests without a leading slash, the check is right about a stored package if and only if that package is not nested |
| PackageChecks.LeadingSlashIsMissed | api/porch/key/types.go:191-200 | the request /dir/pkg is valid, is not rejected because of dir, and is stored at dir/pkg |
| PackageChecks.PathnameKeepsFirst | api/porch/key/types.go:160-162 | the pathname of a valid request starts with the request's first segment, unless the request starts with a slash |
| PackageFiles.TopmostStep | pkg/repository/util.go:223-227 | the update rule keeps the chosen directory topmost |
| PackageFiles.TopmostMeans | pkg/task/render.go:126-133 | among canonical keys: no directory exactly when there is no Kptfile, else a directory whose Kptfile is a key and that lies in no directory whose Kptfile is a key |
| PackageFiles.RootKptfileWins | pkg/task/render.go:127-133 | a root Kptfile makes "/" the package directory |
| PackageFiles.WriteResources | pkg/task/render.go:113-137 | in every iteration order: the directory holds a Kptfile with none strictly above it, or is empty when there is none; canonical maps are written exactly when no key lies under another, and then the files are the resources |
| PackageFiles.ReadResources | pkg/task/render.go:139-158 | the files, by key |
| PackageFiles.WriteThenRead | pkg/task/render.go:113-158 | writing accepted resources and reading them back is the identity |
| Rendering.Apply | pkg/task/render.go:42-94 | for accepted keys, in every iteration order: the resources and the error returned on every path; with a Kptfile what kpt left, failed exactly when kpt failed, and the input when that cannot be read back; without one the input; from non-empty resources, with a kpt that leaves files, nothing is returned exactly when keys nest, the result list does not convert, or the files are unreadable and the render did not itself fail; always with an error |
| Rendering.DraftEmptiedIff | pkg/task/generictaskhandler.go:206-238 | an update of resources empties a non-empty draft exactly when the render returns nothing, the revision asks to be pushed on render failure, and the write and the close take effect |
| Rendering.UpdateEmptiesIff | pkg/engine/engine.go:379-398 | an update of the revision empties non-empty contents exactly when it renders a Draft, the render returns nothing, the request asks to be pushed on render failure and stays in Draft, and the writes and the close go through |
| Rendering.AcceptedKeysCanNest | pkg/util/safejoin.go:48-55 | any accepted key together with a key below it is an accepted map whose keys nest |
| Conditions.IndexedByLast | api/porch/v1alpha1/util.go:51-54 | a type is indexed exactly when some condition has it, and by the last that does |
| Conditions.PatchConditions | pkg/task/generictaskhandler.go:466-526 | panics exactly on a status other than True, False and Unknown; otherwise each requested type once, with the last condition requested for it and nothing else; types already there first, in the order in which they first stood; "changed" exactly when the list differs |
| Conditions.PatchIndex | pkg/task/generictaskhandler.go:466-526 | the patched list is indexed exactly as the request, last one wins |
| Conditions.SecondPatchChangesNothing | pkg/task/generictaskhandler.go:466-526 | a second patch with the same request gives the same list, whatever order the first used |
| Conditions.PackageRevisionIsReady | api/porch/v1alpha1/util.go:49-67 | ready exactly when for every gate the last condition in the list of that type exists and is True |
| Conditions.ToAPIConditions | pkg/repository/util.go:44-57 | the same conditions, or the panic exactly on an unknown status |
| Conditions.PatchKeepsReadiness | pkg/task/generictaskhandler.go:466-526 | the patched conditions read back without panic, and every list of gates holds on them exactly when it holds on the request |
| Engine.MakePackageRevisionResources | pkg/engine/engine.go:628-649 | key by key: every new resource with its new value; any other key exactly when the update is partial and the key is old, with its old value |
| Engine.CaDEngine.CreatePackageRevision | pkg/engine/engine.go:107-244 | what is stored after any combination of checks, failures and rollback; success exactly when all checks pass and every call succeeds, and then a cleanly rendered revision, a Draft when no lifecycle was given and else in the requested one |
| Outcomes.CreateAllowedIff | pkg/engine/engine.go:107-194 | which creations are accepted, over the fields: at most one task, lifecycle unset, Draft or Proposed, a valid name, no stored revision with that leaf and workspace, for Init, Clone and no task no stored leaf equal to the first segment, for Upgrade named sources that are published |
| Outcomes.RefusedCreate | pkg/engine/engine.go:107-200 | any other creation, or one that cannot open, list or start a draft, changes nothing and fails |
| Outcomes.FinishedCreate | pkg/engine/engine.go:196-244 | the stored revision field by field for every outcome of the close, and when success is reported |
| Outcomes.RolledBackCreate | pkg/engine/engine.go:205-217 | a creation whose task or lifecycle change fails leaves exactly the used identity, or the draft when its close took effect and its deletion did not follow |
| Engine.CreateSuccessMeans | pkg/engine/engine.go:126-128 | past its close a creation has added exactly the requested key, contents and metadata under the next identity, as a Draft when no lifecycle was given and else in the requested one |
| Engine.CaDEngine.Rollback | pkg/engine/engine.go:205-217 | the draft stays stored exactly when the close took effect and the delete did not follow |
| Engine.CaDEngine.UpdatePackageRevision | pkg/engine/engine.go:291-416 | what is stored after any combination of checks and failures; the draft is closed exactly when the checks pass, the mutations allow it and the draft took the lifecycle; when success is reported |
| Engine.UpdateSuccessMeans | pkg/engine/engine.go:291-416 | after success the revision is gone, for the last finalizer of one being deleted, or has the requested lifecycle and metadata |
| Outcomes.StaleUpdate | pkg/engine/engine.go:301-313 | without a version, from another version, or without a repository: nothing changes and the update fails |
| Outcomes.NotAdmitted | pkg/engine/engine.go:339-376 | from or to a lifecycle outside the four, or without a draft: nothing changes and the update fails |
| Outcomes.CleanDraftUpdate | pkg/engine/engine.go:379-416 | a Draft with an error-free render goes to any of the four lifecycles with the rendered contents, for every outcome of the close and the metadata |
| Outcomes.ProposedUpdate | pkg/engine/engine.go:379-416 | a Proposed revision goes to any of the four lifecycles with its contents unchanged |
| Outcomes.FailedDraftUpdate | pkg/engine/engine.go:381-390 | a Draft with a failed render is stored exactly when the draft took it, the push annotation is "true" and the lifecycle stays Draft; otherwise nothing changes |
| Outcomes.BrokenDraftUpdate | pkg/engine/engine.go:379-395 | a draft that cannot be mutated, written or moved is left as it was |
| Outcomes.PublishedUpdate | pkg/engine/engine.go:344-358 | a published revision moves only between Published and DeletionProposed, for every outcome of the move; other requests change nothing |
| Outcomes.LastFinalizerUpdate | pkg/engine/engine.go:327-336 | a revision being deleted is removed with its last finalizer, exactly when its metadata was set and the delete took effect |
| Engine.CaDEngine.UpdatePackageResources | pkg/engine/engine.go:481-549 | what is stored; the draft is closed exactly when the checks pass, the write succeeded and the render succeeded or the push annotation is set; success exactly when it was closed after an error-free render |
| Outcomes.RefusedResources | pkg/engine/engine.go:491-525 | a resource update of anything but a Draft, without a version or from another one, or that does not get its resources written, changes nothing |
| Outcomes.WrittenResources | pkg/engine/engine.go:527-549 | otherwise the rendered resources are stored exactly when the render reported no error or the stored push annotation is "true"; key, lifecycle and metadata stay |
| Outcomes.UploadOutcome | pkg/engine/engine.go:557-600 | an upload is stored exactly as sent, for a Draft, canonical keys and a current version, and else nothing changes |
| Engine.CaDEngine.UpdatePackageResourcesWithoutRender | pkg/engine/engine.go:557-600 | what is stored: the uploaded resources, for a Draft only; success exactly when they were written and the close succeeded |
| Engine.CaDEngine.DeletePackageRevision | pkg/engine/engine.go:432-460 | success exactly when the repository opens and the delete succeeds, and then the revision is gone; every other revision is untouched; while the revision is there nothing has changed |
| Engine.DeletedStaysGone | pkg/engine/engine.go:432-460 | over every run: an identity given out and no longer stored is never stored again |
| Engine.NonDraftRendersClean | pkg/engine/engine.go:385-390 | over every run from empty: a stored revision outside Draft was rendered without error |
| Engine.NonDraftIsRenderOutput | pkg/engine/engine.go:385-390 | some call of the run, creating that revision or finding it in Draft, rendered its contents without error from the resources the call itself produced, mutated or replaced, and they were stored unchanged after every later call |
| Engine.ContentsChangeInDraft | pkg/task/generictaskhandler.go:134-137 | a call changes stored contents only if it finds the revision in Draft |
| Engine.PublishedIsFrozen | pkg/engine/engine.go:344-358 | over every run: published contents and keys never change, the revision stays published while stored |
| Engine.PlainNamesStayUnique | pkg/engine/engine.go:267-277 | over every run with slash-free names, stored keys are pairwise distinct |
| Engine.RepeatedCreateAllowedIff | pkg/engine/engine.go:169-190 | for every task: repeating an accepted creation is accepted, giving two revisions with one key, if and only if the name has a slash and, for a request that creates the package, its first segment is not its leaf |
| Engine.NestedRequestAllowed | pkg/engine/engine.go:151-190 | an empty repository accepts a request for dir/pkg, for any labels that fit |
| Engine.CreationAvoidsTopLevelIff | pkg/engine/engine.go:186-190 | the package of an accepted creation is stored under a pathname that neither equals nor overlaps a stored package with an empty path, if and only if the request has no leading slash or the pathname starts with another segment |
| Engine.StoredKeysAreValid | pkg/engine/engine.go:151-153 | over every run, stored keys have a valid directory and a label as package |
| Engine.NeverNestedIff | pkg/repository/util.go:139-158 | over every run: stored pathnames never overlap if and only if no creation that stored its package overlapped, when it was made, a stored package outside the check's cover: a nested one, or any when the request has a leading slash or does not create a package |
| Engine.NestedThenOuter | pkg/engine/engine.go:186-190 | the run that creates dir/pkg and then dir stores both, and their pathnames overlap |
| Engine.OuterThenSlashed | pkg/engine/engine.go:186-190 | the run that creates dir and then /dir/pkg stores both, and their pathnames overlap |
| RepoCache.StepKeepsInv | controllers/repo-cache/repo_cache_handler.go:48-104 | every step of the reconciler, the users and the API keeps the protocol's invariant |
| RepoCache.FinalizerOutlivesCacheEntry | controllers/repo-cache/repo_cache_handler.go:48-104 | in every interleaving: opened by a reconcile and cached implies an existing object with the finalizer |
| RepoCache.ReadLeadsTo | controllers/repo-cache/repo_cache_handler.go:49-92 | after a read, for every object: eviction exactly when it is being deleted, opening exactly when it is live, not migrated and ready, after adding the finalizer exactly when that is missing |
| RepoCache.StepLeadsTo | controllers/repo-cache/repo_cache_handler.go:60-100 | a step that fails or writes from an old version ends the reconcile; which step follows a success |
| RepoCache.WorksOnRightCopy | controllers/repo-cache/repo_cache_handler.go:48-104 | over every run: only what is live, not migrated and ready is given the finalizer or opened, only what is being deleted is evicted or released |
| RepoCache.OpenedWasReady | controllers/repo-cache/repo_cache_handler.go:79-100 | over every run: what a reconcile opened, or is about to open, some read returned live, not migrated and ready |
| RepoCache.WritesOnlyFinalizer | controllers/repo-cache/repo_cache_handler.go:68-92 | the reconciler changes nothing of the object but its own finalizer, and only from the current version |
| RepoCache.CachedIff | controllers/repo-cache/repo_cache_handler.go:60-100 | over every run: cached exactly when a reconcile or an API call opened the repository since its last eviction |
| RepoCache.UnguardedCachedIff | controllers/repo-cache/repo_cache_handler.go:60-100 | in every interleaving: while no object carries the finalizer, in particular when the object is gone, the repository is cached exactly if an API call opened it since the last eviction |
| RepoCache.EntryCanOutliveObject | controllers/repo-cache/repo_cache_handler.go:60-73 | a run that ends with the repository cached and its object gone |
| RepoCache.RemovalFollowsEviction | controllers/repo-cache/repo_cache_handler.go:60-73 | in every interleaving: the finalizer is removed only from an object being deleted, after an eviction; the repository is then cached exactly if an API call opened it since |
| RepoCache.SomeRunOpens | controllers/repo-cache/repo_cache_handler.go:79-100 | every ready, live, unmigrated repository, with the finalizer or without, is opened in some run that leaves that very object guarded |
| RepoCache.DeletionPasses | controllers/repo-cache/repo_cache_handler.go:152-186 | if a delivered version is being deleted, an event that passes the filter carries such a version, no later |
| RepoCache.FilteredIff | controllers/repo-cache/repo_cache_handler.go:157-181 | an update event is dropped if and only if the older version was being deleted, or the newer is live, has the same generation and carries the finalizer |
| Watchers.WatcherManager.WatchPackageRevisions | pkg/engine/watchermanager.go:76-120 | finished watchers are cleared and the new one takes the first free slot or a new one; the count of active watchers |
| Watchers.WatcherManager.NotifyPackageRevisionChange | pkg/engine/watchermanager.go:123-145 | the slots, the callbacks made and their number |
| Watchers.CalledOnce | pkg/engine/watchermanager.go:128-142 | each live, unfinished watcher is called exactly once, no other |
| Watchers.SlotsRefineSet | pkg/engine/watchermanager.go:76-145 | over every run: no watcher in two slots, the slots hold exactly the live watchers, and their number is the peak of active watchers |
| Watchers.NotificationCalls | pkg/engine/watchermanager.go:123-145 | after every run: the calls and their count, none to a watcher seen finished or having declined |
| Discovery.IndexIsLast | pkg/controllerrestmapper/caching.go:109-126 | a kind is indexed exactly when a resource without a slash in its name provides it, with the name of the last one and Namespace scope exactly if that is namespaced |
| Discovery.ControllerRESTMapper.FetchKinds | pkg/controllerrestmapper/caching.go:87-129 | remembered kinds, or one question and its index; nothing is remembered for "no match" and errors |
| Discovery.FetchOutcome | pkg/controllerrestmapper/caching.go:87-129 | remembered kinds are returned without a question; otherwise one question, remembered exactly when it lists resources; other group-versions untouched |
| Discovery.ControllerRESTMapper.FindRESTMapping | pkg/controllerrestmapper/caching.go:57-84 | the lookup in one group-version and the cache after it |
| Discovery.ControllerRESTMapper.RESTMapping | pkg/controllerrestmapper/controllerrestmapper.go:71-84 | the scan over the versions and the cache after it |
| Discovery.ScanAgrees | pkg/controllerrestmapper/controllerrestmapper.go:71-84 | from a cache that agrees with a constant source, a scan returns what a direct scan returns and keeps the agreement |
| Discovery.DirectScanMeans | pkg/controllerrestmapper/controllerrestmapper.go:71-84 | nothing exactly when no version lists the kind; else the first version that does or fails decides: an error, or the last resource listed for the kind |
| Discovery.CachedCallsAreDirect | pkg/controllerrestmapper/controllerrestmapper.go:71-84 | every call of every sequence of cached calls returns what a direct scan returns |
| Discovery.FetchedKindsStay | pkg/controllerrestmapper/caching.go:93-95 | for any source, kinds once fetched stay the same over every sequence of calls |

## Left out

- Overlapping engine calls, in particular two creations whose checks both run before either draft is closed; the `version` passed to the close of a draft.
- Git, OCI and database repositories behind the repository interface: modelled by the interface's promises only.
- What a repository does with a second draft for a stored key: not promised by the interface; here it becomes a second revision.
- Rendering.Apply: says nothing about maps with keys that the validation of resource paths rejects.
- Tasks, `healConfig`, Kptfile parsing, package updates and the kpt renderer: arbitrary functions that may fail.
- The rest of `PatchKptfile` (`applyMapMetadata`, `syncReadinessGates`): easier members of the same kind as the condition merge.
- `FilepathSafeJoin` with a directory other than ".": `ValidateResourcePaths` uses no other.
- Which error is reported when several apply: only success or failure, and the state left behind.
- Label selectors, watch filters, credentials, identifiers, telemetry, servers, command line and generated code: plumbing.
- Restarts of the server, which empty the cache and may let reads go back: outside the finalizer protocol modelled here.
- Liveness: nothing says that a reconcile or an eviction eventually happens.
