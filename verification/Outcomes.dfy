/** What each call to the engine comes to, case by case, over the fields of the request, of the stored
    revision and of the answers it gets (pkg/engine/engine.go).  The cases of a call exclude one another
    and leave none out.
 */
module Outcomes {
  import opened Text
  import opened Effects
  import opened Names
  import opened PackageChecks
  import Paths
  import opened Engine

  /** The annotation that asks for a push in spite of a failed render. */
  predicate AsksForPush(m: Meta) {
    && "porch.kpt.dev/push-on-render-failure" in m.annotations
    && m.annotations["porch.kpt.dev/push-on-render-failure"] == "true"
  }

  /** The repository with one more or another revision under id. */
  function With(repo: Repo, id: nat, r: Revision): Repo {
    repo.(revisions := repo.revisions[id := r])
  }

  /* ---------- creating ---------- */

  /** The stored package has the leaf and workspace the request asks for. */
  predicate Repeats(k: Key, req: CreateRequest) {
    k.pkg == req.packageName && k.workspace == req.workspace
  }

  /** A request for an upgrade names its sources, and those among the revisions of the package are
      published. */
  ghost predicate SourcesPublished(repo: Repo, req: CreateRequest, sources: Option<set<string>>) {
    && sources.Some?
    && forall id | id in repo.revisions ::
         var r := repo.revisions[id];
         r.key.pkg == req.packageName
         && ComposePkgRevObjName(PkgRevKey(PkgKey(repo.name, r.key.path, r.key.pkg), r.key.workspace)) in sources.value
         ==> r.lifecycle == Published || r.lifecycle == DeletionProposed
  }

  /** Exactly which creations are accepted, on stored keys as every run leaves them. */
  lemma CreateAllowedIff(repo: Repo, req: CreateRequest)
    requires KeysValid(repo)
    ensures CreateAllowed(repo, req) <==>
              && |req.tasks| <= 1
              && (req.lifecycle == Unset || req.lifecycle == Draft || req.lifecycle == Proposed)
              && ValidRequest(repo.name, req.packageName, req.workspace)
              && (forall id | id in repo.revisions :: !Repeats(repo.revisions[id].key, req))
              && (req.tasks == [] || req.tasks[0] == Init || req.tasks[0] == Clone ==>
                    forall id | id in repo.revisions :: repo.revisions[id].key.pkg != FirstSegment(req.packageName))
              && (req.tasks != [] && req.tasks[0].Upgrade? ==> SourcesPublished(repo, req, req.tasks[0].sources))
  {
    UniqueIff(repo, req);
    LifecycleIff(req);
    if |req.tasks| <= 1 { TaskAllowedIff(repo, req); }
    hide ValidPkgRevObjName, SplitPackagePathName, WorkspaceIsUnique, Listed, Repeats, FirstSegment, KeysValid;
    hide TaskAllowed, SourcesPublished, LifecycleIsDraft, EffectiveTasks;
  }

  lemma LifecycleIff(req: CreateRequest)
    ensures LifecycleIsDraft(RequestedLifecycle(req)) <==>
              req.lifecycle == Unset || req.lifecycle == Draft || req.lifecycle == Proposed
  {
  }

  lemma TaskAllowedIff(repo: Repo, req: CreateRequest)
    requires KeysValid(repo) && |req.tasks| <= 1
    ensures TaskAllowed(repo, req, EffectiveTasks(req)[0]) <==>
              && (req.tasks == [] || req.tasks[0] == Init || req.tasks[0] == Clone ==>
                    forall id | id in repo.revisions :: repo.revisions[id].key.pkg != FirstSegment(req.packageName))
              && (req.tasks != [] && req.tasks[0].Upgrade? ==> SourcesPublished(repo, req, req.tasks[0].sources))
  {
    NamesClearIff(repo, req.packageName);
    hide Listed, FirstSegment, Clear, KeysValid, NamesIn, ComposePkgRevObjName;
    if req.packageName in NamesIn(Listed(repo), repo.name) {
      NameIsNotClear(NamesIn(Listed(repo), repo.name), req.packageName);
    }
  }

  lemma NameIsNotClear(names: set<string>, name: string)
    requires name in names
    ensures !Clear(names, name)
  {
  }

  lemma UniqueIff(repo: Repo, req: CreateRequest)
    ensures WorkspaceIsUnique(Listed(repo), req.packageName, req.workspace) <==>
              forall id | id in repo.revisions :: !Repeats(repo.revisions[id].key, req)
  {
    if id :| id in repo.revisions && Repeats(repo.revisions[id].key, req) {
      assert Existing(repo.name, repo.revisions[id].key.pkg, repo.revisions[id].key.workspace) in Listed(repo);
    }
  }

  lemma NamesClearIff(repo: Repo, name: string)
    requires KeysValid(repo)
    ensures Clear(NamesIn(Listed(repo), repo.name), name) <==>
              forall id | id in repo.revisions :: repo.revisions[id].key.pkg != FirstSegment(name)
  {
    hide PathsOverlap, FirstSegment, ValidDirectory, IsLabel;
    forall id | id in repo.revisions
      ensures repo.revisions[id].key.pkg in NamesIn(Listed(repo), repo.name)
      ensures var pkg := repo.revisions[id].key.pkg; pkg == name || PathsOverlap(name, pkg) <==> pkg == FirstSegment(name)
    {
      var k := repo.revisions[id].key;
      assert KeyValid(k);
      assert Existing(repo.name, k.pkg, k.workspace) in Listed(repo);
      LabelRejects(name, k.pkg);
    }
  }

  lemma LabelRejects(name: string, pkg: string)
    requires IsLabel(pkg)
    ensures pkg == name || PathsOverlap(name, pkg) <==> pkg == FirstSegment(name)
  {
    LabelIsNormal(pkg);
    LeafOfPlain(pkg);
    hide IsLabel, LeafName, PathsOverlap, Split;
    RejectedByFirstSegment(name, pkg);
  }

  /** A creation that is refused, or that cannot open, list or start a draft, changes nothing. */
  lemma RefusedCreate(repo: Repo, req: CreateRequest, w: CreateWorld)
    requires !CreateAllowed(repo, req) || !w.opens || !w.lists || !w.makesDraft
    ensures AfterCreate(repo, req, w) == repo && !CreateSucceeds(repo, req, w)
  {
    hide CreateAllowed;
  }

  /** The task produced resources, they rendered without error, and the draft took them. */
  predicate TaskDone(w: CreateWorld) {
    w.produced != None && w.render(w.produced.value).failed == false && w.update == Done
  }

  /** A creation whose draft took the resources and the lifecycle is stored unless the close fails before
      taking effect; success also needs the metadata to be set. */
  lemma FinishedCreate(repo: Repo, req: CreateRequest, w: CreateWorld)
    requires CreateAllowed(repo, req) && w.opens && w.lists && w.makesDraft && TaskDone(w) && w.setLifecycle == Done
    ensures var (path, pkg) := SplitPackagePathName(req.packageName);
            AfterCreate(repo, req, w) ==
              if w.close == FailedBefore then repo.(next := repo.next + 1)
              else With(repo.(next := repo.next + 1), repo.next,
                     Revision(Key(path, pkg, req.workspace), if req.lifecycle == Unset then Draft else req.lifecycle,
                       w.render(w.produced.value).contents, RenderedClean, req.meta))
    ensures CreateSucceeds(repo, req, w) <==> w.close == Done && w.setMeta == Done
  {
    hide CreateAllowed, SplitPackagePathName;
  }

  /** Otherwise the creation fails and is rolled back: nothing is left but the used identity, unless the
      draft was closed and not deleted; such a leftover is a Draft or in the requested lifecycle. */
  lemma RolledBackCreate(repo: Repo, req: CreateRequest, w: CreateWorld)
    requires Numbered(repo) && CreateAllowed(repo, req) && w.opens && w.lists && w.makesDraft
    requires !(TaskDone(w) && w.setLifecycle == Done)
    ensures !CreateSucceeds(repo, req, w)
    ensures var after := AfterCreate(repo, req, w);
            && after.name == repo.name && after.next == repo.next + 1
            && (repo.next in after.revisions <==>
                  w.rollbackClose == FailedAfter || (w.rollbackClose == Done && w.rollbackDelete == FailedBefore))
            && after.revisions - {repo.next} == repo.revisions
            && (repo.next in after.revisions && !TaskDone(w) ==> after.revisions[repo.next].lifecycle == Draft)
  {
    hide CreateAllowed, SplitPackagePathName;
  }

  /* ---------- updating a draft ---------- */

  /** What a close and the setting of metadata make of a worked draft. */
  function Stored(repo: Repo, id: nat, d: Revision, close: Effect, setMeta: Effect, meta: Meta): Repo {
    match close
    case FailedBefore => repo
    case FailedAfter => With(repo, id, d)
    case Done => With(repo, id, if setMeta == FailedBefore then d else d.(meta := meta))
  }

  /** An update without a version, or from another one, changes nothing and fails; so does one that cannot
      open the repository. */
  lemma StaleUpdate(repo: Repo, id: nat, req: UpdateRequest, w: UpdateWorld)
    requires id in repo.revisions && (req.newVersion == "" || req.newVersion != req.oldVersion || !w.opens)
    ensures AfterUpdate(repo, id, req, w) == repo && !UpdateSucceeds(repo.revisions[id], req, w)
    ensures !UpdateReachesClose(repo.revisions[id], req, w)
  {
  }

  predicate Current(req: UpdateRequest, w: UpdateWorld) {
    req.newVersion != "" && req.newVersion == req.oldVersion && w.opens
  }

  predicate LastFinalizerGone(r: Revision, req: UpdateRequest) {
    r.meta.deleting && req.meta.finalizers == {}
  }

  /** A current update of a Draft or a Proposed revision to one of the four lifecycles. */
  predicate Admitted(r: Revision, req: UpdateRequest, w: UpdateWorld) {
    && Current(req, w) && !LastFinalizerGone(r, req) && w.loadsDraft
    && (r.lifecycle == Draft || r.lifecycle == Proposed)
    && req.lifecycle in {Draft, Proposed, Published, DeletionProposed}
  }

  lemma NotAdmitted(repo: Repo, id: nat, req: UpdateRequest, w: UpdateWorld)
    requires id in repo.revisions && Current(req, w) && !LastFinalizerGone(repo.revisions[id], req)
    requires repo.revisions[id].lifecycle != Published && repo.revisions[id].lifecycle != DeletionProposed
    requires !Admitted(repo.revisions[id], req, w)
    ensures AfterUpdate(repo, id, req, w) == repo && !UpdateSucceeds(repo.revisions[id], req, w)
    ensures !UpdateReachesClose(repo.revisions[id], req, w)
  {
  }

  /** A Draft whose render reports no error goes to any requested lifecycle, with what was rendered. */
  lemma CleanDraftUpdate(repo: Repo, id: nat, req: UpdateRequest, w: UpdateWorld)
    requires id in repo.revisions && Admitted(repo.revisions[id], req, w) && repo.revisions[id].lifecycle == Draft
    requires w.update == Done && w.setLifecycle == Done
    requires var m := w.mutate(repo.revisions[id].contents); m != None && w.render(m.value).failed == false
    ensures var r := repo.revisions[id];
            var d := Revision(r.key, req.lifecycle, w.render(w.mutate(r.contents).value).contents, RenderedClean, r.meta);
            && AfterUpdate(repo, id, req, w) == Stored(repo, id, d, w.close, w.setMeta, req.meta)
            && UpdateReachesClose(r, req, w)
            && (UpdateSucceeds(r, req, w) <==> w.close == Done && w.setMeta == Done)
  {
  }

  /** A Proposed revision goes to any requested lifecycle with its contents as they are. */
  lemma ProposedUpdate(repo: Repo, id: nat, req: UpdateRequest, w: UpdateWorld)
    requires id in repo.revisions && Admitted(repo.revisions[id], req, w) && repo.revisions[id].lifecycle == Proposed
    requires w.setLifecycle == Done
    ensures var r := repo.revisions[id];
            var d := r.(lifecycle := req.lifecycle);
            && AfterUpdate(repo, id, req, w) == Stored(repo, id, d, w.close, w.setMeta, req.meta)
            && UpdateReachesClose(r, req, w)
            && (UpdateSucceeds(r, req, w) <==> w.close == Done && w.setMeta == Done)
  {
  }

  /** A Draft whose render failed is stored with what the render left exactly when the draft took it, the
      request asks for a push and the lifecycle stays Draft; otherwise nothing changes. */
  lemma FailedDraftUpdate(repo: Repo, id: nat, req: UpdateRequest, w: UpdateWorld)
    requires id in repo.revisions && Admitted(repo.revisions[id], req, w) && repo.revisions[id].lifecycle == Draft
    requires var m := w.mutate(repo.revisions[id].contents); m != None && w.render(m.value).failed
    ensures var r := repo.revisions[id];
            var d := Revision(r.key, Draft, w.render(w.mutate(r.contents).value).contents, RenderFailed, r.meta);
            var pushed := w.update == Done && AsksForPush(req.meta) && req.lifecycle == Draft && w.setLifecycle == Done;
            && AfterUpdate(repo, id, req, w) == (if pushed then Stored(repo, id, d, w.close, w.setMeta, req.meta) else repo)
            && (UpdateReachesClose(r, req, w) <==> pushed)
            && (UpdateSucceeds(r, req, w) <==> pushed && w.close == Done && w.setMeta == Done)
  {
  }

  /** A draft that cannot be mutated, written or moved is left as it was. */
  lemma BrokenDraftUpdate(repo: Repo, id: nat, req: UpdateRequest, w: UpdateWorld)
    requires id in repo.revisions && Admitted(repo.revisions[id], req, w)
    requires var r := repo.revisions[id];
             w.setLifecycle != Done || (r.lifecycle == Draft && (w.mutate(r.contents) == None || w.update != Done))
    ensures AfterUpdate(repo, id, req, w) == repo && !UpdateSucceeds(repo.revisions[id], req, w)
    ensures !UpdateReachesClose(repo.revisions[id], req, w)
  {
  }

  /* ---------- updating a published revision, or one being deleted ---------- */

  /** A published revision keeps key, contents and provenance; it moves only between Published and
      DeletionProposed, and any other request is refused. */
  lemma PublishedUpdate(repo: Repo, id: nat, req: UpdateRequest, w: UpdateWorld)
    requires id in repo.revisions && Current(req, w) && !LastFinalizerGone(repo.revisions[id], req)
    requires repo.revisions[id].lifecycle == Published || repo.revisions[id].lifecycle == DeletionProposed
    ensures var r := repo.revisions[id];
            var moved := r.(lifecycle := req.lifecycle);
            var move := if req.lifecycle == r.lifecycle then Done else w.move;
            var legal := req.lifecycle == Published || req.lifecycle == DeletionProposed;
            && AfterUpdate(repo, id, req, w) ==
                 (if !legal then repo else Stored(repo, id, moved, move, w.setMeta, req.meta))
            && (UpdateSucceeds(r, req, w) <==> legal && move == Done && w.setMeta == Done)
            && !UpdateReachesClose(r, req, w)
  {
    assert repo.revisions[id := repo.revisions[id]] == repo.revisions;
  }

  /** A revision being deleted goes when its last finalizer does: its metadata is set, then it is deleted. */
  lemma LastFinalizerUpdate(repo: Repo, id: nat, req: UpdateRequest, w: UpdateWorld)
    requires id in repo.revisions && Current(req, w) && LastFinalizerGone(repo.revisions[id], req)
    ensures var r, after := repo.revisions[id], AfterUpdate(repo, id, req, w);
            && (id in after.revisions <==> w.setMeta != Done || w.delete == FailedBefore)
            && after.revisions - {id} == repo.revisions - {id} && after.next == repo.next && after.name == repo.name
            && (id in after.revisions ==>
                  after.revisions[id] == if w.setMeta == FailedBefore then r else r.(meta := req.meta))
            && (UpdateSucceeds(r, req, w) <==> w.setMeta == Done && w.delete == Done)
            && !UpdateReachesClose(r, req, w)
  {
  }

  /* ---------- updating resources ---------- */

  /** A resource update of anything but a Draft, without a version or from another one, or that cannot get
      as far as writing the draft, changes nothing and fails. */
  lemma RefusedResources(repo: Repo, id: nat, req: ResourcesRequest, w: ResourcesWorld)
    requires id in repo.revisions
    requires || !w.gets || repo.revisions[id].lifecycle != Draft || req.newVersion == "" || req.newVersion != req.oldVersion
             || !w.opens || !w.loadsDraft || w.replace(repo.revisions[id].contents, Merged(req)) == None || w.update != Done
    ensures AfterResources(repo, id, req, w) == repo && !ResourcesClose(repo.revisions[id], req, w)
  {
    hide Merged;
  }

  /** Otherwise what the render of the replaced resources left is stored, if the render reported no error
      or the stored revision asks for a push; key, lifecycle and metadata stay. */
  lemma WrittenResources(repo: Repo, id: nat, req: ResourcesRequest, w: ResourcesWorld)
    requires id in repo.revisions && w.gets && repo.revisions[id].lifecycle == Draft
    requires req.newVersion != "" && req.newVersion == req.oldVersion && w.opens && w.loadsDraft && w.update == Done
    requires w.replace(repo.revisions[id].contents, Merged(req)) != None
    ensures var r := repo.revisions[id];
            var out := w.render(w.replace(r.contents, Merged(req)).value);
            var d := Revision(r.key, Draft, out.contents, if out.failed then RenderFailed else RenderedClean, r.meta);
            var pushed := !out.failed || AsksForPush(r.meta);
            && (ResourcesClose(r, req, w) <==> pushed)
            && AfterResources(repo, id, req, w) == if pushed && w.close != FailedBefore then With(repo, id, d) else repo
  {
    hide Merged;
  }

  /** An upload without rendering: stored exactly as sent, for a Draft, accepted keys and a current version. */
  lemma UploadOutcome(repo: Repo, id: nat, req: ResourcesRequest, w: ResourcesWorld)
    requires id in repo.revisions
    ensures var r := repo.revisions[id];
            var written := && req.newVersion != "" && req.newVersion == req.oldVersion && r.lifecycle == Draft
                           && (forall k | k in req.newResources :: Paths.Canonical(k))
                           && w.opens && w.loadsDraft && w.update == Done;
            && (UploadWritten(r, req, w) <==> written)
            && AfterUpload(repo, id, req, w) ==
                 if written && w.close != FailedBefore
                 then With(repo, id, Revision(r.key, Draft, req.newResources, Uploaded, r.meta)) else repo
  {
    Paths.ValidPathsAreCanonical(req.newResources.Keys);
    hide Paths.ValidateResourcePaths, Paths.Canonical;
  }
}
