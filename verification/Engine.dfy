/** The revision lifecycle engine (pkg/engine/engine.go, pkg/task/generictaskhandler.go).

    The methods of `CaDEngine` follow the Go code step by step over a repository whose calls may fail,
    before or after taking effect.  The `After...` functions say what each leaves stored; the theorems
    at the end are about every sequence of such calls.  Tasks, healing and rendering are arbitrary
    functions that may fail.
 */
module Engine {
  import opened Text
  import opened Effects
  import opened Names
  import opened ResourceSizes
  import opened PackageChecks
  import Paths

  /* ---------- revisions ---------- */

  datatype Lifecycle = Unset | Draft | Proposed | Published | DeletionProposed | Unsupported

  predicate LifecycleIsPublished(l: Lifecycle) { l.Published? || l.DeletionProposed? }

  predicate LifecycleIsDraft(l: Lifecycle) { l.Draft? || l.Proposed? }

  predicate LifecycleIsValid(l: Lifecycle) { LifecycleIsDraft(l) || LifecycleIsPublished(l) }

  /** Where the contents last written came from. */
  datatype Provenance = NothingWritten | Uploaded | RenderFailed | RenderedClean

  datatype Key = Key(path: string, pkg: string, workspace: string)

  datatype Meta = Meta(annotations: map<string, string>, finalizers: set<string>, deleting: bool)

  const PUSH_ON_RENDER_FAILURE_KEY := "porch.kpt.dev/push-on-render-failure"
  const PUSH_ON_RENDER_FAILURE_VALUE := "true"

  predicate IsPushOnRenderFailure(m: Meta) {
    PUSH_ON_RENDER_FAILURE_KEY in m.annotations
    && m.annotations[PUSH_ON_RENDER_FAILURE_KEY] == PUSH_ON_RENDER_FAILURE_VALUE
  }

  /** A stored revision, and also the draft an operation works on before it is closed. */
  datatype Revision = Revision(key: Key, lifecycle: Lifecycle, contents: Contents, provenance: Provenance, meta: Meta)

  /** The repository: revisions by identity, and the next identity to give out. */
  datatype Repo = Repo(name: string, revisions: map<nat, Revision>, next: nat)

  function Put(repo: Repo, id: nat, r: Revision): Repo {
    repo.(revisions := repo.revisions[id := r])
  }

  function Remove(repo: Repo, id: nat): Repo {
    repo.(revisions := repo.revisions - {id})
  }

  /** SetMeta of a stored revision. */
  function WithMeta(repo: Repo, id: nat, m: Meta, e: Effect): Repo {
    if id in repo.revisions && TakesEffect(e) then Put(repo, id, repo.revisions[id].(meta := m)) else repo
  }

  function KubeObjectName(repo: Repo, k: Key): string {
    ComposePkgRevObjName(PkgRevKey(PkgKey(repo.name, k.path, k.pkg), k.workspace))
  }

  /* ---------- drafts and rendering ---------- */

  datatype Rendered = Rendered(contents: Contents, failed: bool)

  type Renderer = Contents -> Rendered

  /** nil, a RenderError, a RenderPersistError, or any other error. */
  datatype MutationError = NoError | RenderError | RenderPersistError | OtherError

  /** UpdateResources of a draft. */
  function WriteDraft(d: Revision, contents: Contents, p: Provenance, e: Effect): Revision {
    if TakesEffect(e) then d.(contents := contents, provenance := p) else d
  }

  /** renderResources: render, write the result to the draft whether the render failed or not. */
  function RenderResources(d: Revision, contents: Contents, render: Renderer, update: Effect): (Revision, MutationError) {
    var out := render(contents);
    var d' := WriteDraft(d, out.contents, if out.failed then RenderFailed else RenderedClean, update);
    (d', if out.failed then (if Succeeds(update) then RenderError else RenderPersistError)
         else if Succeeds(update) then NoError else OtherError)
  }

  /** handleMutationError: whether the operation must stop. */
  predicate StopsOn(err: MutationError, m: Meta) {
    match err
    case NoError => false
    case RenderPersistError => true
    case OtherError => true
    case RenderError => !IsPushOnRenderFailure(m)
  }

  /* ---------- creating ---------- */

  datatype Task = Init | Clone | Upgrade(sources: Option<set<string>>) | EditTask | OtherTask

  datatype CreateRequest = CreateRequest(
    packageName: string, workspace: string, lifecycle: Lifecycle, tasks: seq<Task>, meta: Meta)

  /** What the outside world answers while a revision is created. */
  datatype CreateWorld = CreateWorld(
    opens: bool,                  // OpenRepository
    lists: bool,                  // ListPackageRevisions
    makesDraft: bool,             // CreatePackageRevisionDraft
    produced: Option<Contents>,   // ApplyTask's resources, metadata applied
    render: Renderer,
    update: Effect,               // draft.UpdateResources
    setLifecycle: Effect,         // draft.UpdateLifecycle
    close: Effect,
    setMeta: Effect,
    rollbackClose: Effect,
    rollbackDelete: Effect)

  function EffectiveTasks(req: CreateRequest): seq<Task> {
    if req.tasks == [] then [Init] else req.tasks
  }

  function RequestedLifecycle(req: CreateRequest): Lifecycle {
    if req.lifecycle.Unset? then Draft else req.lifecycle
  }

  function RequestedKey(req: CreateRequest): Key {
    var (path, pkg) := SplitPackagePathName(req.packageName);
    Key(path, pkg, req.workspace)
  }

  function Listed(repo: Repo): set<Existing> {
    set id | id in repo.revisions ::
      Existing(repo.name, repo.revisions[id].key.pkg, repo.revisions[id].key.workspace)
  }

  /** validateUpgradeTask on the revisions of the package. */
  predicate UpgradeSourcesPublished(repo: Repo, packageName: string, sources: set<string>) {
    forall id | id in repo.revisions && repo.revisions[id].key.pkg == packageName
                && KubeObjectName(repo, repo.revisions[id].key) in sources ::
      LifecycleIsPublished(repo.revisions[id].lifecycle)
  }

  predicate TaskAllowed(repo: Repo, req: CreateRequest, task: Task) {
    var names := NamesIn(Listed(repo), repo.name);
    match task
    case Clone => req.packageName !in names && Clear(names, req.packageName)
    case Init => Clear(names, req.packageName)
    case Upgrade(sources) => sources.Some? && UpgradeSourcesPublished(repo, req.packageName, sources.value)
    case EditTask => true
    case OtherTask => true
  }

  /** The checks made before any draft exists. */
  predicate CreateAllowed(repo: Repo, req: CreateRequest) {
    var k := RequestedKey(req);
    && |req.tasks| <= 1
    && LifecycleIsDraft(RequestedLifecycle(req))
    && ValidPkgRevObjName(PkgRevKey(PkgKey(repo.name, k.path, k.pkg), k.workspace))
    && WorkspaceIsUnique(Listed(repo), req.packageName, req.workspace)
    && TaskAllowed(repo, req, EffectiveTasks(req)[0])
  }

  function NewDraft(req: CreateRequest): Revision {
    Revision(RequestedKey(req), Draft, map[], NothingWritten, req.meta)
  }

  predicate TaskApplied(w: CreateWorld) {
    w.produced.Some? && !w.render(w.produced.value).failed && Succeeds(w.update)
  }

  /** The draft when the work on it ends, in success or failure. */
  function WorkedDraft(req: CreateRequest, w: CreateWorld): Revision {
    var d := NewDraft(req);
    if w.produced.None? || w.render(w.produced.value).failed then d
    else
      var d' := WriteDraft(d, w.render(w.produced.value).contents, RenderedClean, w.update);
      if Succeeds(w.update) && TakesEffect(w.setLifecycle) then d'.(lifecycle := RequestedLifecycle(req)) else d'
  }

  function AfterCreate(repo: Repo, req: CreateRequest, w: CreateWorld): Repo {
    if !(CreateAllowed(repo, req) && w.opens && w.lists && w.makesDraft) then repo
    else
      var id, base := repo.next, repo.(next := repo.next + 1);
      var stored :=
        if TaskApplied(w) && Succeeds(w.setLifecycle) then TakesEffect(w.close)
        else TakesEffect(w.rollbackClose) && !(Succeeds(w.rollbackClose) && TakesEffect(w.rollbackDelete));
      if stored then Put(base, id, WorkedDraft(req, w)) else base
  }

  /** The creation reports success. */
  predicate CreateSucceeds(repo: Repo, req: CreateRequest, w: CreateWorld) {
    CreateAllowed(repo, req) && AllSucceed(w) && Succeeds(w.setMeta)
  }

  /** Everything up to the close of the draft succeeds. */
  predicate AllSucceed(w: CreateWorld) {
    && w.opens && w.lists && w.makesDraft && TaskApplied(w)
    && Succeeds(w.setLifecycle) && Succeeds(w.close)
  }

  /* ---------- updating ---------- */

  datatype UpdateRequest = UpdateRequest(newVersion: string, oldVersion: string, lifecycle: Lifecycle, meta: Meta)

  datatype UpdateWorld = UpdateWorld(
    opens: bool,
    loadsDraft: bool,                      // repo.UpdatePackageRevision
    mutate: Contents -> Option<Contents>,  // subpackage task and Kptfile patch
    render: Renderer,
    update: Effect,
    setLifecycle: Effect,                  // of the draft
    move: Effect,                          // UpdateLifecycle of a published revision
    close: Effect,
    setMeta: Effect,
    delete: Effect)

  predicate VersionAccepted(newVersion: string, oldVersion: string) {
    newVersion != "" && newVersion == oldVersion
  }

  /** DoPRMutations: only a Draft is changed and rendered. */
  function DoPRMutations(r: Revision, w: UpdateWorld): (Revision, MutationError) {
    if !r.lifecycle.Draft? then (r, NoError)
    else
      match w.mutate(r.contents)
      case None => (r, OtherError)
      case Some(c) => RenderResources(r, c, w.render, w.update)
  }

  predicate UpdateCloses(r: Revision, req: UpdateRequest, w: UpdateWorld) {
    var err := DoPRMutations(r, w).1;
    !StopsOn(err, req.meta) && (err.NoError? || req.lifecycle == r.lifecycle) && Succeeds(w.setLifecycle)
  }

  /** The update gets as far as closing its draft. */
  predicate UpdateReachesClose(r: Revision, req: UpdateRequest, w: UpdateWorld) {
    && VersionAccepted(req.newVersion, req.oldVersion) && w.opens
    && !(r.meta.deleting && req.meta.finalizers == {})
    && LifecycleIsDraft(r.lifecycle) && LifecycleIsValid(req.lifecycle) && w.loadsDraft
    && UpdateCloses(r, req, w)
  }

  /** The update reports success. */
  predicate UpdateSucceeds(r: Revision, req: UpdateRequest, w: UpdateWorld) {
    && VersionAccepted(req.newVersion, req.oldVersion) && w.opens && Succeeds(w.setMeta)
    && if r.meta.deleting && req.meta.finalizers == {} then Succeeds(w.delete)
       else if LifecycleIsPublished(r.lifecycle) then
         req.lifecycle == r.lifecycle || (LifecycleIsPublished(req.lifecycle) && Succeeds(w.move))
       else UpdateReachesClose(r, req, w) && Succeeds(w.close)
  }

  /** A published revision may only move between Published and DeletionProposed. */
  function AfterPublishedUpdate(repo: Repo, id: nat, req: UpdateRequest, w: UpdateWorld): Repo
    requires id in repo.revisions
  {
    var r := repo.revisions[id];
    var legal := LifecycleIsPublished(req.lifecycle);
    if req.lifecycle == r.lifecycle then WithMeta(repo, id, req.meta, w.setMeta)
    else if !legal || w.move.FailedBefore? then repo
    else
      var moved := Put(repo, id, r.(lifecycle := req.lifecycle));
      if Succeeds(w.move) then WithMeta(moved, id, req.meta, w.setMeta) else moved
  }

  function AfterUpdate(repo: Repo, id: nat, req: UpdateRequest, w: UpdateWorld): Repo
    requires id in repo.revisions
  {
    var r := repo.revisions[id];
    if !VersionAccepted(req.newVersion, req.oldVersion) || !w.opens then repo
    else if r.meta.deleting && req.meta.finalizers == {} then
      var marked := WithMeta(repo, id, req.meta, w.setMeta);
      if Succeeds(w.setMeta) && TakesEffect(w.delete) then Remove(marked, id) else marked
    else if LifecycleIsPublished(r.lifecycle) then AfterPublishedUpdate(repo, id, req, w)
    else if !UpdateReachesClose(r, req, w) || !TakesEffect(w.close) then repo
    else
      var closed := Put(repo, id, DoPRMutations(r, w).0.(lifecycle := req.lifecycle));
      if Succeeds(w.close) then WithMeta(closed, id, req.meta, w.setMeta) else closed
  }

  /* ---------- updating resources ---------- */

  datatype ResourcesRequest = ResourcesRequest(
    newVersion: string, oldVersion: string, oldResources: Contents, newResources: Contents, partial: bool)

  datatype ResourcesWorld = ResourcesWorld(
    gets: bool,                                         // GetPackageRevision
    opens: bool,
    loadsDraft: bool,
    replace: (Contents, Contents) -> Option<Contents>,  // the replace mutation
    render: Renderer,
    update: Effect,
    close: Effect)

  function Merged(req: ResourcesRequest): Contents {
    if req.partial then req.oldResources + req.newResources else req.newResources
  }

  /** The checks before the draft is changed, and the replace mutation. */
  predicate ResourcesReady(r: Revision, req: ResourcesRequest, w: ResourcesWorld) {
    && w.gets && r.lifecycle.Draft? && VersionAccepted(req.newVersion, req.oldVersion)
    && w.opens && w.loadsDraft && w.replace(r.contents, Merged(req)).Some?
  }

  /** The draft is closed exactly when its resources were written, and either the render succeeded or
      the stored revision asks to be pushed all the same. */
  predicate ResourcesClose(r: Revision, req: ResourcesRequest, w: ResourcesWorld) {
    && ResourcesReady(r, req, w)
    && Succeeds(w.update)
    && (!w.render(w.replace(r.contents, Merged(req)).value).failed || IsPushOnRenderFailure(r.meta))
  }

  function AfterResources(repo: Repo, id: nat, req: ResourcesRequest, w: ResourcesWorld): Repo
    requires id in repo.revisions
  {
    var r := repo.revisions[id];
    if ResourcesClose(r, req, w) && TakesEffect(w.close) then
      var out := w.render(w.replace(r.contents, Merged(req)).value);
      Put(repo, id, r.(contents := out.contents, provenance := if out.failed then RenderFailed else RenderedClean))
    else repo
  }

  predicate UploadWritten(r: Revision, req: ResourcesRequest, w: ResourcesWorld) {
    && VersionAccepted(req.newVersion, req.oldVersion) && r.lifecycle.Draft?
    && Paths.ValidateResourcePaths(req.newResources.Keys) && w.opens && w.loadsDraft && Succeeds(w.update)
  }

  function AfterUpload(repo: Repo, id: nat, req: ResourcesRequest, w: ResourcesWorld): Repo
    requires id in repo.revisions
  {
    var r := repo.revisions[id];
    if UploadWritten(r, req, w) && TakesEffect(w.close)
    then Put(repo, id, r.(contents := req.newResources, provenance := Uploaded))
    else repo
  }

  function AfterDelete(repo: Repo, id: nat, opens: bool, delete: Effect): Repo {
    if opens && TakesEffect(delete) then Remove(repo, id) else repo
  }

  /** makePackageRevisionResources: a copy of the old resources overwritten by the new, or the new. */
  method MakePackageRevisionResources(req: ResourcesRequest) returns (m: Contents)
    ensures m == Merged(req)
    ensures forall k | k in req.newResources :: k in m && m[k] == req.newResources[k]
    ensures forall k | k !in req.newResources :: k in m <==> req.partial && k in req.oldResources
    ensures forall k | k in m && k !in req.newResources :: m[k] == req.oldResources[k]
  {
    if !req.partial { return req.newResources; }
    var copy := CopyInto(map[], req.oldResources);
    m := CopyInto(copy, req.newResources);
    assert map[] + req.oldResources == req.oldResources;
  }

  method CopyInto(target: Contents, source: Contents) returns (m: Contents)
    ensures m == target + source
  {
    hide *;
    m := target;
    var todo := source.Keys;
    ghost var copied: set<string> := {};
    CopyNothing(target, source);
    while todo != {}
      invariant todo <= source.Keys && copied == source.Keys - todo
      invariant m == target + Restrict(source, copied)
      decreases |todo|
    {
      var k :| k in todo;
      CopyStep(target, source, copied, k);
      m := m[k := source[k]];
      todo := todo - {k};
      copied := copied + {k};
    }
    assert copied == source.Keys;
  }

  lemma CopyNothing(target: Contents, source: Contents)
    ensures target + Restrict(source, {}) == target
  {
  }

  lemma CopyStep(target: Contents, source: Contents, copied: set<string>, k: string)
    requires k in source
    ensures (target + Restrict(source, copied))[k := source[k]] == target + Restrict(source, copied + {k})
  {
  }

  /* ---------- the engine ---------- */

  class CaDEngine {
    var repo: Repo
    /** How often ClosePackageRevisionDraft was called. */
    var closes: nat

    constructor (name: string)
      ensures repo == Repo(name, map[], 0) && closes == 0
    {
      repo, closes := Repo(name, map[], 0), 0;
    }

    method ClosePackageRevisionDraft(id: nat, draft: Revision, e: Effect) returns (ok: bool)
      modifies this
      ensures closes == old(closes) + 1
      ensures repo == if TakesEffect(e) then Put(old(repo), id, draft) else old(repo)
      ensures ok <==> Succeeds(e)
    {
      closes := closes + 1;
      if TakesEffect(e) { repo := Put(repo, id, draft); }
      ok := Succeeds(e);
    }

    method CreatePackageRevision(req: CreateRequest, w: CreateWorld) returns (ok: bool)
      requires repo.next !in repo.revisions
      modifies this
      ensures repo == AfterCreate(old(repo), req, w)
      ensures ok <==> CreateSucceeds(old(repo), req, w)
      ensures ok ==> old(repo.next) in repo.revisions
                     && repo.revisions[old(repo.next)].lifecycle == (if req.lifecycle == Unset then Draft else req.lifecycle)
                     && repo.revisions[old(repo.next)].provenance == RenderedClean
    {
      hide ValidPkgRevObjName, TaskAllowed, WorkspaceIsUnique, SplitPackagePathName;
      if |req.tasks| > 1 { return false; }
      var task := EffectiveTasks(req)[0];
      var lifecycle := RequestedLifecycle(req);
      if !LifecycleIsDraft(lifecycle) { return false; }
      if !w.opens { return false; }
      var k := RequestedKey(req);
      if !ValidPkgRevObjName(PkgRevKey(PkgKey(repo.name, k.path, k.pkg), k.workspace)) { return false; }
      if !w.lists { return false; }
      if !WorkspaceIsUnique(Listed(repo), req.packageName, req.workspace) { return false; }
      if !TaskAllowed(repo, req, task) { return false; }
      if !w.makesDraft { return false; }
      var id := repo.next;
      var draft := NewDraft(req);
      repo := repo.(next := id + 1);
      // ApplyTask
      var failed := true;
      if w.produced.Some? {
        var out := w.render(w.produced.value);
        if !out.failed {
          draft := WriteDraft(draft, out.contents, RenderedClean, w.update);
          failed := !Succeeds(w.update);
        }
      }
      if !failed {
        if TakesEffect(w.setLifecycle) { draft := draft.(lifecycle := lifecycle); }
        failed := !Succeeds(w.setLifecycle);
      }
      if failed {
        Rollback(id, draft, w.rollbackClose, w.rollbackDelete);
        return false;
      }
      ok := ClosePackageRevisionDraft(id, draft, w.close);
      if !ok { return false; }
      ok := Succeeds(w.setMeta);
    }

    /** The rollback of a failed creation: close the draft so that it can be deleted, then delete it. */
    method Rollback(id: nat, draft: Revision, close: Effect, delete: Effect)
      requires id !in repo.revisions
      modifies this
      ensures repo == if TakesEffect(close) && !(Succeeds(close) && TakesEffect(delete))
                      then Put(old(repo), id, draft) else old(repo)
    {
      var closed := ClosePackageRevisionDraft(id, draft, close);
      if closed && TakesEffect(delete) {
        repo := Remove(repo, id);
        assert repo.revisions == old(repo).revisions;
      }
    }

    method SetMeta(id: nat, m: Meta, e: Effect) returns (ok: bool)
      modifies this
      ensures repo == WithMeta(old(repo), id, m, e) && (ok <==> Succeeds(e)) && closes == old(closes)
    {
      repo := WithMeta(repo, id, m, e);
      ok := Succeeds(e);
    }

    method UpdatePackageRevision(id: nat, req: UpdateRequest, w: UpdateWorld) returns (ok: bool)
      requires id in repo.revisions
      modifies this
      ensures repo == AfterUpdate(old(repo), id, req, w)
      ensures closes == old(closes) + if UpdateReachesClose(old(repo.revisions[id]), req, w) then 1 else 0
      ensures ok <==> UpdateSucceeds(old(repo.revisions[id]), req, w)
    {
      if req.newVersion == "" { return false; }
      if req.newVersion != req.oldVersion { return false; }
      if !w.opens { return false; }
      var r := repo.revisions[id];
      if r.meta.deleting && req.meta.finalizers == {} {
        ok := SetMeta(id, req.meta, w.setMeta);
        if !ok { return false; }
        if TakesEffect(w.delete) { repo := Remove(repo, id); }
        return Succeeds(w.delete);
      }
      if LifecycleIsPublished(r.lifecycle) {
        if req.lifecycle != r.lifecycle {
          if !LifecycleIsPublished(req.lifecycle) { return false; }
          if TakesEffect(w.move) { repo := Put(repo, id, r.(lifecycle := req.lifecycle)); }
          if !Succeeds(w.move) { return false; }
        }
        ok := SetMeta(id, req.meta, w.setMeta);
        return;
      }
      if !LifecycleIsDraft(r.lifecycle) { return false; }
      if !LifecycleIsValid(req.lifecycle) { return false; }
      if !w.loadsDraft { return false; }
      var (draft, err) := DoPRMutations(r, w);
      if !err.NoError? {
        if StopsOn(err, req.meta) { return false; }
        if req.lifecycle != r.lifecycle { return false; }
      }
      if TakesEffect(w.setLifecycle) { draft := draft.(lifecycle := req.lifecycle); }
      if !Succeeds(w.setLifecycle) { return false; }
      ok := ClosePackageRevisionDraft(id, draft, w.close);
      if !ok { return false; }
      ok := SetMeta(id, req.meta, w.setMeta);
    }

    method UpdatePackageResources(id: nat, req: ResourcesRequest, w: ResourcesWorld) returns (ok: bool)
      requires id in repo.revisions
      modifies this
      ensures repo == AfterResources(old(repo), id, req, w)
      ensures closes == old(closes) + if ResourcesClose(old(repo.revisions[id]), req, w) then 1 else 0
      ensures ok <==> ResourcesClose(old(repo.revisions[id]), req, w) && Succeeds(w.close)
                      && !w.render(w.replace(old(repo.revisions[id].contents), Merged(req)).value).failed
    {
      if !w.gets { return false; }
      var r := repo.revisions[id];
      if !r.lifecycle.Draft? { return false; }
      if req.newVersion == "" { return false; }
      if req.newVersion != req.oldVersion { return false; }
      if !w.opens { return false; }
      if !w.loadsDraft { return false; }
      var resources := MakePackageRevisionResources(req);
      var err := OtherError;
      var draft := r;
      var applied := w.replace(r.contents, resources);
      if applied.Some? {
        var rendered := RenderResources(draft, applied.value, w.render, w.update);
        draft, err := rendered.0, rendered.1;
      }
      if !err.NoError? {
        if StopsOn(err, r.meta) { return false; }
      }
      var closed := ClosePackageRevisionDraft(id, draft, w.close);
      return closed && err.NoError?;
    }

    method UpdatePackageResourcesWithoutRender(id: nat, req: ResourcesRequest, w: ResourcesWorld) returns (ok: bool)
      requires id in repo.revisions
      modifies this
      ensures repo == AfterUpload(old(repo), id, req, w)
      ensures ok <==> UploadWritten(old(repo.revisions[id]), req, w) && Succeeds(w.close)
    {
      hide Paths.ValidateResourcePaths;
      if req.newVersion == "" { return false; }
      if req.newVersion != req.oldVersion { return false; }
      var r := repo.revisions[id];
      if !r.lifecycle.Draft? { return false; }
      if !Paths.ValidateResourcePaths(req.newResources.Keys) { return false; }
      if !w.opens { return false; }
      if !w.loadsDraft { return false; }
      var draft := WriteDraft(r, req.newResources, Uploaded, w.update);
      if !Succeeds(w.update) { return false; }
      ok := ClosePackageRevisionDraft(id, draft, w.close);
    }

    method DeletePackageRevision(id: nat, opens: bool, delete: Effect) returns (ok: bool)
      modifies this
      ensures repo == AfterDelete(old(repo), id, opens, delete)
      ensures ok <==> opens && Succeeds(delete)
      ensures ok ==> id !in repo.revisions
      ensures id in repo.revisions <==> id in old(repo.revisions) && (!opens || delete.FailedBefore?)
      ensures id in repo.revisions ==> repo == old(repo)
      ensures repo.next == old(repo.next) && repo.revisions.Keys - {id} == old(repo.revisions.Keys) - {id}
      ensures forall other | other in repo.revisions :: repo.revisions[other] == old(repo.revisions)[other]
    {
      if !opens { return false; }
      if TakesEffect(delete) { repo := Remove(repo, id); }
      ok := Succeeds(delete);
    }
  }

  /* ---------- every sequence of calls ---------- */

  datatype Call =
    | Create(create: CreateRequest, createWorld: CreateWorld)
    | Update(id: nat, update: UpdateRequest, updateWorld: UpdateWorld)
    | UpdateResources(id: nat, resources: ResourcesRequest, resourcesWorld: ResourcesWorld)
    | Upload(id: nat, resources: ResourcesRequest, resourcesWorld: ResourcesWorld)
    | Delete(id: nat, opens: bool, delete: Effect)

  function After(repo: Repo, c: Call): Repo {
    match c
    case Create(req, w) => AfterCreate(repo, req, w)
    case Update(id, req, w) => if id in repo.revisions then AfterUpdate(repo, id, req, w) else repo
    case UpdateResources(id, req, w) => if id in repo.revisions then AfterResources(repo, id, req, w) else repo
    case Upload(id, req, w) => if id in repo.revisions then AfterUpload(repo, id, req, w) else repo
    case Delete(id, opens, delete) => AfterDelete(repo, id, opens, delete)
  }

  function Run(repo: Repo, calls: seq<Call>): Repo {
    if calls == [] then repo else After(Run(repo, calls[..|calls| - 1]), calls[|calls| - 1])
  }

  function EmptyRepo(name: string): Repo {
    Repo(name, map[], 0)
  }

  /** A revision outside Draft holds what a render without error produced. */
  predicate Sound(r: Revision) {
    LifecycleIsValid(r.lifecycle) && (!r.lifecycle.Draft? ==> r.provenance.RenderedClean?)
  }

  predicate AllSound(repo: Repo) {
    forall id | id in repo.revisions :: Sound(repo.revisions[id])
  }

  predicate Numbered(repo: Repo) {
    forall id | id in repo.revisions :: id < repo.next
  }

  /** What one call may do to one stored revision. */
  ghost predicate Step(before: Revision, after: Revision) {
    && after.key == before.key
    && (!before.lifecycle.Draft? ==> after.contents == before.contents && after.provenance == before.provenance)
    && (LifecycleIsPublished(before.lifecycle) ==> LifecycleIsPublished(after.lifecycle))
    && (Sound(before) ==> Sound(after))
  }

  /** What one call may do to the repository: revisions change by steps, at most one is new, and it is
      a sound one with the next identity. */
  ghost predicate RepoStep(before: Repo, after: Repo) {
    && after.name == before.name
    && before.next <= after.next
    && (forall id | id in after.revisions && id in before.revisions :: Step(before.revisions[id], after.revisions[id]))
    && forall id | id in after.revisions && id !in before.revisions ::
         id == before.next < after.next && Sound(after.revisions[id])
  }

  lemma CreateSteps(repo: Repo, req: CreateRequest, w: CreateWorld)
    requires Numbered(repo)
    ensures RepoStep(repo, AfterCreate(repo, req, w))
  {
    hide CreateAllowed, WorkedDraft, Sound;
    StepRefl(repo);
    hide Step;
    if CreateAllowed(repo, req) { CreatedIsSound(repo, req, w); }
  }

  lemma CreatedIsSound(repo: Repo, req: CreateRequest, w: CreateWorld)
    requires CreateAllowed(repo, req)
    ensures Sound(WorkedDraft(req, w))
  {
  }

  lemma ClosedUpdateSteps(r: Revision, req: UpdateRequest, w: UpdateWorld)
    requires LifecycleIsDraft(r.lifecycle) && LifecycleIsValid(req.lifecycle) && UpdateCloses(r, req, w)
    ensures Step(r, DoPRMutations(r, w).0.(lifecycle := req.lifecycle))
  {
  }

  lemma PutSteps(repo: Repo, id: nat, r: Revision)
    requires id in repo.revisions && Step(repo.revisions[id], r)
    ensures RepoStep(repo, Put(repo, id, r))
  {
  }

  lemma PublishedUpdateSteps(repo: Repo, id: nat, req: UpdateRequest, w: UpdateWorld)
    requires id in repo.revisions && LifecycleIsPublished(repo.revisions[id].lifecycle)
    ensures RepoStep(repo, AfterPublishedUpdate(repo, id, req, w))
  {
    var after := AfterPublishedUpdate(repo, id, req, w);
    assert after == Put(repo, id, after.revisions[id]);
    PutSteps(repo, id, after.revisions[id]);
    hide RepoStep;
  }

  lemma UpdateSteps(repo: Repo, id: nat, req: UpdateRequest, w: UpdateWorld)
    requires id in repo.revisions
    ensures RepoStep(repo, AfterUpdate(repo, id, req, w))
  {
    hide UpdateCloses, DoPRMutations, AfterPublishedUpdate;
    var r := repo.revisions[id];
    if LifecycleIsPublished(r.lifecycle) {
      PublishedUpdateSteps(repo, id, req, w);
    } else if LifecycleIsDraft(r.lifecycle) && LifecycleIsValid(req.lifecycle) && UpdateCloses(r, req, w) {
      ClosedUpdateSteps(r, req, w);
    }
  }

  lemma ResourcesSteps(repo: Repo, id: nat, req: ResourcesRequest, w: ResourcesWorld)
    requires id in repo.revisions
    ensures RepoStep(repo, AfterResources(repo, id, req, w))
  {
  }

  lemma UploadSteps(repo: Repo, id: nat, req: ResourcesRequest, w: ResourcesWorld)
    requires id in repo.revisions
    ensures RepoStep(repo, AfterUpload(repo, id, req, w))
  {
  }

  lemma CallSteps(repo: Repo, c: Call)
    requires Numbered(repo)
    ensures RepoStep(repo, After(repo, c)) && Numbered(After(repo, c))
  {
    hide AfterCreate, AfterUpdate, AfterResources, AfterUpload, Step, Sound;
    StepRefl(repo);
    match c {
      case Create(req, w) => CreateSteps(repo, req, w);
      case Update(id, req, w) => if id in repo.revisions { UpdateSteps(repo, id, req, w); }
      case UpdateResources(id, req, w) => if id in repo.revisions { ResourcesSteps(repo, id, req, w); }
      case Upload(id, req, w) => if id in repo.revisions { UploadSteps(repo, id, req, w); }
      case Delete(id, opens, delete) =>
    }
  }

  lemma StepRefl(repo: Repo)
    ensures forall id | id in repo.revisions :: Step(repo.revisions[id], repo.revisions[id])
  {
  }

  /** Over every run from an empty repository, with every call free to fail before or after taking
      effect: a stored revision that is not a Draft holds contents whose render reported no error. */
  lemma {:induction false} NonDraftRendersClean(name: string, calls: seq<Call>)
    ensures var repo := Run(EmptyRepo(name), calls);
            AllSound(repo) && Numbered(repo)
  {
    hide After, Step, Sound;
    if calls != [] {
      NonDraftRendersClean(name, calls[..|calls| - 1]);
      var before := Run(EmptyRepo(name), calls[..|calls| - 1]);
      CallSteps(before, calls[|calls| - 1]);
      SoundStep(before, Run(EmptyRepo(name), calls));
    }
  }

  lemma SoundStep(before: Repo, after: Repo)
    requires AllSound(before) && RepoStep(before, after)
    ensures AllSound(after)
  {
  }

  /** Call c, made on this repository, rendered these contents without error for the revision id that it
      creates or finds in Draft, from the resources the call itself produced, mutated or replaced. */
  ghost predicate RenderedBy(repo: Repo, c: Call, id: nat, contents: Contents) {
    match c
    case Create(_, w) =>
      id == repo.next && w.produced.Some? && w.render(w.produced.value) == Rendered(contents, false)
    case Update(target, _, w) =>
      && id == target && id in repo.revisions && repo.revisions[id].lifecycle.Draft?
      && var m := w.mutate(repo.revisions[id].contents);
         m.Some? && w.render(m.value) == Rendered(contents, false)
    case UpdateResources(target, req, w) =>
      && id == target && id in repo.revisions && repo.revisions[id].lifecycle.Draft?
      && var m := w.replace(repo.revisions[id].contents, Merged(req));
         m.Some? && w.render(m.value) == Rendered(contents, false)
    case Upload(_, _, _) => false
    case Delete(_, _, _) => false
  }

  /** A revision that is as cleanly rendered as before. */
  ghost predicate StillClean(repo: Repo, id: nat, contents: Contents) {
    id in repo.revisions && repo.revisions[id].provenance.RenderedClean? && repo.revisions[id].contents == contents
  }

  lemma MutationOutput(r: Revision, w: UpdateWorld)
    ensures var d, m := DoPRMutations(r, w).0, w.mutate(r.contents);
            d.provenance.RenderedClean? ==>
              || (r.provenance.RenderedClean? && r.contents == d.contents)
              || (r.lifecycle.Draft? && m.Some? && w.render(m.value) == Rendered(d.contents, false))
  {
  }

  lemma UpdateOutput(repo: Repo, id: nat, req: UpdateRequest, w: UpdateWorld)
    requires id in repo.revisions && id in AfterUpdate(repo, id, req, w).revisions
    ensures var r, r' := repo.revisions[id], AfterUpdate(repo, id, req, w).revisions[id];
            || (r'.contents == r.contents && r'.provenance == r.provenance)
            || (r'.contents == DoPRMutations(r, w).0.contents && r'.provenance == DoPRMutations(r, w).0.provenance)
  {
    hide UpdateCloses, DoPRMutations;
  }

  lemma CreateOutput(repo: Repo, req: CreateRequest, w: CreateWorld, id: nat)
    requires Numbered(repo) && id in AfterCreate(repo, req, w).revisions
    requires AfterCreate(repo, req, w).revisions[id].provenance.RenderedClean?
    ensures var contents := AfterCreate(repo, req, w).revisions[id].contents;
            StillClean(repo, id, contents) || RenderedBy(repo, Create(req, w), id, contents)
  {
    hide CreateAllowed, SplitPackagePathName;
  }

  /** A call that leaves contents marked as cleanly rendered found them so, or rendered them. */
  lemma CleanContentsAreOutput(repo: Repo, c: Call, id: nat)
    requires Numbered(repo) && id in After(repo, c).revisions && After(repo, c).revisions[id].provenance.RenderedClean?
    ensures var contents := After(repo, c).revisions[id].contents;
            StillClean(repo, id, contents) || RenderedBy(repo, c, id, contents)
  {
    hide AfterCreate, UpdateCloses, DoPRMutations, UploadWritten, Merged, IsPushOnRenderFailure;
    match c {
      case Create(req, w) => CreateOutput(repo, req, w, id);
      case Update(target, req, w) =>
        if target in repo.revisions && id == target {
          hide AfterUpdate;
          UpdateOutput(repo, id, req, w);
          MutationOutput(repo.revisions[id], w);
        }
      case UpdateResources(_, req, w) =>
      case Upload(_, _, _) =>
      case Delete(_, _, _) =>
    }
  }

  ghost predicate StoredNow(repo: Repo, id: nat, contents: Contents) {
    id in repo.revisions && repo.revisions[id].contents == contents
  }

  /** From call i on, revision id is stored with these contents. */
  ghost predicate StoredSince(name: string, calls: seq<Call>, i: nat, id: nat, contents: Contents) {
    forall j | i < j <= |calls| :: StoredNow(Run(EmptyRepo(name), calls[..j]), id, contents)
  }

  /** Call i rendered the contents of revision id, which are stored unchanged ever since. */
  ghost predicate RenderedAt(name: string, calls: seq<Call>, i: nat, id: nat, contents: Contents)
    requires i < |calls|
  {
    && RenderedBy(Run(EmptyRepo(name), calls[..i]), calls[i], id, contents)
    && StoredSince(name, calls, i, id, contents)
  }

  /** The same safety without the provenance mark: whatever a run leaves stored outside Draft, some call
      on that very revision rendered without error, from its own resources, and it has been stored
      unchanged ever since. */
  lemma {:induction false} NonDraftIsRenderOutput(name: string, calls: seq<Call>, id: nat)
    requires id in Run(EmptyRepo(name), calls).revisions
    ensures var r := Run(EmptyRepo(name), calls).revisions[id];
            !r.lifecycle.Draft? || r.provenance.RenderedClean? ==>
              exists i :: 0 <= i < |calls| && RenderedAt(name, calls, i, id, r.contents)
  {
    NonDraftRendersClean(name, calls);
    var r := Run(EmptyRepo(name), calls).revisions[id];
    assert Sound(r) && StoredNow(Run(EmptyRepo(name), calls), id, r.contents);
    if r.provenance.RenderedClean? { CleanIsRenderOutput(name, calls, id, r.contents); }
  }

  lemma {:induction false} CleanIsRenderOutput(name: string, calls: seq<Call>, id: nat, contents: Contents)
    requires StillClean(Run(EmptyRepo(name), calls), id, contents)
    ensures exists i :: 0 <= i < |calls| && RenderedAt(name, calls, i, id, contents)
  {
    if calls != [] {
      var n := |calls| - 1;
      var front := calls[..n];
      NonDraftRendersClean(name, front);
      assert Run(EmptyRepo(name), calls) == After(Run(EmptyRepo(name), front), calls[n]);
      hide After, RenderedBy, Numbered, AllSound, Run, StoredSince;
      CleanContentsAreOutput(Run(EmptyRepo(name), front), calls[n], id);
      if RenderedBy(Run(EmptyRepo(name), front), calls[n], id, contents) {
        StoredLast(name, calls, id, contents);
        assert RenderedAt(name, calls, n, id, contents);
      } else {
        CleanIsRenderOutput(name, front, id, contents);
        var i :| 0 <= i < n && RenderedAt(name, front, i, id, contents);
        RenderedLonger(name, calls, i, id, contents);
      }
    }
  }

  lemma RenderedLonger(name: string, calls: seq<Call>, i: nat, id: nat, contents: Contents)
    requires calls != [] && i < |calls| - 1 && RenderedAt(name, calls[..|calls| - 1], i, id, contents)
    requires StoredNow(Run(EmptyRepo(name), calls), id, contents)
    ensures RenderedAt(name, calls, i, id, contents)
  {
    hide Run, RenderedBy, StoredSince, StoredNow;
    var front := calls[..|calls| - 1];
    assert front[..i] == calls[..i] && front[i] == calls[i];
    StoredLonger(name, calls, i, id, contents);
  }

  lemma StoredLast(name: string, calls: seq<Call>, id: nat, contents: Contents)
    requires calls != [] && StoredNow(Run(EmptyRepo(name), calls), id, contents)
    ensures StoredSince(name, calls, |calls| - 1, id, contents)
  {
    hide Run, StoredNow;
    assert calls[..|calls|] == calls;
  }

  lemma StoredLonger(name: string, calls: seq<Call>, i: nat, id: nat, contents: Contents)
    requires calls != [] && StoredSince(name, calls[..|calls| - 1], i, id, contents)
    requires StoredNow(Run(EmptyRepo(name), calls), id, contents)
    ensures StoredSince(name, calls, i, id, contents)
  {
    hide Run, StoredNow;
    var front := calls[..|calls| - 1];
    forall j | i < j <= |calls| ensures StoredNow(Run(EmptyRepo(name), calls[..j]), id, contents) {
      if j < |calls| { assert front[..j] == calls[..j]; } else { assert calls[..j] == calls; }
    }
  }

  /** Stored contents change only in a call that finds the revision in Draft. */
  lemma ContentsChangeInDraft(repo: Repo, c: Call, id: nat)
    requires Numbered(repo) && id in repo.revisions && id in After(repo, c).revisions
    requires After(repo, c).revisions[id].contents != repo.revisions[id].contents
    ensures repo.revisions[id].lifecycle.Draft?
  {
    hide After;
    CallSteps(repo, c);
  }

  /** Over every run, a published revision keeps its contents and stays published while it is stored;
      and its identity is never given to another. */
  lemma {:induction false} PublishedIsFrozen(repo: Repo, calls: seq<Call>, id: nat)
    requires Numbered(repo) && id in repo.revisions && LifecycleIsPublished(repo.revisions[id].lifecycle)
    ensures var end := Run(repo, calls);
            && Numbered(end) && repo.next <= end.next
            && (id in end.revisions ==>
                  && end.revisions[id].contents == repo.revisions[id].contents
                  && end.revisions[id].key == repo.revisions[id].key
                  && LifecycleIsPublished(end.revisions[id].lifecycle))
  {
    hide After;
    if calls != [] {
      PublishedIsFrozen(repo, calls[..|calls| - 1], id);
      CallSteps(Run(repo, calls[..|calls| - 1]), calls[|calls| - 1]);
    }
  }

  /** An identity that is not stored, once given out, is never stored again: a deleted revision stays gone. */
  lemma {:induction false} DeletedStaysGone(repo: Repo, calls: seq<Call>, id: nat)
    requires Numbered(repo) && id < repo.next && id !in repo.revisions
    ensures var end := Run(repo, calls); Numbered(end) && repo.next <= end.next && id !in end.revisions
  {
    hide After, Step, Sound;
    if calls != [] {
      DeletedStaysGone(repo, calls[..|calls| - 1], id);
      CallSteps(Run(repo, calls[..|calls| - 1]), calls[|calls| - 1]);
    }
  }

  /** An update that reports success has removed the revision, for the last finalizer of one being
      deleted, or left it with the requested lifecycle and metadata. */
  lemma UpdateSuccessMeans(repo: Repo, id: nat, req: UpdateRequest, w: UpdateWorld)
    requires id in repo.revisions && UpdateSucceeds(repo.revisions[id], req, w)
    ensures var r, after := repo.revisions[id], AfterUpdate(repo, id, req, w);
            if r.meta.deleting && req.meta.finalizers == {} then id !in after.revisions
            else && id in after.revisions && after.revisions[id].lifecycle == req.lifecycle
                 && after.revisions[id].meta == req.meta
  {
    hide UpdateCloses, DoPRMutations;
  }

  /* ---------- keys ---------- */

  ghost predicate KeysDistinct(repo: Repo) {
    forall a, b | a in repo.revisions && b in repo.revisions && a != b :: repo.revisions[a].key != repo.revisions[b].key
  }

  /** While packages are created by plain names, no two stored revisions share a package and workspace.
      With a slash in the name the check behind this fails: see PackageChecks.UniquenessCheckedIff. */
  lemma {:induction false} PlainNamesStayUnique(name: string, calls: seq<Call>)
    requires forall i | 0 <= i < |calls| :: calls[i].Create? ==> '/' !in calls[i].create.packageName
    ensures KeysDistinct(Run(EmptyRepo(name), calls))
  {
    hide After;
    if calls != [] {
      var front, c := calls[..|calls| - 1], calls[|calls| - 1];
      PlainNamesStayUnique(name, front);
      NonDraftRendersClean(name, front);
      var before := Run(EmptyRepo(name), front);
      CallSteps(before, c);
      if c.Create? {
        assert c == calls[|calls| - 1];
        CreateKeepsKeys(before, c.create, c.createWorld);
      } else {
        NoNewRevision(before, c);
      }
    }
  }

  lemma NoNewRevision(repo: Repo, c: Call)
    requires !c.Create?
    ensures After(repo, c).revisions.Keys <= repo.revisions.Keys
  {
  }

  lemma CreateKeepsKeys(repo: Repo, req: CreateRequest, w: CreateWorld)
    requires KeysDistinct(repo) && Numbered(repo) && '/' !in req.packageName
    ensures KeysDistinct(After(repo, Create(req, w)))
  {
    hide ValidPkgRevObjName, TaskAllowed, SplitPackagePathName;
    LeafOfPlain(req.packageName);
    assert WorkedDraft(req, w).key == RequestedKey(req);
    if CreateAllowed(repo, req) {
      forall id | id in repo.revisions ensures repo.revisions[id].key != RequestedKey(req) {
        assert Existing(repo.name, repo.revisions[id].key.pkg, repo.revisions[id].key.workspace) in Listed(repo);
      }
    }
  }

  /** IsPackageCreation of the request. */
  predicate IsPackageCreation(req: CreateRequest) {
    |req.tasks| <= 1 && (EffectiveTasks(req)[0].Init? || EffectiveTasks(req)[0].Clone?)
  }

  /** Asking again for a package revision that was just created: accepted, giving a second revision with
      the same key, exactly when the package name has a slash and, for a request that creates the
      package, its first segment is not its leaf. */
  lemma RepeatedCreateAllowedIff(repo: Repo, req: CreateRequest, w: CreateWorld)
    requires Numbered(repo) && CreateAllowed(repo, req) && AllSucceed(w)
    ensures var once := AfterCreate(repo, req, w);
            CreateAllowed(once, req) <==>
              && '/' in req.packageName
              && (IsPackageCreation(req) ==> FirstSegment(req.packageName) != LeafName(req.packageName))
    ensures var once := AfterCreate(repo, req, w);
            CreateAllowed(once, req) ==> !KeysDistinct(AfterCreate(once, req, w))
  {
    hide ValidPkgRevObjName, SplitPackagePathName, PathsOverlap, ComposePkgRevObjName;
    LeafOfPlain(req.packageName);
    var once, k := AfterCreate(repo, req, w), RequestedKey(req);
    assert once.revisions == repo.revisions[repo.next := WorkedDraft(req, w)];
    assert WorkedDraft(req, w).key == k && k.pkg == LeafName(req.packageName);
    ListedAfter(repo, once, k);
    if '/' in req.packageName { RepeatedTask(repo, once, req, k); }
    if CreateAllowed(once, req) {
      var twice := AfterCreate(once, req, w);
      assert twice.revisions[repo.next].key == k && twice.revisions[once.next].key == k;
    }
  }

  lemma RepeatedTask(repo: Repo, once: Repo, req: CreateRequest, k: Key)
    requires |req.tasks| <= 1 && TaskAllowed(repo, req, EffectiveTasks(req)[0])
    requires '/' in req.packageName && k.pkg == LeafName(req.packageName) && k.pkg != req.packageName
    requires once.name == repo.name && once.revisions.Keys == repo.revisions.Keys + {repo.next}
    requires (forall id | id in repo.revisions :: once.revisions[id] == repo.revisions[id])
             && once.revisions[repo.next].key == k
    requires Listed(once) == Listed(repo) + {Existing(repo.name, k.pkg, k.workspace)}
    ensures TaskAllowed(once, req, EffectiveTasks(req)[0]) <==>
              (IsPackageCreation(req) ==> FirstSegment(req.packageName) != LeafName(req.packageName))
  {
    hide Listed, PathsOverlap, SplitPackagePathName, ComposePkgRevObjName, LeafName, RejectedBecauseOf;
    RejectedByFirstSegment(req.packageName, req.packageName);
    LeafRejects(req.packageName, k.pkg);
    NamesOfMore(Listed(repo), repo.name, k);
  }

  lemma LeafRejects(name: string, leaf: string)
    requires leaf == LeafName(name) && leaf != name
    ensures RejectedBecauseOf(name, name) <==> PathsOverlap(name, leaf)
  {
  }

  lemma NamesOfMore(revs: set<Existing>, repo: string, k: Key)
    ensures NamesIn(revs + {Existing(repo, k.pkg, k.workspace)}, repo) == NamesIn(revs, repo) + {k.pkg}
  {
    assert Existing(repo, k.pkg, k.workspace) in revs + {Existing(repo, k.pkg, k.workspace)};
  }

  /** Such requests exist: any two labels name one that an empty repository accepts. */
  lemma NestedRequestAllowed(name: string, dir: string, pkg: string, ws: string, meta: Meta)
    requires IsLabel(name) && IsLabel(dir) && IsLabel(pkg) && IsLabel(ws) && |name| + |dir| + |pkg| + |ws| + 3 <= 253
    ensures CreateAllowed(EmptyRepo(name), CreateRequest(dir + "/" + pkg, ws, Draft, [], meta))
  {
    NestedRequestIsValid(name, dir, pkg, ws);
    hide ValidPkgRevObjName, SplitPackagePathName, PathsOverlap, IsLabel;
  }

  lemma ListedAfter(repo: Repo, once: Repo, k: Key)
    requires once.name == repo.name && repo.next !in repo.revisions
    requires once.revisions.Keys == repo.revisions.Keys + {repo.next}
    requires (forall id | id in repo.revisions :: once.revisions[id] == repo.revisions[id])
             && once.revisions[repo.next].key == k
    ensures Listed(once) == Listed(repo) + {Existing(repo.name, k.pkg, k.workspace)}
  {
  }

  /* ---------- nesting ---------- */

  /** PackageKey.ToPkgPathname */
  function ToPkgPathname(k: Key): string {
    Paths.JoinPath(k.path, k.pkg)
  }

  lemma RequestedPathname(req: CreateRequest)
    ensures ToPkgPathname(RequestedKey(req)) == StoredPathname(req.packageName)
  {
    hide SplitPackagePathName, Paths.JoinPath;
  }

  lemma PathnameOfTopLevel(k: Key)
    requires k.path == "" && IsLabel(k.pkg)
    ensures ToPkgPathname(k) == k.pkg && FirstSegment(k.pkg) == k.pkg
  {
    JoinOfLabel(k.pkg);
    hide IsLabel, Paths.JoinPath;
  }

  /** When the package of an accepted creation is stored apart from a package that is not nested: exactly
      when the request has no leading slash, or starts with another segment. */
  lemma CreationAvoidsTopLevelIff(repo: Repo, req: CreateRequest, id: nat)
    requires CreateAllowed(repo, req) && IsPackageCreation(req) && id in repo.revisions
    requires repo.revisions[id].key.path == "" && IsLabel(repo.revisions[id].key.pkg)
    ensures var p, stored := ToPkgPathname(RequestedKey(req)), ToPkgPathname(repo.revisions[id].key);
            p != stored && !PathsOverlap(p, stored) <==>
              !Paths.Rooted(req.packageName) || FirstSegment(p) != stored
  {
    hide *;
    var k := repo.revisions[id].key;
    RequestedPathname(req);
    PathnameOfTopLevel(k);
    AllowedIsValid(repo, req);
    RightAboutTopLevelIff(repo.name, req.packageName, req.workspace, k.pkg);
    AllowedIsNotRejected(repo, req, id);
    RightMeans(req.packageName, k.pkg);
  }

  lemma RightMeans(name: string, p: string)
    ensures RightAbout(name, p) <==>
              (RejectedBecauseOf(name, p) <==> StoredPathname(name) == p || PathsOverlap(StoredPathname(name), p))
  {
    hide RejectedBecauseOf, StoredPathname, PathsOverlap;
  }

  lemma AllowedIsValid(repo: Repo, req: CreateRequest)
    requires CreateAllowed(repo, req)
    ensures ValidRequest(repo.name, req.packageName, req.workspace)
  {
    hide ValidPkgRevObjName, SplitPackagePathName, TaskAllowed, WorkspaceIsUnique;
  }

  lemma AllowedIsNotRejected(repo: Repo, req: CreateRequest, id: nat)
    requires CreateAllowed(repo, req) && IsPackageCreation(req) && id in repo.revisions
    requires IsLabel(repo.revisions[id].key.pkg)
    ensures !RejectedBecauseOf(req.packageName, repo.revisions[id].key.pkg)
  {
    var k := repo.revisions[id].key;
    LabelIsNormal(k.pkg);
    LeafOfPlain(k.pkg);
    hide ValidPkgRevObjName, SplitPackagePathName, PathsOverlap, IsLabel, LeafName;
    assert Existing(repo.name, k.pkg, k.workspace) in Listed(repo);
    assert k.pkg in NamesIn(Listed(repo), repo.name);
  }

  predicate KeyValid(k: Key) {
    ValidDirectory(k.path, false) && IsLabel(k.pkg)
  }

  ghost predicate KeysValid(repo: Repo) {
    forall id | id in repo.revisions :: KeyValid(repo.revisions[id].key)
  }

  ghost predicate NoOverlap(repo: Repo) {
    forall a, b | a in repo.revisions && b in repo.revisions ::
      !PathsOverlap(ToPkgPathname(repo.revisions[a].key), ToPkgPathname(repo.revisions[b].key))
  }

  lemma RequestedIsValid(repo: Repo, req: CreateRequest)
    requires CreateAllowed(repo, req)
    ensures KeyValid(RequestedKey(req))
  {
    AllowedIsValid(repo, req);
    RequestParts(repo.name, req.packageName, req.workspace);
    hide CreateAllowed, SplitPackagePathName, ValidRequest, IsLabel, ValidDirectory;
  }

  /** The nesting check does not cover this stored package: the package is nested, the request has a
      leading slash, or the request does not create a package. */
  predicate NotCovered(req: CreateRequest, k: Key) {
    k.path != "" || Paths.Rooted(req.packageName) || !IsPackageCreation(req)
  }

  /** The request overlaps a stored package that the check does not cover. */
  ghost predicate Clashes(repo: Repo, req: CreateRequest) {
    exists id :: id in repo.revisions && NotCovered(req, repo.revisions[id].key)
      && PathsOverlap(ToPkgPathname(RequestedKey(req)), ToPkgPathname(repo.revisions[id].key))
  }

  /** What an accepted request overlaps, the check does not cover. */
  lemma OverlapIsNotCovered(repo: Repo, req: CreateRequest, id: nat)
    requires CreateAllowed(repo, req) && KeysValid(repo) && id in repo.revisions
    requires PathsOverlap(ToPkgPathname(RequestedKey(req)), ToPkgPathname(repo.revisions[id].key))
    ensures NotCovered(req, repo.revisions[id].key)
  {
    hide CreateAllowed, RequestedKey, ToPkgPathname, PathsOverlap, FirstSegment, IsLabel, ValidDirectory, IsPackageCreation;
    var k := repo.revisions[id].key;
    assert KeyValid(k);
    if k.path == "" && IsPackageCreation(req) { CreationAvoidsTopLevelIff(repo, req, id); }
  }

  /** A creation stores at most the requested package. */
  lemma CreateStores(repo: Repo, req: CreateRequest, w: CreateWorld)
    requires Numbered(repo)
    ensures WorkedDraft(req, w).key == RequestedKey(req)
    ensures var after := AfterCreate(repo, req, w);
            if repo.next in after.revisions
            then CreateAllowed(repo, req) && after.revisions == repo.revisions[repo.next := WorkedDraft(req, w)]
            else after.revisions == repo.revisions
  {
    hide CreateAllowed, RequestedKey;
  }

  /** A creation that stores its package keeps stored packages apart exactly when it does not clash. */
  lemma CreateKeepsApartIff(repo: Repo, req: CreateRequest, w: CreateWorld)
    requires Numbered(repo) && KeysValid(repo) && NoOverlap(repo)
    ensures var after := AfterCreate(repo, req, w);
            NoOverlap(after) <==> (repo.next in after.revisions ==> !Clashes(repo, req))
  {
    hide *;
    CreateStores(repo, req, w);
    var after, r := AfterCreate(repo, req, w), WorkedDraft(req, w);
    if repo.next in after.revisions {
      ClashIff(repo, req, r);
      AddedStaysApartIff(repo, after, r);
    } else {
      SameStaysApart(repo, after);
    }
  }

  ghost predicate ApartFromAll(repo: Repo, r: Revision) {
    forall id | id in repo.revisions :: !PathsOverlap(ToPkgPathname(r.key), ToPkgPathname(repo.revisions[id].key))
  }

  lemma ClashIff(repo: Repo, req: CreateRequest, r: Revision)
    requires CreateAllowed(repo, req) && KeysValid(repo) && r.key == RequestedKey(req)
    ensures Clashes(repo, req) <==> !ApartFromAll(repo, r)
  {
    hide CreateAllowed, KeysValid, RequestedKey, ToPkgPathname, PathsOverlap, NotCovered;
    forall id | id in repo.revisions && PathsOverlap(ToPkgPathname(r.key), ToPkgPathname(repo.revisions[id].key))
      ensures NotCovered(req, repo.revisions[id].key)
    {
      OverlapIsNotCovered(repo, req, id);
    }
  }

  lemma AddedStaysApartIff(repo: Repo, after: Repo, r: Revision)
    requires Numbered(repo) && NoOverlap(repo) && after.revisions == repo.revisions[repo.next := r]
    ensures NoOverlap(after) <==> ApartFromAll(repo, r)
  {
    hide ToPkgPathname, PathsOverlap;
    var p := ToPkgPathname(r.key);
    NotOverItself(p);
    forall q ensures PathsOverlap(p, q) <==> PathsOverlap(q, p) {
      OverlapIsSymmetric(p, q);
    }
    assert after.revisions[repo.next] == r;
    forall id | id in repo.revisions ensures id != repo.next && after.revisions[id] == repo.revisions[id] {}
    if ApartFromAll(repo, r) {
      forall a, b | a in after.revisions && b in after.revisions
        ensures !PathsOverlap(ToPkgPathname(after.revisions[a].key), ToPkgPathname(after.revisions[b].key))
      {
        if a == repo.next && b != repo.next { assert b in repo.revisions; }
        if b == repo.next && a != repo.next { assert a in repo.revisions; }
      }
    }
    if NoOverlap(after) {
      forall id | id in repo.revisions ensures !PathsOverlap(p, ToPkgPathname(repo.revisions[id].key)) {
        assert repo.next in after.revisions && id in after.revisions;
      }
    }
  }

  lemma SameStaysApart(repo: Repo, after: Repo)
    requires NoOverlap(repo) && after.revisions == repo.revisions
    ensures NoOverlap(after)
  {
    hide ToPkgPathname, PathsOverlap;
  }

  lemma NotOverItself(p: string)
    ensures !PathsOverlap(p, p)
  {
  }

  /** All along the run, stored packages do not lie inside one another. */
  ghost predicate NeverNested(name: string, calls: seq<Call>) {
    NoOverlap(Run(EmptyRepo(name), calls)) && (calls == [] || NeverNested(name, calls[..|calls| - 1]))
  }

  /** No creation of the run that stored its package clashed when it was made. */
  ghost predicate NeverClashed(name: string, calls: seq<Call>) {
    calls == [] ||
    var front, c := calls[..|calls| - 1], calls[|calls| - 1];
    var before := Run(EmptyRepo(name), front);
    && NeverClashed(name, front)
    && (c.Create? && before.next in After(before, c).revisions ==> !Clashes(before, c.create))
  }

  /** Over every run, the stored keys have a valid directory and a label as package. */
  lemma {:induction false} StoredKeysAreValid(name: string, calls: seq<Call>)
    ensures KeysValid(Run(EmptyRepo(name), calls))
  {
    if calls != [] {
      hide After, KeyValid;
      var front, c := calls[..|calls| - 1], calls[|calls| - 1];
      StoredKeysAreValid(name, front);
      NonDraftRendersClean(name, front);
      var before := Run(EmptyRepo(name), front);
      if c.Create? {
        CreateIsCall(before, c);
        CreateKeepsValid(before, c.create, c.createWorld);
      } else {
        CallSteps(before, c);
        NoNewRevision(before, c);
        hide Sound;
      }
    }
  }

  lemma CreateKeepsValid(repo: Repo, req: CreateRequest, w: CreateWorld)
    requires Numbered(repo) && KeysValid(repo)
    ensures KeysValid(AfterCreate(repo, req, w))
  {
    CreateStores(repo, req, w);
    if CreateAllowed(repo, req) { RequestedIsValid(repo, req); }
    hide CreateAllowed, RequestedKey, WorkedDraft, AfterCreate, KeyValid;
  }

  /** Over every run: stored packages never lie inside one another if and only if no creation that stored
      its package overlapped, when it was made, a stored package outside the check's cover. */
  lemma {:induction false} NeverNestedIff(name: string, calls: seq<Call>)
    ensures NeverNested(name, calls) <==> NeverClashed(name, calls)
  {
    if calls != [] {
      hide After, KeysValid, NoOverlap, Clashes;
      var front, c := calls[..|calls| - 1], calls[|calls| - 1];
      NeverNestedIff(name, front);
      var before := Run(EmptyRepo(name), front);
      if NeverNested(name, front) {
        NonDraftRendersClean(name, front);
        StoredKeysAreValid(name, front);
        CallKeepsApartIff(before, c);
      }
    } else {
      NothingNests(name);
    }
  }

  lemma NothingNests(name: string)
    ensures NoOverlap(EmptyRepo(name))
  {
  }

  lemma CallKeepsApartIff(repo: Repo, c: Call)
    requires Numbered(repo) && KeysValid(repo) && NoOverlap(repo)
    ensures NoOverlap(After(repo, c)) <==>
              (c.Create? && repo.next in After(repo, c).revisions ==> !Clashes(repo, c.create))
  {
    hide *;
    if c.Create? {
      CreateIsCall(repo, c);
      CreateKeepsApartIff(repo, c.create, c.createWorld);
    } else {
      CallSteps(repo, c);
      NoNewRevision(repo, c);
      SameKeysStayApart(repo, After(repo, c));
    }
  }

  lemma CreateIsCall(repo: Repo, c: Call)
    requires c.Create?
    ensures After(repo, c) == AfterCreate(repo, c.create, c.createWorld)
  {
    hide AfterCreate;
  }

  lemma SameKeysStayApart(before: Repo, after: Repo)
    requires NoOverlap(before) && RepoStep(before, after) && after.revisions.Keys <= before.revisions.Keys
    ensures NoOverlap(after)
  {
    hide ToPkgPathname, PathsOverlap, Sound;
    assert forall id | id in after.revisions :: after.revisions[id].key == before.revisions[id].key;
  }

  /** The other order of events: a nested package first, then the one around it.  Both requests are
      accepted and both packages are stored, one inside the other. */
  lemma NestedThenOuter(name: string, dir: string, pkg: string, ws: string, meta: Meta, w: CreateWorld)
    requires IsLabel(name) && IsLabel(dir) && IsLabel(pkg) && IsLabel(ws) && |name| + |dir| + |pkg| + |ws| + 3 <= 253
    requires dir != pkg && AllSucceed(w)
    ensures var inner, outer := CreateRequest(dir + "/" + pkg, ws, Draft, [], meta), CreateRequest(dir, ws, Draft, [], meta);
            var repo := Run(EmptyRepo(name), [Create(inner, w), Create(outer, w)]);
            && repo.revisions.Keys == {0, 1}
            && ToPkgPathname(repo.revisions[0].key) == dir + "/" + pkg && ToPkgPathname(repo.revisions[1].key) == dir
            && PathsOverlap(dir, dir + "/" + pkg)
  {
    hide *;
    var inner, outer := CreateRequest(dir + "/" + pkg, ws, Draft, [], meta), CreateRequest(dir, ws, Draft, [], meta);
    EmptyIs(name);
    NestedRequestAllowed(name, dir, pkg, ws, meta);
    SplitOfNestedName(dir, pkg);
    KeyByParts(inner, dir, pkg);
    CreateSuccessMeans(EmptyRepo(name), inner, w);
    var once := AfterCreate(EmptyRepo(name), inner, w);
    PlainKey(dir, outer);
    OuterAllowed(once, dir, pkg, ws, meta);
    CreateSuccessMeans(once, outer, w);
    JoinOfLabels(dir, pkg);
    PathnameByParts(Key(dir, pkg, ws));
    PathnameOfTopLevel(Key("", dir, ws));
    TwoCreates(EmptyRepo(name), inner, outer, w);
  }

  /** And with a leading slash: the outer package first, then one inside it.  Both are accepted and stored. */
  lemma OuterThenSlashed(name: string, dir: string, pkg: string, ws: string, meta: Meta, w: CreateWorld)
    requires IsLabel(name) && IsLabel(dir) && IsLabel(pkg) && IsLabel(ws) && |name| + |dir| + |pkg| + |ws| + 3 <= 253
    requires AllSucceed(w)
    ensures var outer := CreateRequest(dir, ws, Draft, [], meta);
            var inner := CreateRequest("/" + dir + "/" + pkg, ws, Draft, [], meta);
            var repo := Run(EmptyRepo(name), [Create(outer, w), Create(inner, w)]);
            && repo.revisions.Keys == {0, 1} && repo.revisions[0].key == Key("", dir, ws)
            && ToPkgPathname(repo.revisions[0].key) == dir && ToPkgPathname(repo.revisions[1].key) == dir + "/" + pkg
            && PathsOverlap(dir, dir + "/" + pkg)
  {
    hide *;
    var outer := CreateRequest(dir, ws, Draft, [], meta);
    var inner := CreateRequest("/" + dir + "/" + pkg, ws, Draft, [], meta);
    EmptyIs(name);
    PlainRequestAllowed(name, dir, ws, meta);
    PlainKey(dir, outer);
    CreateSuccessMeans(EmptyRepo(name), outer, w);
    var once := AfterCreate(EmptyRepo(name), outer, w);
    LeadingSlashIsMissed(name, dir, pkg, ws);
    KeyByParts(inner, dir, pkg);
    SlashedAllowed(once, dir, pkg, inner);
    CreateSuccessMeans(once, inner, w);
    JoinOfLabels(dir, pkg);
    PathnameByParts(Key(dir, pkg, ws));
    PathnameOfTopLevel(Key("", dir, ws));
    TwoCreates(EmptyRepo(name), outer, inner, w);
  }

  lemma PathnameByParts(k: Key)
    ensures ToPkgPathname(k) == Paths.JoinPath(k.path, k.pkg)
  {
  }

  lemma KeyByParts(req: CreateRequest, path: string, pkg: string)
    requires SplitPackagePathName(req.packageName) == (path, pkg)
    ensures RequestedKey(req) == Key(path, pkg, req.workspace)
  {
    hide SplitPackagePathName;
  }

  lemma PlainRequestAllowed(name: string, dir: string, ws: string, meta: Meta)
    requires IsLabel(name) && IsLabel(dir) && IsLabel(ws)
    ensures CreateAllowed(EmptyRepo(name), CreateRequest(dir, ws, Draft, [], meta))
  {
    PlainRequestIsValid(name, dir, ws);
    hide ValidPkgRevObjName, SplitPackagePathName, PathsOverlap, IsLabel;
  }

  lemma SlashedAllowed(once: Repo, dir: string, pkg: string, req: CreateRequest)
    requires IsLabel(dir) && once.revisions.Keys == {0} && once.revisions[0].key == Key("", dir, req.workspace)
    requires req.packageName == "/" + dir + "/" + pkg && req.tasks == [] && req.lifecycle.Draft?
    requires ValidRequest(once.name, req.packageName, req.workspace) && !RejectedBecauseOf(req.packageName, dir)
    ensures CreateAllowed(once, req)
  {
    hide *;
    NotRejectedMeans(req.packageName, dir);
    OnlyListed(once, dir, req.workspace);
    OnlyName(once.name, dir, req.workspace);
    OneNameIsClear(once, req, dir);
    OtherNameIsUnique(once, req, dir);
    AllowedByParts(once, req);
  }

  lemma NotRejectedMeans(name: string, p: string)
    requires IsLabel(p) && !RejectedBecauseOf(name, p)
    ensures name != p && !PathsOverlap(name, p)
  {
    LabelIsNormal(p);
    LeafOfPlain(p);
    hide IsLabel, LeafName, PathsOverlap;
  }

  lemma EmptyIs(name: string)
    ensures EmptyRepo(name) == Repo(name, map[], 0)
  {
  }

  lemma PlainKey(dir: string, req: CreateRequest)
    requires IsLabel(dir) && req.packageName == dir
    ensures RequestedKey(req) == Key("", dir, req.workspace)
  {
    LabelIsNormal(dir);
    SplitOfPlainName(dir);
    hide SplitPackagePathName, IsLabel;
  }

  /** A creation that gets past its close stores the requested package under the next identity, cleanly
      rendered, as a Draft when the request gives no lifecycle and else in the requested one. */
  lemma CreateSuccessMeans(repo: Repo, req: CreateRequest, w: CreateWorld)
    requires CreateAllowed(repo, req) && AllSucceed(w)
    ensures var after := AfterCreate(repo, req, w);
            && after.name == repo.name && after.next == repo.next + 1
            && after.revisions == repo.revisions[repo.next := after.revisions[repo.next]]
            && after.revisions[repo.next] ==
                 Revision(RequestedKey(req), if req.lifecycle == Unset then Draft else req.lifecycle,
                   w.render(w.produced.value).contents, RenderedClean, req.meta)
  {
    hide CreateAllowed, RequestedKey;
  }

  lemma TwoCreates(repo: Repo, a: CreateRequest, b: CreateRequest, w: CreateWorld)
    ensures Run(repo, [Create(a, w), Create(b, w)]) == AfterCreate(AfterCreate(repo, a, w), b, w)
  {
    hide AfterCreate;
    var calls := [Create(a, w), Create(b, w)];
    assert calls[..1] == [Create(a, w)] && calls[..1][..0] == [];
    assert Run(repo, calls[..1]) == AfterCreate(repo, a, w);
  }

  lemma OuterAllowed(once: Repo, dir: string, pkg: string, ws: string, meta: Meta)
    requires IsLabel(once.name) && IsLabel(dir) && IsLabel(pkg) && IsLabel(ws) && dir != pkg
    requires once.revisions.Keys == {0} && once.revisions[0].key == Key(dir, pkg, ws)
    ensures CreateAllowed(once, CreateRequest(dir, ws, Draft, [], meta))
  {
    hide *;
    var req := CreateRequest(dir, ws, Draft, [], meta);
    PlainRequestIsValid(once.name, dir, ws);
    LabelsDoNotOverlap(dir, pkg);
    OnlyListed(once, pkg, ws);
    OnlyName(once.name, pkg, ws);
    OneNameIsClear(once, req, pkg);
    OtherNameIsUnique(once, req, pkg);
    AllowedByParts(once, req);
  }

  lemma OneNameIsClear(repo: Repo, req: CreateRequest, pkg: string)
    requires req.tasks == [] && NamesIn(Listed(repo), repo.name) == {pkg} && !PathsOverlap(req.packageName, pkg)
    requires req.packageName != pkg
    ensures TaskAllowed(repo, req, Init)
  {
    hide PathsOverlap, NamesIn, Listed;
  }

  lemma OtherNameIsUnique(repo: Repo, req: CreateRequest, pkg: string)
    requires Listed(repo) == {Existing(repo.name, pkg, req.workspace)} && pkg != req.packageName
    ensures WorkspaceIsUnique(Listed(repo), req.packageName, req.workspace)
  {
    hide Listed;
  }

  lemma AllowedByParts(repo: Repo, req: CreateRequest)
    requires req.tasks == [] && req.lifecycle.Draft? && ValidRequest(repo.name, req.packageName, req.workspace)
    requires WorkspaceIsUnique(Listed(repo), req.packageName, req.workspace) && TaskAllowed(repo, req, Init)
    ensures CreateAllowed(repo, req)
  {
    hide ValidPkgRevObjName, SplitPackagePathName, WorkspaceIsUnique, TaskAllowed, Listed;
  }

  lemma OnlyListed(once: Repo, pkg: string, ws: string)
    requires once.revisions.Keys == {0} && once.revisions[0].key.pkg == pkg && once.revisions[0].key.workspace == ws
    ensures Listed(once) == {Existing(once.name, pkg, ws)}
  {
  }

  lemma OnlyName(repo: string, pkg: string, ws: string)
    ensures NamesIn({Existing(repo, pkg, ws)}, repo) == {pkg}
  {
    assert Existing(repo, pkg, ws) in {Existing(repo, pkg, ws)};
  }

  lemma LabelsDoNotOverlap(a: string, b: string)
    requires IsLabel(a) && IsLabel(b)
    ensures !PathsOverlap(a, b)
  {
    LabelIsNormal(a);
    LabelIsNormal(b);
    SplitOfPlain(a, '/');
    SplitOfPlain(b, '/');
    OverlapIsProperPrefix(a, b);
    hide IsLabel, PathsOverlap, Split;
  }
}
