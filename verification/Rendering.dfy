/** The render mutation (pkg/task/render.go) between the resources of a draft and kpt, and what its error
    paths leave stored.
 */
module Rendering {
  import opened Text
  import opened Effects
  import opened Paths
  import opened Directories
  import opened ResourceSizes
  import opened PackageFiles
  import Engine

  /** What kpt's renderer did: the files it left, whether it returned a result list and whether that
      converts to the API's form, whether it reported an error, and whether the files can be read back. */
  datatype Kpt = Kpt(files: Contents, hasResult: bool, convertible: bool, failed: bool, readable: bool)

  ghost predicate HasKptfile(keys: set<string>) {
    exists k :: k in keys && IsKptfile(k)
  }

  /** What apply answers for accepted keys. */
  ghost function RenderApply(contents: Contents, k: Kpt): Engine.Rendered {
    var wiped := Engine.Rendered(map[], true);
    if Nested(contents.Keys) then wiped
    else if !HasKptfile(contents.Keys) then (if k.readable then Engine.Rendered(contents, false) else wiped)
    else if k.hasResult && !k.convertible then wiped
    else if k.failed then Engine.Rendered(if k.readable then k.files else contents, true)
    else if k.readable then Engine.Rendered(k.files, false)
    else wiped
  }

  /** The inputs on which apply answers with no resources at all. */
  ghost predicate Wipes(contents: Contents, k: Kpt) {
    || Nested(contents.Keys)
    || (HasKptfile(contents.Keys) && k.hasResult && !k.convertible)
    || (!k.readable && !(HasKptfile(contents.Keys) && k.failed))
  }

  /** renderPackageMutation.apply.  Package contents are lost exactly on the inputs that Wipes names, and
      losing them is always reported as a failure. */
  method Apply(contents: Contents, k: Kpt) returns (out: Engine.Rendered)
    ensures AllCanonical(contents.Keys) ==> out == RenderApply(contents, k)
    ensures AllCanonical(contents.Keys) && !Nested(contents.Keys) && HasKptfile(contents.Keys)
            && (k.hasResult ==> k.convertible) && (k.readable || k.failed) ==>
              out.failed == k.failed && out.contents == if k.readable then k.files else contents
    ensures AllCanonical(contents.Keys) && !Nested(contents.Keys) && !HasKptfile(contents.Keys) && k.readable ==>
              !out.failed && out.contents == contents
    ensures AllCanonical(contents.Keys) && contents != map[] && k.files != map[] ==>
              (out.contents == map[] <==> Wipes(contents, k)) && (Wipes(contents, k) ==> out.failed)
  {
    hide Canonical, Under, IsKptfile, DirOf, StrictlyAbove;
    var fs := new FileSystem();
    var ok, pkgPath := WriteResources(fs, contents);
    if !ok { return Engine.Rendered(map[], true); }
    if pkgPath != "" {
      fs.files := k.files;
      if k.hasResult {
        if !k.convertible { return Engine.Rendered(map[], true); }
      }
      if k.failed {
        if !k.readable { return Engine.Rendered(contents, true); }
        var partly := ReadResources(fs);
        return Engine.Rendered(partly, true);
      }
    }
    if !k.readable { return Engine.Rendered(map[], true); }
    var rendered := ReadResources(fs);
    out := Engine.Rendered(rendered, false);
  }

  lemma AnswersNothingIff(contents: Contents, k: Kpt)
    requires contents != map[] && k.files != map[]
    ensures RenderApply(contents, k).contents == map[] <==> Wipes(contents, k)
    ensures Wipes(contents, k) ==> RenderApply(contents, k).failed
  {
  }

  /** When an update of resources empties a draft that held something: exactly when the render answers
      nothing and the revision asks to be pushed on render failure. */
  lemma DraftEmptiedIff(repo: Engine.Repo, id: nat, req: Engine.ResourcesRequest, w: Engine.ResourcesWorld, k: Kpt)
    requires id in repo.revisions && Engine.ResourcesReady(repo.revisions[id], req, w)
    requires repo.revisions[id].contents != map[] && k.files != map[]
    requires var replaced := w.replace(repo.revisions[id].contents, Engine.Merged(req)).value;
             replaced != map[] && w.render(replaced) == RenderApply(replaced, k)
    ensures var r, after := repo.revisions[id], Engine.AfterResources(repo, id, req, w);
            id in after.revisions
            && (after.revisions[id].contents == map[] <==>
                  && Wipes(w.replace(r.contents, Engine.Merged(req)).value, k)
                  && Engine.IsPushOnRenderFailure(r.meta) && Succeeds(w.update) && TakesEffect(w.close))
  {
    hide RenderApply, Wipes, Engine.Merged, Engine.IsPushOnRenderFailure;
    AnswersNothingIff(w.replace(repo.revisions[id].contents, Engine.Merged(req)).value, k);
  }

  /** When an update of the revision empties it: exactly when it gets as far as rendering a Draft, the
      render answers nothing, the request asks to be pushed on render failure and to stay in Draft, and
      the draft is written and closed. */
  lemma UpdateEmptiesIff(repo: Engine.Repo, id: nat, req: Engine.UpdateRequest, w: Engine.UpdateWorld, k: Kpt)
    requires id in repo.revisions && w.mutate(repo.revisions[id].contents).Some?
    requires repo.revisions[id].contents != map[] && k.files != map[]
    requires var mutated := w.mutate(repo.revisions[id].contents).value;
             mutated != map[] && w.render(mutated) == RenderApply(mutated, k)
    ensures var r, after := repo.revisions[id], Engine.AfterUpdate(repo, id, req, w);
            id in after.revisions && after.revisions[id].contents == map[] <==>
              && r.lifecycle.Draft? && Engine.VersionAccepted(req.newVersion, req.oldVersion) && w.opens
              && !(r.meta.deleting && req.meta.finalizers == {}) && w.loadsDraft
              && Wipes(w.mutate(r.contents).value, k)
              && Engine.IsPushOnRenderFailure(req.meta) && req.lifecycle.Draft?
              && Succeeds(w.update) && Succeeds(w.setLifecycle) && TakesEffect(w.close)
  {
    var r := repo.revisions[id];
    AnswersNothingIff(w.mutate(r.contents).value, k);
    hide RenderApply, Wipes, Engine.IsPushOnRenderFailure, Engine.VersionAccepted;
  }

  /** Keys that nest pass the validation of resource paths: any accepted key and a longer one below it. */
  lemma AcceptedKeysCanNest(a: string, b: string)
    requires Canonical(a) && Canonical(b)
    ensures ValidateResourcePaths({a, InDir(a, b)}) && Nested({a, InDir(a, b)})
  {
    SplitAppend(a, b, '/');
    KeysInDir(a);
    assert InDir(a, b) == a + ['/'] + b;
    assert Canonical(InDir(a, b));
    hide Canonical, InDir, Under;
    ValidPathsAreCanonical({a, InDir(a, b)});
  }
}
