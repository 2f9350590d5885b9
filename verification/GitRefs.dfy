/** Git references of published upstreams (pkg/util/util.go, GetRepoPackageRefFromUpstream).

    A managed reference is base/directory/workspace.  `ManagedIff` says which upstreams decode to
    which base and workspace, in both directions at once.
 */
module GitRefs {
  import opened Text
  import opened Paths
  import opened SubpackageDirs

  datatype Git = Git(repo: string, directory: string, ref: string)

  datatype Failure = NoRepository | BadDirectory | BadRef | RefNotClean | Inconsistent

  /** The result: the repository spec (URL and directory), the package name and the reference. */
  datatype Decoded =
    | Failed(reason: Failure)
    | Unmanaged(repo: string, directory: string, pkg: string, ref: string)
    | Managed(repo: string, directory: string, pkg: string, ref: string)

  /** ref is front, directory, slash, last; and front is empty or ends in a slash. */
  predicate Decomposes(ref: string, front: string, directory: string, last: string) {
    && ref == front + directory + "/" + last
    && (front == "" || front[|front| - 1] == '/')
    && last != "" && '/' !in last
  }

  /** The regular expression `(^|/)directory/[^/]+$`, which is searched for in the reference. */
  ghost predicate MatchesDirectory(directory: string, ref: string) {
    exists front, last :: Decomposes(ref, front, directory, last)
  }

  ghost function Decode(upstream: Option<Git>): Decoded {
    if upstream.None? || upstream.value.repo == "" then Failed(NoRepository)
    else
      var g := upstream.value;
      var repo, pkg := TrimSuffix(g.repo, ".git"), Replace(g.directory, '/', '.');
      if !IsValidSubpackageDir(g.directory) then Failed(BadDirectory)
      else if g.ref == "" then Failed(BadRef)
      else if !MatchesDirectory(g.directory, g.ref) then
        Unmanaged(repo, TrimSuffix(g.directory, "/"), pkg, g.ref)
      else
        var parts := Split(g.ref, '/');
        var last := parts[|parts| - 1];
        var suffix := g.directory + "/" + last;
        if |parts| < 2 || parts[0] == "" || last == "" then Failed(BadRef)
        else if Clean(suffix) != suffix then Failed(RefNotClean)
        else if !HasSuffix(g.ref, suffix) then Failed(Inconsistent)
        else Managed(repo, TrimSuffix(g.ref[..|g.ref| - |suffix|], "/"), pkg, last)
  }

  /** The reference of a workspace: the base directory, if any, the package directory, the workspace. */
  function RefOf(base: string, directory: string, workspace: string): string {
    (if base == "" then "" else base + "/") + directory + "/" + workspace
  }

  lemma LastSegment(x: string, last: string)
    requires '/' !in last
    ensures var parts := Split(x + "/" + last, '/'); |parts| >= 2 && parts[|parts| - 1] == last
  {
    SplitAppend(x, last, '/');
    SplitOfPlain(last, '/');
    assert x + ['/'] + last == x + "/" + last;
  }

  lemma FirstSegment(ref: string)
    requires ref != ""
    ensures Split(ref, '/')[0] == "" <==> ref[0] == '/'
  {
  }

  lemma SuffixIsClean(directory: string, last: string)
    requires IsValidSubpackageDir(directory) && last != "" && '/' !in last
    ensures var suffix := directory + "/" + last; Clean(suffix) == suffix <==> last != "." && last != ".."
  {
    ValidDirFacts(directory);
    var segs, suffix := Split(directory, '/'), directory + "/" + last;
    JoinAppend(segs, [last], '/');
    assert suffix == Join(segs + [last], '/');
    if Normal(last) {
      NormalJoinIsClean(segs + [last]);
    } else {
      DotEndIsNotClean(segs, last);
      SplitOfJoin(segs + [last], '/');
      JoinEnds(segs + [last], '/');
      CleanedSegments(suffix);
      SplitOfPlain(".", '/');
      assert |Split(Clean(suffix), '/')| < |Split(suffix, '/')|;
    }
  }

  /** A trailing "." or ".." is cleaned away. */
  lemma DotEndIsNotClean(segs: seq<string>, last: string)
    requires segs != [] && AllNormal(segs) && (last == "." || last == "..")
    ensures |CleanSegments(false, segs + [last], [])| <= |segs|
  {
    CleanPrefix(segs, [last], []);
    assert [] + segs == segs;
  }

  lemma {:induction false} CleanPrefix(segs: seq<string>, rest: seq<string>, done: seq<string>)
    requires AllNormal(segs)
    ensures CleanSegments(false, segs + rest, done) == CleanSegments(false, rest, done + segs)
  {
    if segs == [] {
      assert segs + rest == rest && done + segs == done;
    } else {
      assert (segs + rest)[1..] == segs[1..] + rest;
      CleanPrefix(segs[1..], rest, done + [segs[0]]);
      assert done + [segs[0]] + segs[1..] == done + segs;
    }
  }

  /** On a reference that decomposes, the later checks compute exactly that decomposition. */
  lemma DecodeOfDecomposition(g: Git, front: string, last: string)
    requires g.repo != "" && IsValidSubpackageDir(g.directory) && Decomposes(g.ref, front, g.directory, last)
    ensures Decode(Some(g)) ==
              if g.ref[0] == '/' then Failed(BadRef)
              else if last == "." || last == ".." then Failed(RefNotClean)
              else Managed(TrimSuffix(g.repo, ".git"), TrimSuffix(front, "/"), Replace(g.directory, '/', '.'), last)
  {
    hide IsValidSubpackageDir, Clean, Split;
    assert MatchesDirectory(g.directory, g.ref);
    LastSegment(front + g.directory, last);
    FirstSegment(g.ref);
    SuffixIsClean(g.directory, last);
    var suffix := g.directory + "/" + last;
    assert g.ref == front + suffix;
    assert g.ref[|g.ref| - |suffix|..] == suffix && g.ref[..|g.ref| - |suffix|] == front;
  }

  /** Every decomposition is base/directory/workspace for the trimmed front, unless it starts with a slash. */
  lemma FrontIsBase(ref: string, front: string, directory: string, last: string)
    requires Decomposes(ref, front, directory, last) && directory != "" && ref[0] != '/'
    ensures ref == RefOf(TrimSuffix(front, "/"), directory, last) && !Rooted(TrimSuffix(front, "/"))
  {
  }

  lemma RefOfDecomposes(base: string, directory: string, workspace: string)
    requires workspace != "" && '/' !in workspace && directory != "" && directory[0] != '/' && !Rooted(base)
    ensures var front := if base == "" then "" else base + "/";
            var ref := RefOf(base, directory, workspace);
            Decomposes(ref, front, directory, workspace) && TrimSuffix(front, "/") == base && ref[0] != '/'
  {
  }

  /** An upstream decodes to a managed base and workspace exactly when its repository is named, its
      directory is valid and its reference is that base, directory and workspace; the base not
      starting with a slash, the workspace one proper path segment. */
  lemma ManagedIff(g: Git, base: string, workspace: string)
    ensures Decode(Some(g)) == Managed(TrimSuffix(g.repo, ".git"), base, Replace(g.directory, '/', '.'), workspace) <==>
              && g.repo != "" && IsValidSubpackageDir(g.directory)
              && g.ref == RefOf(base, g.directory, workspace)
              && !Rooted(base) && Normal(workspace) && '/' !in workspace
  {
    hide Clean, Split;
    if g.repo != "" && IsValidSubpackageDir(g.directory) {
      if g.ref == RefOf(base, g.directory, workspace) && !Rooted(base) && Normal(workspace) && '/' !in workspace {
        RefOfDecomposes(base, g.directory, workspace);
        DecodeOfDecomposition(g, if base == "" then "" else base + "/", workspace);
      }
      if front, last :| Decomposes(g.ref, front, g.directory, last) {
        DecodeOfDecomposition(g, front, last);
        if g.ref[0] != '/' { FrontIsBase(g.ref, front, g.directory, last); }
      }
    }
  }

  /** The cases before the reference is taken apart: no repository, a bad directory, no reference, or a
      reference that is not one of the directory, which is passed on as it is. */
  lemma DecodeCases(g: Git)
    ensures Decode(None) == Failed(NoRepository)
    ensures Decode(Some(g)) == Failed(NoRepository) <==> g.repo == ""
    ensures Decode(Some(g)) == Failed(BadDirectory) <==> g.repo != "" && !IsValidSubpackageDir(g.directory)
    ensures g.repo != "" && IsValidSubpackageDir(g.directory) && g.ref == "" ==> Decode(Some(g)) == Failed(BadRef)
    ensures g.repo != "" && IsValidSubpackageDir(g.directory) && g.ref != "" && !MatchesDirectory(g.directory, g.ref) ==>
              Decode(Some(g)) == Unmanaged(TrimSuffix(g.repo, ".git"), g.directory, Replace(g.directory, '/', '.'), g.ref)
    ensures Decode(Some(g)).Unmanaged? ==> !MatchesDirectory(g.directory, g.ref)
  {
    if IsValidSubpackageDir(g.directory) { assert TrimSuffix(g.directory, "/") == g.directory; }
    hide IsValidSubpackageDir, Clean, Split, MatchesDirectory;
  }

  /** The check that directory and reference are consistent never fails. */
  lemma NeverInconsistent(upstream: Option<Git>)
    ensures Decode(upstream) != Failed(Inconsistent)
  {
    hide Clean, Split, IsValidSubpackageDir;
    if upstream.Some? && upstream.value.repo != "" && IsValidSubpackageDir(upstream.value.directory) {
      var g := upstream.value;
      if front, last :| Decomposes(g.ref, front, g.directory, last) {
        DecodeOfDecomposition(g, front, last);
      }
    }
  }
}
