/** The checks a new package revision must pass against the ones already stored
    (pkg/engine/engine.go, pkg/repository/util.go, api/porch/key/types.go).

    The checks compare the requested name, which may be a whole pathname, with the leaf names of the
    stored keys.  The lemmas say what they guarantee, and exactly when that is what they are for.
 */
module PackageChecks {
  import opened Text
  import opened Paths
  import opened Names
  import opened NameLimits

  /** SplitPackagePathName: the pathname without outer slashes is the path, a slash and the leaf; or
      the leaf alone. */
  function SplitPackagePathName(fullpath: string): (r: (string, string))
    ensures '/' !in r.1
    ensures var p := Trim(fullpath, '/');
            if '/' in p then p == r.0 + ['/'] + r.1 else r == ("", p)
  {
    var p := Trim(fullpath, '/');
    var i := LastIndex(p, "/");
    AtOne(p, '/');
    if i >= 0 then (p[..i], p[i + 1..]) else ("", p)
  }

  function LeafName(fullpath: string): string {
    SplitPackagePathName(fullpath).1
  }

  /** The repository name and the key's leaf and workspace: what the checks see of a stored revision. */
  datatype Existing = Existing(repo: string, pkg: string, workspace: string)

  /* ---------- uniqueness of workspaces ---------- */

  /** The engine's filter `rev.Key().PkgKey.Package == newPr.Spec.PackageName`. */
  method SamePackage(revs: seq<Existing>, packageName: string) returns (same: seq<Existing>)
    ensures forall r :: r in same <==> r in revs && r.pkg == packageName
  {
    same := [];
    for i := 0 to |revs|
      invariant forall r :: r in same <==> r in revs[..i] && r.pkg == packageName
    {
      assert revs[..i + 1] == revs[..i] + [revs[i]];
      if revs[i].pkg == packageName { same := same + [revs[i]]; }
    }
    assert revs[..|revs|] == revs;
  }

  /** ensureUniqueWorkspaceName after that filter. */
  predicate WorkspaceIsUnique(revs: set<Existing>, packageName: string, workspace: string) {
    forall r | r in revs && r.pkg == packageName :: r.workspace != workspace
  }

  lemma LeafOfPlain(p: string)
    ensures p == LeafName(p) <==> '/' !in p
  {
    if '/' !in p {
      TrimNothing(p, '/');
      AtOne(p, '/');
    }
  }

  /** The uniqueness check rejects every request for a package and workspace already stored exactly
      when the requested name has no slash: with one, the filter never matches a leaf name. */
  lemma UniquenessCheckedIff(packageName: string, workspace: string)
    ensures (forall revs: set<Existing>, repo: string |
               Existing(repo, LeafName(packageName), workspace) in revs ::
               !WorkspaceIsUnique(revs, packageName, workspace))
            <==> '/' !in packageName
  {
    hide SplitPackagePathName;
    LeafOfPlain(packageName);
    var stored := Existing("", LeafName(packageName), workspace);
    if '/' in packageName {
      assert stored in {stored} && WorkspaceIsUnique({stored}, packageName, workspace);
    }
  }

  /* ---------- nesting ---------- */

  predicate PathsOverlap(path1: string, path2: string) {
    path1 != path2 && (HasPrefix(path2 + "/", path1 + "/") || HasPrefix(path1 + "/", path2 + "/"))
  }

  /** Two paths overlap exactly when one's segment list is a proper prefix of the other's. */
  lemma OverlapIsProperPrefix(p: string, q: string)
    ensures PathsOverlap(p, q) <==> Split(p, '/') < Split(q, '/') || Split(q, '/') < Split(p, '/')
  {
    PrefixIsSegmentPrefix(p, q, '/');
    PrefixIsSegmentPrefix(q, p, '/');
    if Split(p, '/') == Split(q, '/') { SplitInjective(p, q, '/'); }
  }

  predicate Clear(names: set<string>, name: string) {
    forall e | e in names :: e != name && !PathsOverlap(name, e)
  }

  /** The leaf names stored in one repository. */
  function NamesIn(revs: set<Existing>, repo: string): set<string> {
    set r | r in revs && r.repo == repo :: r.pkg
  }

  ghost function Elements(revs: seq<Existing>): set<Existing> {
    set r | r in revs
  }

  /** ValidatePackagePathOverlap: one loop collects the repository's names, a second, in map order,
      compares them. */
  method ValidatePackagePathOverlap(repo: string, packageName: string, revs: seq<Existing>) returns (ok: bool)
    ensures ok <==> Clear(NamesIn(Elements(revs), repo), packageName)
  {
    hide PathsOverlap;
    var paths: set<string> := {};
    for i := 0 to |revs|
      invariant paths == NamesIn(Elements(revs[..i]), repo)
      invariant packageName !in paths
    {
      assert revs[..i + 1] == revs[..i] + [revs[i]];
      if revs[i].pkg == packageName && revs[i].repo == repo {
        assert revs[i] in Elements(revs) && packageName in NamesIn(Elements(revs), repo);
        return false;
      }
      if revs[i].repo == repo { paths := paths + {revs[i].pkg}; }
    }
    assert revs[..|revs|] == revs;
    var todo := paths;
    while todo != {}
      invariant todo <= paths
      invariant forall e | e in paths - todo :: !PathsOverlap(packageName, e)
      decreases |todo|
    {
      var e :| e in todo;
      if PathsOverlap(packageName, e) { return false; }
      todo := todo - {e};
    }
    ok := true;
  }

  /* ---------- first segments ---------- */

  function FirstSegment(s: string): string {
    Split(s, '/')[0]
  }

  lemma {:induction false} TrimKeepsFirst(s: string)
    requires s != "" && s[0] != '/'
    ensures var t := TrimRight(s, '/'); t != "" && t[0] == s[0] && FirstSegment(t) == FirstSegment(s)
  {
    var n := |s| - 1;
    if s[n] == '/' {
      TrimKeepsFirst(s[..n]);
      SplitAppend(s[..n], "", '/');
      assert s == s[..n] + ['/'] + "";
    }
  }

  /** Without ".." nothing already cleaned is taken back. */
  lemma {:induction false} CleanKeepsHead(todo: seq<string>, done: seq<string>)
    requires done != [] && forall i :: 0 <= i < |todo| ==> todo[i] != ".."
    ensures var r := CleanSegments(false, todo, done); r != [] && r[0] == done[0]
  {
    if todo != [] {
      if todo[0] == "" || todo[0] == "." {
        CleanKeepsHead(todo[1..], done);
      } else {
        CleanKeepsHead(todo[1..], done + [todo[0]]);
      }
    }
  }

  lemma CleanKeepsFirst(s: string)
    requires s != "" && s[0] != '/' && '.' !in s
    ensures FirstSegment(Clean(s)) == FirstSegment(s)
  {
    var segs := Split(s, '/');
    JoinOfSplit(s, '/');
    forall i | 0 <= i < |segs| ensures '.' !in segs[i] {
      if '.' in segs[i] { CharsInJoin(segs, '/', i, '.'); }
    }
    assert segs[0] != "";
    CleanedSegments(s);
    CleanKeepsHead(segs[1..], [segs[0]]);
    assert CleanSegments(false, segs, []) == CleanSegments(false, segs[1..], [] + [segs[0]]);
    assert [] + [segs[0]] == [segs[0]];
  }

  /** ToPkgPathname of the key of a requested package: the pathname it is stored under. */
  function StoredPathname(name: string): string {
    var (path, pkg) := SplitPackagePathName(name);
    JoinPath(path, pkg)
  }

  /** The stored pathname of a valid request starts with the request's first segment. */
  lemma PathnameKeepsFirst(name: string)
    requires name != "" && !Rooted(name)
    requires var r := SplitPackagePathName(name); ValidDirectory(r.0, false) && IsLabel(r.1)
    ensures FirstSegment(StoredPathname(name)) == FirstSegment(name)
  {
    var (path, pkg) := SplitPackagePathName(name);
    var p := Trim(name, '/');
    assert p == TrimRight(name, '/');
    TrimKeepsFirst(name);
    PathChars(path);
    LabelIsNormal(pkg);
    hide SplitPackagePathName, ValidDirectory, IsLabel, Trim, Clean, FirstSegment;
    if '/' in p {
      assert p == path + "/" + pkg;
      JoinSplitFirst(path, pkg);
    } else {
      CleanKeepsFirst(pkg);
    }
  }

  lemma JoinSplitFirst(path: string, pkg: string)
    requires '.' !in path && '.' !in pkg && '/' !in pkg && pkg != ""
    requires var p := path + "/" + pkg; p[0] != '/'
    ensures FirstSegment(JoinPath(path, pkg)) == FirstSegment(path + "/" + pkg)
  {
    hide Clean, FirstSegment;
    CleanKeepsFirst(path + "/" + pkg);
  }

  lemma JoinOfLabel(pkg: string)
    requires IsLabel(pkg)
    ensures JoinPath("", pkg) == pkg && FirstSegment(pkg) == pkg
  {
    LabelIsNormal(pkg);
    NormalJoinIsClean([pkg]);
    SplitOfPlain(pkg, '/');
  }

  lemma JoinOfLabels(dir: string, pkg: string)
    requires IsLabel(dir) && IsLabel(pkg)
    ensures JoinPath(dir, pkg) == dir + "/" + pkg && PathsOverlap(dir + "/" + pkg, dir) && PathsOverlap(dir, dir + "/" + pkg)
  {
    LabelIsNormal(dir);
    LabelIsNormal(pkg);
    SplitOfTwo(dir, pkg);
    SplitOfPlain(dir, '/');
    OverlapIsProperPrefix(dir, dir + "/" + pkg);
    JoinAppend([dir], [pkg], '/');
    hide IsLabel, Split;
    assert [dir] + [pkg] == [dir, pkg];
    NormalJoinIsClean([dir, pkg]);
    hide PathsOverlap;
    OverlapIsSymmetric(dir, dir + "/" + pkg);
  }

  lemma OverlapIsSymmetric(p: string, q: string)
    ensures PathsOverlap(p, q) <==> PathsOverlap(q, p)
  {
  }

  /** What the check means for a stored package at pathname p: it looks only at p's leaf name. */
  predicate RejectedBecauseOf(name: string, p: string) {
    name == LeafName(p) || PathsOverlap(name, LeafName(p))
  }

  lemma LeafIsLastSegment(p: string)
    requires Canonical(p)
    ensures LeafName(p) == Split(p, '/')[|Split(p, '/')| - 1]
  {
    var segs := Split(p, '/');
    var n := |segs| - 1;
    JoinOfSplit(p, '/');
    SplitHasNoSeparator(p, '/');
    JoinEnds(segs, '/');
    TrimNothing(p, '/');
    if n == 0 {
      NoSeparator(p, '/');
    } else {
      assert segs == segs[..n] + [segs[n]];
      JoinAppend(segs[..n], [segs[n]], '/');
      LastSeparator(Join(segs[..n], '/'), segs[n], '/');
    }
  }

  /** A request is rejected because of p exactly when its first segment is p's leaf. */
  lemma RejectedByFirstSegment(name: string, p: string)
    ensures RejectedBecauseOf(name, p) <==> Split(name, '/')[0] == LeafName(p)
  {
    var leaf := LeafName(p);
    SplitOfPlain(leaf, '/');
    OverlapIsProperPrefix(name, leaf);
    if Split(name, '/')[0] == leaf && |Split(name, '/')| == 1 { SplitInjective(name, leaf, '/'); }
  }

  /** The check decides rightly about a request and the package stored at p: it rejects exactly when the
      pathname to be stored is p or overlaps it. */
  predicate RightAbout(name: string, p: string) {
    RejectedBecauseOf(name, p) <==> StoredPathname(name) == p || PathsOverlap(StoredPathname(name), p)
  }

  /** A request that gets past the name check. */
  predicate ValidRequest(repo: string, name: string, ws: string) {
    var (path, pkg) := SplitPackagePathName(name);
    ValidPkgRevObjName(PkgRevKey(PkgKey(repo, path, pkg), ws))
  }

  lemma RequestParts(repo: string, name: string, ws: string)
    requires ValidRequest(repo, name, ws)
    ensures var r := SplitPackagePathName(name); name != "" && ValidDirectory(r.0, false) && IsLabel(r.1)
  {
    hide IsSubdomain, ComposePkgRevObjName, ValidDirectory;
    assert name == "" ==> Trim(name, '/') == "";
  }

  /** About a stored package that is not nested, the check is right on exactly these valid requests: those
      without a leading slash, and those to be stored elsewhere anyway. */
  lemma RightAboutTopLevelIff(repo: string, name: string, ws: string, p: string)
    requires ValidRequest(repo, name, ws) && IsLabel(p)
    ensures RightAbout(name, p) <==> !Rooted(name) || FirstSegment(StoredPathname(name)) != p
  {
    RequestParts(repo, name, ws);
    LabelIsNormal(p);
    LeafOfPlain(p);
    hide ValidRequest, SplitPackagePathName, LeafName, StoredPathname, PathsOverlap, IsLabel, ValidDirectory;
    RejectedByFirstSegment(name, p);
    RejectedByFirstSegment(StoredPathname(name), p);
    if Rooted(name) {
      RootedFirst(name);
    } else {
      PathnameKeepsFirst(name);
    }
  }

  lemma RootedFirst(name: string)
    requires Rooted(name)
    ensures FirstSegment(name) == ""
  {
  }

  ghost predicate AllLabels(segs: seq<string>) {
    forall i :: 0 <= i < |segs| ==> IsLabel(segs[i])
  }

  lemma SplitOfPlainName(p: string)
    requires '/' !in p
    ensures SplitPackagePathName(p) == ("", p)
  {
    TrimNothing(p, '/');
  }

  lemma SplitOfNestedName(dir: string, pkg: string)
    requires IsLabel(dir) && IsLabel(pkg)
    ensures SplitPackagePathName(dir + "/" + pkg) == (dir, pkg)
  {
    var p := dir + "/" + pkg;
    LabelIsNormal(dir);
    LabelIsNormal(pkg);
    assert p[0] == dir[0] && p[|p| - 1] == pkg[|pkg| - 1];
    assert p == dir + ['/'] + pkg;
    TrimNothing(p, '/');
    LastSeparator(dir, pkg, '/');
    hide LastIndex, IsLabel, Trim;
    assert p[..|dir|] == dir && p[|dir| + 1..] == pkg;
  }

  lemma PlainRequestIsValid(repo: string, pkg: string, ws: string)
    requires IsLabel(repo) && IsLabel(pkg) && IsLabel(ws)
    ensures ValidRequest(repo, pkg, ws)
  {
    LabelNonEmpty(pkg);
    LabelIsNormal(pkg);
    hide SplitPackagePathName, ValidPkgRevObjName, IsLabel;
    SplitOfPlainName(pkg);
    PlainKeyIsValid(repo, pkg, ws);
  }

  lemma NestedRequestIsValid(repo: string, dir: string, pkg: string, ws: string)
    requires IsLabel(repo) && IsLabel(dir) && IsLabel(pkg) && IsLabel(ws) && |repo| + |dir| + |pkg| + |ws| + 3 <= 253
    ensures ValidRequest(repo, dir + "/" + pkg, ws)
  {
    hide SplitPackagePathName, ValidPkgRevObjName, IsLabel;
    SplitOfNestedName(dir, pkg);
    NestedKeyIsValid(repo, dir, pkg, ws);
  }

  /** A nested stored package lets a nesting request through, when its first segment is not its last... */
  lemma NestingLetThrough(repo: string, ws: string, p: string)
    requires IsLabel(repo) && IsLabel(ws) && AllLabels(Split(p, '/'))
    requires var segs := Split(p, '/'); |segs| > 1 && segs[0] != segs[|segs| - 1]
    ensures var name := Split(p, '/')[0];
            ValidRequest(repo, name, ws) && !Rooted(name) && !RightAbout(name, p)
  {
    hide *;
    var name := Split(p, '/')[0];
    LabelledIsCanonical(p);
    LeafIsLastSegment(p);
    FirstIsLabel(Split(p, '/'));
    PlainRequestIsValid(repo, name, ws);
    StoredOfLabel(name);
    OverlapIsProperPrefix(name, p);
    RejectedByFirstSegment(name, p);
    NotRight(name, p);
  }

  /** ... and otherwise stops one that does not nest. */
  lemma NonNestingStopped(repo: string, ws: string, p: string) returns (name: string)
    requires IsLabel(repo) && IsLabel(ws) && AllLabels(Split(p, '/'))
    requires var segs := Split(p, '/'); |segs| > 1 && segs[0] == segs[|segs| - 1]
    ensures ValidRequest(repo, name, ws) && !Rooted(name) && !RightAbout(name, p)
  {
    hide *;
    var segs := Split(p, '/');
    var leaf := segs[0];
    name := leaf + "/" + OtherLetter(segs[1]);
    LabelledIsCanonical(p);
    LeafIsLastSegment(p);
    FirstIsLabel(segs);
    OtherLetterIsLabel(segs[1]);
    LabelNonEmpty(leaf);
    LabelNonEmpty(repo);
    LabelNonEmpty(ws);
    NestedRequestIsValid(repo, leaf, OtherLetter(segs[1]), ws);
    StoredOfTwo(leaf, OtherLetter(segs[1]));
    SplitOfTwo(leaf, OtherLetter(segs[1]));
    OverlapIsProperPrefix(name, p);
    RejectedByFirstSegment(name, p);
    assert Split(name, '/')[1] != segs[1];
    NotRight(name, p);
  }

  /** On a request stored under its own name, what makes the check wrong. */
  lemma NotRight(name: string, p: string)
    requires StoredPathname(name) == name && (RejectedBecauseOf(name, p) <==> !(name == p || PathsOverlap(name, p)))
    ensures !RightAbout(name, p)
  {
    hide StoredPathname, RejectedBecauseOf, PathsOverlap;
  }

  lemma LabelledIsCanonical(p: string)
    requires AllLabels(Split(p, '/'))
    ensures Canonical(p)
  {
    var segs := Split(p, '/');
    forall i | 0 <= i < |segs| ensures Normal(segs[i]) {
      LabelIsNormal(segs[i]);
    }
  }

  lemma StoredOfLabel(name: string)
    requires IsLabel(name)
    ensures StoredPathname(name) == name && Split(name, '/') == [name] && !Rooted(name)
  {
    LabelIsNormal(name);
    SplitOfPlainName(name);
    SplitOfPlain(name, '/');
    hide SplitPackagePathName, JoinPath, IsLabel, Split;
    JoinOfLabel(name);
  }

  lemma StoredOfTwo(dir: string, pkg: string)
    requires IsLabel(dir) && IsLabel(pkg)
    ensures StoredPathname(dir + "/" + pkg) == dir + "/" + pkg && !Rooted(dir + "/" + pkg)
  {
    LabelIsNormal(dir);
    SplitOfNestedName(dir, pkg);
    JoinOfLabels(dir, pkg);
    hide SplitPackagePathName, JoinPath, IsLabel, PathsOverlap;
    assert (dir + "/" + pkg)[0] == dir[0];
  }

  /** A one-letter label different from the given segment. */
  function OtherLetter(seg: string): string {
    if seg == "a" then "b" else "a"
  }

  lemma OtherLetterIsLabel(seg: string)
    ensures IsLabel(OtherLetter(seg)) && |OtherLetter(seg)| == 1 && OtherLetter(seg) != seg
  {
  }

  lemma FirstIsLabel(segs: seq<string>)
    requires segs != [] && AllLabels(segs)
    ensures IsLabel(segs[0])
  {
  }

  lemma SplitOfTwo(a: string, b: string)
    requires IsLabel(a) && IsLabel(b)
    ensures Split(a + "/" + b, '/') == [a, b]
  {
    LabelIsNormal(a);
    LabelIsNormal(b);
    hide IsLabel;
    SplitOfPlain(a, '/');
    SplitOfPlain(b, '/');
    SplitAppend(a, b, '/');
    assert a + ['/'] + b == a + "/" + b;
  }

  /** Over all valid requests without a leading slash, the nesting check is right about a stored package
      exactly when that package is not itself nested. */
  lemma NestingCheckedIff(repo: string, ws: string, p: string)
    requires IsLabel(repo) && IsLabel(ws) && AllLabels(Split(p, '/'))
    ensures (forall name | ValidRequest(repo, name, ws) && !Rooted(name) :: RightAbout(name, p))
            <==> |Split(p, '/')| == 1
  {
    hide ValidRequest, RightAbout, Rooted, IsLabel;
    var segs := Split(p, '/');
    if |segs| == 1 {
      JoinOfSplit(p, '/');
      FirstIsLabel(segs);
      forall name | ValidRequest(repo, name, ws) && !Rooted(name) ensures RightAbout(name, p) {
        RightAboutTopLevelIff(repo, name, ws, p);
      }
    } else if segs[0] != segs[|segs| - 1] {
      NestingLetThrough(repo, ws, p);
    } else {
      var name := NonNestingStopped(repo, ws, p);
    }
  }

  /** With a leading slash a request gets past the check into any stored package: it is valid, also by the
      rule for package names when that many characters fit a label, and stored inside dir. */
  lemma LeadingSlashIsMissed(repo: string, dir: string, pkg: string, ws: string)
    requires IsLabel(repo) && IsLabel(dir) && IsLabel(pkg) && IsLabel(ws) && |repo| + |dir| + |pkg| + |ws| + 3 <= 253
    ensures var name := "/" + dir + "/" + pkg;
            && ValidRequest(repo, name, ws) && (|dir| + |pkg| <= 63 ==> ValidDirectory(name, true))
            && SplitPackagePathName(name) == (dir, pkg) && StoredPathname(name) == dir + "/" + pkg
            && PathsOverlap(dir + "/" + pkg, dir) && !RejectedBecauseOf(name, dir)
  {
    hide *;
    var name := "/" + dir + "/" + pkg;
    assert name == "/" + (dir + "/" + pkg);
    LeadingSlashTrimmed(dir + "/" + pkg);
    SplitOfNestedName(dir, pkg);
    StoredOfTwo(dir, pkg);
    SameParts(repo, name, dir + "/" + pkg, ws);
    NestedRequestIsValid(repo, dir, pkg, ws);
    JoinOfLabels(dir, pkg);
    SlashedIsRooted(dir + "/" + pkg);
    RootedFirst(name);
    LabelIsNotEmptyLeaf(dir);
    RejectedByFirstSegment(name, dir);
    FirstIs(name);
    if |dir| + |pkg| <= 63 { SlashedNameIsValid(dir, pkg); }
  }

  lemma LeadingSlashTrimmed(x: string)
    ensures SplitPackagePathName("/" + x) == SplitPackagePathName(x)
  {
    assert ("/" + x)[1..] == x;
    assert Trim("/" + x, '/') == Trim(x, '/');
  }

  lemma SameParts(repo: string, a: string, b: string, ws: string)
    requires SplitPackagePathName(a) == SplitPackagePathName(b)
    ensures StoredPathname(a) == StoredPathname(b) && (ValidRequest(repo, a, ws) <==> ValidRequest(repo, b, ws))
  {
    hide SplitPackagePathName, JoinPath, ValidPkgRevObjName;
  }

  lemma SlashedIsRooted(x: string)
    ensures Rooted("/" + x)
  {
  }

  lemma FirstIs(s: string)
    ensures FirstSegment(s) == Split(s, '/')[0]
  {
  }

  lemma LabelIsNotEmptyLeaf(p: string)
    requires IsLabel(p)
    ensures LeafName(p) == p != ""
  {
    LabelIsNormal(p);
    LeafOfPlain(p);
  }

  lemma SlashedNameIsValid(dir: string, pkg: string)
    requires IsLabel(dir) && IsLabel(pkg) && |dir| + |pkg| <= 63
    ensures ValidDirectory("/" + dir + "/" + pkg, true)
  {
    LabelIsNormal(dir);
    LabelIsNormal(pkg);
    LabelAppend(dir, pkg);
    assert IsLabel(dir + pkg);
    hide IsLabel, Without, Contains;
    WithoutSlashes(dir, pkg);
    NoDoubleSlash(dir, pkg);
  }

  lemma WithoutSlashes(dir: string, pkg: string)
    requires '/' !in dir && '/' !in pkg
    ensures Without("/" + dir + "/" + pkg, '/') == dir + pkg
  {
    hide *;
    WithoutPlain(dir, '/');
    WithoutPlain(pkg, '/');
    WithoutLeading(pkg);
    WithoutAppend(dir, "/" + pkg, '/');
    WithoutLeading(dir + ("/" + pkg));
    assert "/" + dir + "/" + pkg == "/" + (dir + ("/" + pkg));
  }

  lemma WithoutLeading(x: string)
    ensures Without("/" + x, '/') == Without(x, '/')
  {
    assert ("/" + x)[1..] == x;
  }

  lemma NoDoubleSlash(dir: string, pkg: string)
    requires '/' !in dir && '/' !in pkg && dir != "" && pkg != ""
    ensures !Contains("/" + dir + "/" + pkg, "//")
  {
    var name := "/" + dir + "/" + pkg;
    forall i | 0 <= i <= |name| ensures !At(name, "//", i) {
      if 0 <= i && i + 2 <= |name| {
        assert name[i..i + 2] == [name[i], name[i + 1]];
        assert name[i] == '/' ==> i == 0 || i == |dir| + 1;
        assert i == 0 ==> name[i + 1] == dir[0];
        assert i == |dir| + 1 ==> name[i + 1] == pkg[0];
      }
    }
  }
}
