/** Resource maps written to and read from the in-memory file system that the renderer works on
    (pkg/task/render.go; the choice of package directory is the same in pkg/repository/util.go).
 */
module PackageFiles {
  import opened Text
  import opened Paths
  import opened Directories
  import opened ResourceSizes

  /** The file system, with paths relative to its root: a name is a file or a directory, not both. */
  function FromRoot(p: string): string {
    TrimPrefix(Clean("/" + p), "/")
  }

  class FileSystem {
    var files: Contents
    var made: set<string>

    constructor ()
      ensures files == map[] && made == {}
    {
      files, made := map[], {};
    }

    predicate IsDir(d: string)
      reads this
    {
      d == "" || exists x :: x in made && (x == d || Under(x, d))
    }

    /** Fails when the directory or one above it is a file. */
    method MkdirAll(dir: string) returns (ok: bool)
      modifies this
      ensures files == old(files)
      ensures ok <==> !exists f :: f in files && (f == FromRoot(dir) || Under(FromRoot(dir), f))
      ensures made == if ok then old(made) + {FromRoot(dir)} else old(made)
    {
      var d := FromRoot(dir);
      ok := !exists f :: f in files && (f == d || Under(d, f));
      if ok { made := made + {d}; }
    }

    /** Fails when the path is a directory. */
    method WriteFile(p: string, v: string) returns (ok: bool)
      modifies this
      ensures made == old(made)
      ensures ok <==> !IsDir(FromRoot(p))
      ensures files == if ok then old(files)[FromRoot(p) := v] else old(files)
    {
      ok := !IsDir(FromRoot(p));
      if ok { files := files[FromRoot(p) := v]; }
    }
  }

  /* ---------- the topmost package directory ---------- */

  /** The directory writeResources puts a key in. */
  function DirOf(key: string): string {
    if Dir(key) == "." then "/" else Dir(key)
  }

  predicate IsKptfile(key: string) {
    Base(key) == "Kptfile"
  }

  /** q is a directory strictly above p. */
  predicate StrictlyAbove(q: string, p: string) {
    if q == "/" then p != "/" else HasPrefix(p, q + "/")
  }

  /** No Kptfile and no directory; or a directory that holds a Kptfile with none strictly above it. */
  ghost predicate Topmost(keys: set<string>, dir: string) {
    if dir == "" then forall k | k in keys :: !IsKptfile(k)
    else
      && (exists k :: k in keys && IsKptfile(k) && DirOf(k) == dir)
      && forall k | k in keys && IsKptfile(k) :: !StrictlyAbove(DirOf(k), dir)
  }

  lemma DirOfNonEmpty(key: string)
    ensures DirOf(key) != ""
  {
  }

  lemma StrictlyAboveTransitive(p: string, q: string, r: string)
    requires p != "" && q != "" && StrictlyAbove(p, q) && StrictlyAbove(q, r)
    ensures StrictlyAbove(p, r)
  {
  }

  lemma NothingAboveRoot(q: string)
    requires q != ""
    ensures !StrictlyAbove(q, "/")
  {
  }

  /** One more key: the rule that updates packageDir keeps it topmost. */
  lemma TopmostStep(keys: set<string>, dir: string, key: string)
    requires Topmost(keys, dir)
    ensures var d := DirOf(key);
            Topmost(keys + {key},
              if IsKptfile(key) && (dir == "" || d == "/" || HasPrefix(dir, d + "/")) then d else dir)
  {
    hide DirOf, IsKptfile, StrictlyAbove;
    var d, keys' := DirOf(key), keys + {key};
    DirOfNonEmpty(key);
    NotAboveItself(d);
    forall k | k in keys ensures DirOf(k) != "" && !StrictlyAbove(DirOf(k), "/") {
      DirOfNonEmpty(k);
      NothingAboveRoot(DirOf(k));
    }
    NothingAboveRoot(d);
    AboveCases(d, dir);
    if IsKptfile(key) && dir != "" && d != "/" && HasPrefix(dir, d + "/") {
      forall k | k in keys && IsKptfile(k) ensures !StrictlyAbove(DirOf(k), d) {
        if StrictlyAbove(DirOf(k), d) { StrictlyAboveTransitive(DirOf(k), d, dir); }
      }
    }
    assert key in keys';
  }

  lemma NotAboveItself(d: string)
    ensures !StrictlyAbove(d, d)
  {
  }

  lemma AboveCases(d: string, dir: string)
    ensures d == "/" ==> (StrictlyAbove(d, dir) <==> dir != "/")
    ensures d != "/" ==> (StrictlyAbove(d, dir) <==> HasPrefix(dir, d + "/"))
  {
  }

  /** A root Kptfile makes the root the package directory, whatever else there is. */
  lemma RootKptfileWins(keys: set<string>, dir: string)
    requires Topmost(keys, dir) && "Kptfile" in keys
    ensures dir == "/"
  {
    RootKptfile();
    assert IsKptfile("Kptfile");
  }

  lemma RootKptfile()
    ensures IsKptfile("Kptfile") && DirOf("Kptfile") == "/"
  {
    var k := "Kptfile";
    assert '/' !in k;
    TrimNothing(k, '/');
    AtOne(k, '/');
    assert LastIndex(k, "/") == -1;
    assert k[0..] == k && k[..0] == "";
    assert Split("", '/') == [""];
    assert CleanSegments(false, [""], []) == [];
  }

  /* ---------- canonical keys ---------- */

  /** The directory of a canonical key, relative to the root. */
  function Parent(key: string): string {
    var segs := Split(key, '/');
    Join(segs[..|segs| - 1], '/')
  }

  lemma ParentAndLeaf(key: string)
    requires Canonical(key)
    ensures var segs := Split(key, '/');
            var leaf := segs[|segs| - 1];
            && Normal(leaf) && '/' !in leaf
            && (if |segs| == 1 then key == leaf && Parent(key) == "" else key == InDir(Parent(key), leaf) && Canonical(Parent(key)))
  {
    var segs := Split(key, '/');
    var n := |segs| - 1;
    JoinOfSplit(key, '/');
    SplitHasNoSeparator(key, '/');
    if n > 0 {
      assert segs == segs[..n] + [segs[n]];
      JoinAppend(segs[..n], [segs[n]], '/');
      SplitOfJoin(segs[..n], '/');
    }
  }

  /** What lies above a key lies at or above its parent. */
  lemma UnderParent(key: string, x: string)
    requires Canonical(key) && x != ""
    ensures Under(key, x) <==> Parent(key) == x || Under(Parent(key), x)
  {
    hide Parent, Split;
    ParentAndLeaf(key);
    var segs := Split(key, '/');
    var leaf := segs[|segs| - 1];
    if |segs| == 1 {
      PrefixChars(key, x + "/", '/');
      assert '/' in x + "/";
    } else {
      hide InDir;
      KeysInDir(Parent(key));
      AboveIsPrefix(x, Parent(key));
      if Under(key, x) { OverFile(Parent(key), leaf, x); }
      if Above(x, Parent(key)) { UnderAbove(key, x, Parent(key)); }
    }
  }

  lemma FromRootOfCanonical(k: string)
    requires Canonical(k)
    ensures FromRoot(k) == k && FromRoot("/" + k) == k && Clean("/" + "/" + k) == "/" + k
  {
    var segs := Split(k, '/');
    JoinOfSplit(k, '/');
    assert "/" + k == "" + ['/'] + k;
    SplitAppend("", k, '/');
    SplitAppend("", "/" + k, '/');
    assert "/" + ("/" + k) == "" + ['/'] + ("/" + k);
    hide Split, Join, Canonical;
    assert Split("/" + k, '/') == [""] + segs;
    assert Split("/" + ("/" + k), '/') == [""] + ([""] + segs);
    CleanKeepsNormal(true, segs, []);
    assert [] + segs == segs && ([""] + segs)[1..] == segs && ([""] + ([""] + segs))[1..] == [""] + segs;
    assert Clean("/" + k) == "/" + k && Clean("/" + ("/" + k)) == "/" + k;
    assert ("/" + k)[1..] == k;
    assert "/" + "/" + k == "/" + ("/" + k);
  }

  lemma BaseOfLeaf(leaf: string)
    requires leaf != "" && '/' !in leaf
    ensures Base(leaf) == leaf && LastIndex(leaf, "/") == -1
  {
    NoSeparator(leaf, '/');
    hide LastIndex;
    assert leaf[|leaf| - 1] in leaf;
    assert TrimRight(leaf, '/') == leaf;
  }

  lemma BaseInDir(p: string, leaf: string)
    requires leaf != "" && '/' !in leaf
    ensures var key := p + ['/'] + leaf; Base(key) == leaf && key[..LastIndex(key, "/") + 1] == p + "/"
  {
    var key := p + ['/'] + leaf;
    LastSeparator(p, leaf, '/');
    hide LastIndex;
    assert key[|key| - 1] == leaf[|leaf| - 1] && leaf[|leaf| - 1] in leaf;
    assert TrimRight(key, '/') == key;
  }

  lemma BaseOfCanonical(key: string)
    requires Canonical(key)
    ensures Base(key) == Split(key, '/')[|Split(key, '/')| - 1]
    ensures key[..LastIndex(key, "/") + 1] == if |Split(key, '/')| == 1 then "" else Parent(key) + "/"
  {
    hide Split, Parent, Base, LastIndex;
    ParentAndLeaf(key);
    var segs := Split(key, '/');
    var leaf := segs[|segs| - 1];
    if |segs| == 1 {
      BaseOfLeaf(key);
    } else {
      BaseInDir(Parent(key), leaf);
      assert key == Parent(key) + ['/'] + leaf;
    }
  }

  lemma TrailingSlash(p: string)
    requires Canonical(p)
    ensures Clean(p + "/") == p
  {
    var segs := Split(p, '/');
    JoinOfSplit(p, '/');
    CanonicalIsClean(p);
    SplitAppend(p, "", '/');
    assert p + "/" == p + ['/'] + "";
    assert segs + [""] == Split(p + "/", '/');
    hide Split, Canonical;
    CleanNormalThenEmpty(segs, []);
    assert [] + segs == segs;
  }

  lemma {:induction false} CleanNormalThenEmpty(segs: seq<string>, done: seq<string>)
    requires AllNormal(segs)
    ensures CleanSegments(false, segs + [""], done) == done + segs
  {
    if segs == [] {
      assert (segs + [""])[1..] == [] && done + segs == done;
    } else {
      assert (segs + [""])[1..] == segs[1..] + [""];
      CleanNormalThenEmpty(segs[1..], done + [segs[0]]);
      assert done + [segs[0]] + segs[1..] == done + segs;
    }
  }

  /** Where a canonical key goes: its directory, and its own path. */
  lemma PlaceOfCanonical(key: string)
    requires Canonical(key)
    ensures FromRoot(DirOf(key)) == Parent(key)
    ensures FromRoot(JoinPath(DirOf(key), Base(key))) == key
  {
    ParentAndLeaf(key);
    BaseOfCanonical(key);
    FromRootOfCanonical(key);
    var segs := Split(key, '/');
    if |segs| == 1 {
      RootPlace(key);
    } else {
      var p := Parent(key);
      TrailingSlash(p);
      FromRootOfCanonical(p);
      CanonicalIsClean(p);
      CanonicalIsClean(key);
      hide Split, Parent, Canonical, FromRoot, Clean, Base;
      assert Dir(key) == p;
      assert p != "." by { DotIsNotCanonical(); }
      assert p + "/" + Base(key) == key;
    }
  }

  lemma DotIsNotCanonical()
    ensures !Canonical(".")
  {
    SplitOfPlain(".", '/');
    assert !Normal(Split(".", '/')[0]);
  }

  lemma CleanOfRoot()
    ensures Clean("") == "." && FromRoot("/") == ""
  {
    assert Split("", '/') == [""];
    SplitAppend("", "", '/');
    SplitAppend("", "/", '/');
    assert "/" == "" + ['/'] + "" && "/" + "/" == "" + ['/'] + "/";
    hide Split;
    assert Split("/" + "/", '/') == ["", "", ""];
    assert ["", "", ""][1..] == ["", ""] && ["", ""][1..] == [""] && [""][1..] == [];
    assert CleanSegments(true, [""], []) == [];
    assert CleanSegments(true, ["", ""], []) == [];
  }

  lemma RootPlace(key: string)
    requires Canonical(key) && Base(key) == key && key[..LastIndex(key, "/") + 1] == ""
    ensures DirOf(key) == "/" && FromRoot("/") == "" && FromRoot(JoinPath("/", key)) == key
  {
    CleanOfRoot();
    FromRootOfCanonical(key);
    hide Clean, Canonical, Split, FromRoot;
  }

  /** The directory of a canonical key as writeResources names it. */
  lemma DirOfCanonical(key: string)
    requires Canonical(key)
    ensures var segs := Split(key, '/');
            && DirOf(key) == (if |segs| == 1 then "/" else Parent(key))
            && (IsKptfile(key) <==> segs[|segs| - 1] == "Kptfile")
  {
    ParentAndLeaf(key);
    BaseOfCanonical(key);
    var segs := Split(key, '/');
    if |segs| == 1 {
      RootPlace(key);
    } else {
      var p := Parent(key);
      TrailingSlash(p);
      DotIsNotCanonical();
      hide Split, Parent, Canonical, Clean, Base;
      assert Dir(key) == p;
    }
  }

  lemma RootIsNotCanonical()
    ensures !Canonical("/")
  {
    SplitAppend("", "", '/');
    assert "/" == "" + ['/'] + "";
    assert !Normal(Split("/", '/')[0]);
  }

  /** The key of the Kptfile in a directory. */
  function KptfileAt(dir: string): string {
    if dir == "/" then "Kptfile" else dir + "/" + "Kptfile"
  }

  lemma KptfileInDir(key: string)
    requires Canonical(key) && IsKptfile(key)
    ensures key == KptfileAt(DirOf(key))
  {
    DirOfCanonical(key);
    hide Split, Canonical, DirOf, IsKptfile;
    KeyFromLeaf(key, "Kptfile");
  }

  lemma KeyFromLeaf(key: string, leaf: string)
    requires Canonical(key) && leaf == Split(key, '/')[|Split(key, '/')| - 1]
    ensures key == if DirOf(key) == "/" then leaf else DirOf(key) + "/" + leaf
  {
    DirOfCanonical(key);
    ParentAndLeaf(key);
    RootIsNotCanonical();
    hide Split, Parent, Canonical, DirOf, IsKptfile;
  }

  lemma KptfileOf(dir: string)
    requires Canonical(KptfileAt(dir))
    ensures IsKptfile(KptfileAt(dir)) && DirOf(KptfileAt(dir)) == dir
  {
    if dir == "/" {
      RootKptfile();
    } else {
      KptfileHasNoSlash();
      hide Canonical, DirOf, IsKptfile, Split;
      DirOfLeaf(dir, "Kptfile");
    }
  }

  lemma KptfileHasNoSlash()
    ensures '/' !in "Kptfile"
  {
  }

  lemma DirOfLeaf(dir: string, leaf: string)
    requires '/' !in leaf && Canonical(dir + "/" + leaf)
    ensures DirOf(dir + "/" + leaf) == dir && (IsKptfile(dir + "/" + leaf) <==> leaf == "Kptfile")
  {
    var key := dir + "/" + leaf;
    SplitOfPlain(leaf, '/');
    SplitAppend(dir, leaf, '/');
    assert key == dir + ['/'] + leaf;
    DirOfCanonical(key);
    JoinOfSplit(dir, '/');
    var segs := Split(dir, '/');
    hide Split, Canonical, DirOf, IsKptfile;
    assert (segs + [leaf])[..|segs|] == segs;
  }

  /** Which directory is chosen among canonical keys: none without a Kptfile; else one with a Kptfile in it
      and none in a directory that it lies in. */
  lemma TopmostMeans(keys: set<string>, dir: string)
    requires AllCanonical(keys)
    ensures Topmost(keys, dir) <==>
              if dir == "" then forall d :: KptfileAt(d) !in keys
              else && KptfileAt(dir) in keys
                   && forall d | KptfileAt(d) in keys :: if d == "/" then dir == "/" else !Under(dir, d)
  {
    hide IsKptfile, DirOf, Canonical, KptfileAt;
    forall k | k in keys && IsKptfile(k) ensures k == KptfileAt(DirOf(k)) {
      assert Canonical(k);
      KptfileInDir(k);
    }
    forall d | KptfileAt(d) in keys ensures IsKptfile(KptfileAt(d)) && DirOf(KptfileAt(d)) == d {
      assert Canonical(KptfileAt(d));
      KptfileOf(d);
    }
  }

  /* ---------- writing and reading ---------- */

  ghost predicate Nested(keys: set<string>) {
    exists a, b :: a in keys && b in keys && Under(a, b)
  }

  ghost predicate AllCanonical(keys: set<string>) {
    forall k | k in keys :: Canonical(k)
  }

  /** The state of the file system when the given canonical keys have been written. */
  ghost predicate Holds(files: Contents, made: set<string>, contents: Contents, done: set<string>) {
    && files == Restrict(contents, done)
    && made == set k | k in done :: Parent(k)
  }

  /** Writing one more canonical key fails exactly when it nests with one already there. */
  lemma WriteFailsIffNested(files: Contents, made: set<string>, contents: Contents, done: set<string>, key: string)
    requires Holds(files, made, contents, done) && done <= contents.Keys && AllCanonical(contents.Keys) && key in contents
    ensures (exists f :: f in files && (f == Parent(key) || Under(Parent(key), f))) <==> exists k :: k in done && Under(key, k)
    ensures (exists x :: x in made + {Parent(key)} && (x == key || Under(x, key))) <==> exists k :: k in done + {key} && Under(k, key)
  {
    hide Parent, Under, Canonical;
    forall k | k in contents ensures k != "" && (Under(key, k) <==> Parent(key) == k || Under(Parent(key), k)) {
      CanonicalNonEmpty(k);
      UnderParent(key, k);
    }
    forall k | k in contents ensures (Under(k, key) <==> Parent(k) == key || Under(Parent(k), key)) {
      CanonicalNonEmpty(key);
      UnderParent(k, key);
    }
    if k :| k in done && Under(key, k) { assert k in files; }
    if f :| f in files && (f == Parent(key) || Under(Parent(key), f)) { assert f in done; }
    if k :| k in done + {key} && Under(k, key) { assert Parent(k) in made + {Parent(key)}; }
    if x :| x in made + {Parent(key)} && (x == key || Under(x, key)) {
      var k :| k in done + {key} && Parent(k) == x;
    }
  }

  lemma CanonicalNonEmpty(k: string)
    requires Canonical(k)
    ensures k != "" && !Under(k, k)
  {
    CanonicalIsClean(k);
  }

  lemma NestedStep(done: set<string>, key: string)
    requires !Nested(done) && !(exists k :: k in done && Under(key, k)) && !(exists k :: k in done + {key} && Under(k, key))
    ensures !Nested(done + {key})
  {
  }

  lemma HoldsStep(files: Contents, made: set<string>, contents: Contents, done: set<string>, key: string)
    requires Holds(files, made, contents, done) && key in contents
    ensures Holds(files[key := contents[key]], made + {Parent(key)}, contents, done + {key})
  {
  }

  /** writeResources, in any iteration order.  The directory returned is topmost; for canonical keys,
      from an empty file system, it succeeds exactly when no key lies under another, and then the
      files are the resources. */
  method WriteResources(fs: FileSystem, contents: Contents) returns (ok: bool, packageDir: string)
    requires fs.files == map[] && fs.made == {}
    modifies fs
    ensures ok ==> Topmost(contents.Keys, packageDir)
    ensures AllCanonical(contents.Keys) ==> (ok <==> !Nested(contents.Keys))
    ensures ok && AllCanonical(contents.Keys) ==> fs.files == contents
  {
    hide DirOf, IsKptfile, StrictlyAbove, FromRoot, Parent, Under, Canonical, JoinPath, Base, Topmost;
    packageDir := "";
    var todo := contents.Keys;
    ghost var done: set<string> := {};
    ghost var canonical := AllCanonical(contents.Keys);
    NothingWritten(contents);
    while todo != {}
      invariant todo <= contents.Keys && done == contents.Keys - todo
      invariant Topmost(done, packageDir)
      invariant canonical ==> Holds(fs.files, fs.made, contents, done) && !Nested(done)
      decreases |todo|
    {
      hide Nested, Holds, AllCanonical;
      var key :| key in todo;
      var dir := DirOf(key);
      if canonical {
        PlaceOfKey(contents.Keys, key);
        WriteFailsIffNested(fs.files, fs.made, contents, done, key);
        HoldsStep(fs.files, fs.made, contents, done, key);
        NestedFrom(contents.Keys, done, key);
      }
      ok := fs.MkdirAll(dir);
      if !ok { return false, ""; }
      ok := fs.WriteFile(JoinPath(dir, Base(key)), contents[key]);
      if !ok { return false, ""; }
      if canonical { NestedStep(done, key); }
      TopmostStep(done, packageDir, key);
      if IsKptfile(key) {
        if packageDir == "" || dir == "/" || HasPrefix(packageDir, dir + "/") {
          packageDir := dir;
        }
      }
      todo := todo - {key};
      done := done + {key};
    }
    assert done == contents.Keys;
    ok := true;
  }

  lemma NothingWritten(contents: Contents)
    ensures Topmost({}, "") && Holds(map[], {}, contents, {}) && !Nested({})
  {
  }

  lemma PlaceOfKey(keys: set<string>, key: string)
    requires AllCanonical(keys) && key in keys
    ensures FromRoot(DirOf(key)) == Parent(key) && FromRoot(JoinPath(DirOf(key), Base(key))) == key && key != ""
  {
    assert Canonical(key);
    PlaceOfCanonical(key);
    CanonicalNonEmpty(key);
  }

  lemma NestedFrom(keys: set<string>, done: set<string>, key: string)
    requires done <= keys && key in keys
    ensures (exists k :: k in done && Under(key, k)) || (exists k :: k in done + {key} && Under(k, key)) ==> Nested(keys)
  {
  }

  /** readResources: the walk visits the files in any order and strips the leading slash. */
  method ReadResources(fs: FileSystem) returns (contents: Contents)
    ensures contents == fs.files
  {
    contents := map[];
    var todo := fs.files.Keys;
    while todo != {}
      invariant todo <= fs.files.Keys
      invariant contents == Restrict(fs.files, fs.files.Keys - todo)
      decreases |todo|
    {
      var p :| p in todo;
      assert ("/" + p)[1..] == p;
      contents := contents[TrimPrefix("/" + p, "/") := fs.files[p]];
      todo := todo - {p};
    }
  }

  /** Writing accepted resources and reading them back is the identity. */
  method WriteThenRead(contents: Contents) returns (ok: bool, back: Contents)
    ensures ValidateResourcePaths(contents.Keys) && !Nested(contents.Keys) ==> ok && back == contents
  {
    hide SafeJoinHere, Canonical, Under, Topmost;
    ValidPathsAreCanonical(contents.Keys);
    var fs := new FileSystem();
    var dir;
    ok, dir := WriteResources(fs, contents);
    back := ReadResources(fs);
  }
}
