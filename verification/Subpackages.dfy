/** Independent subpackages inside a package's resource map: cloning one in, upgrading it in place,
    reading it back (pkg/task/generictaskhandler.go, pkg/task/upgrade.go).

    The methods edit the map in place in the order Go happens to iterate it; `var key :| key in todo`
    stands for that order.  `Replaced` and `Extract` are what they compute, and
    `RunKeepsSubpackages` is the law of every sequence of them.
 */
module Subpackages {
  import opened Text
  import opened SubpackageDirs
  import opened Directories
  import opened ResourceSizes

  const KPTFILE := "Kptfile"

  /** parentSubpackageFound: the directory of a Kptfile at or above dir, or "". */
  function ParentSubpackageFound(dir: string, key: string): string {
    if !HasSuffix(key, KPTFILE) then ""
    else
      var parent := TrimSuffix(key, "/" + KPTFILE);
      if dir == parent || HasPrefix(dir, parent + "/") then parent else ""
  }

  predicate CanClone(parent: Contents, dir: string) {
    forall key | key in parent :: ParentSubpackageFound(dir, key) == "" && !Under(key, dir)
  }

  predicate CanUpgrade(parent: Contents, dir: string) {
    && dir !in parent
    && (exists key :: key in parent && Under(key, dir))
    && forall key | key in parent && !Under(key, dir) :: ParentSubpackageFound(dir, key) == ""
  }

  function Outside(m: Contents, dir: string): Contents {
    map key | key in m && !Under(key, dir) :: m[key]
  }

  function Prefixed(dir: string, sub: Contents): (r: Contents)
    ensures forall key :: key in r <==> Under(key, dir) && Rest(key, dir) in sub
    ensures forall key | key in r :: r[key] == sub[Rest(key, dir)]
  {
    KeysInDir(dir);
    map key | key in sub :: InDir(dir, key) := sub[key]
  }

  function Extract(m: Contents, dir: string): (r: Contents)
    ensures forall key :: key in r <==> InDir(dir, key) in m
    ensures forall key | key in r :: r[key] == m[InDir(dir, key)]
  {
    KeysInDir(dir);
    map key | key in m && Under(key, dir) :: Rest(key, dir) := m[key]
  }

  /** The parent without the directory, plus the subpackage under the directory. */
  function Replaced(parent: Contents, dir: string, sub: Contents): Contents {
    Outside(parent, dir) + Prefixed(dir, sub)
  }

  lemma WriteNothing(parent: Contents, dir: string, sub: Contents)
    ensures parent + Prefixed(dir, Restrict(sub, {})) == parent
  {
    hide Under, Rest;
  }

  lemma WriteStep(parent: Contents, dir: string, sub: Contents, written: set<string>, key: string)
    requires key in sub
    ensures (parent + Prefixed(dir, Restrict(sub, written)))[InDir(dir, key) := sub[key]]
            == parent + Prefixed(dir, Restrict(sub, written + {key}))
  {
    KeysInDir(dir);
    hide Under, Rest, InDir, Prefixed;
    assert forall k :: Under(k, dir) && Rest(k, dir) == key <==> k == InDir(dir, key);
  }

  /* ---------- deleting while checking ---------- */

  /** What is left when the keys not in todo have been visited. */
  function Left(was: Contents, dir: string, todo: set<string>): Contents {
    map key | key in was && (key in todo || !Under(key, dir)) :: was[key]
  }

  /** The keys not in todo pass the checks, and found says whether one of them is in the directory. */
  ghost predicate Passed(was: Contents, dir: string, todo: set<string>, found: bool) {
    && (forall key | key in was && key !in todo ::
          key != dir && (!Under(key, dir) ==> ParentSubpackageFound(dir, key) == ""))
    && (found <==> exists key :: key in was && key !in todo && Under(key, dir))
  }

  lemma NothingDeleted(was: Contents, dir: string)
    ensures Left(was, dir, was.Keys) == was && Passed(was, dir, was.Keys, false)
  {
    hide Under, ParentSubpackageFound;
  }

  lemma LeftStep(was: Contents, dir: string, todo: set<string>, key: string)
    requires key in todo && key in was
    ensures Left(was, dir, todo - {key}) == if Under(key, dir) then Left(was, dir, todo) - {key} else Left(was, dir, todo)
  {
    hide Under;
  }

  lemma LeftOutside(was: Contents, dir: string, todo: set<string>)
    ensures Outside(Left(was, dir, todo), dir) == Outside(was, dir) && Left(was, dir, todo).Keys <= was.Keys
    ensures todo == {} ==> Left(was, dir, todo) == Outside(was, dir)
  {
    hide Under;
  }

  lemma PassedStep(was: Contents, dir: string, todo: set<string>, key: string, found: bool)
    requires key in todo && key in was && key != dir && (!Under(key, dir) ==> ParentSubpackageFound(dir, key) == "")
    requires Passed(was, dir, todo, found)
    ensures Passed(was, dir, todo - {key}, found || Under(key, dir))
  {
    hide Under, ParentSubpackageFound;
  }

  lemma Blocked(was: Contents, dir: string, key: string)
    requires key in was && (key == dir || (!Under(key, dir) && ParentSubpackageFound(dir, key) != ""))
    ensures !CanUpgrade(was, dir)
  {
    hide Under, ParentSubpackageFound;
  }

  lemma AllPassed(was: Contents, dir: string, found: bool)
    requires Passed(was, dir, {}, found)
    ensures CanUpgrade(was, dir) <==> found
  {
    hide Under, ParentSubpackageFound;
  }

  lemma ReplacedIs(parent: Contents, dir: string, sub: Contents)
    ensures Replaced(parent, dir, sub) == Outside(parent, dir) + Prefixed(dir, sub)
  {
    hide Outside, Prefixed;
  }

  /* ---------- the operations, in place ---------- */

  class PackageResources {
    var contents: Contents

    constructor (contents: Contents)
      ensures this.contents == contents
    {
      this.contents := contents;
    }

    /** The common ending of clone and upgrade: write the subpackage under the directory. */
    method WriteUnder(dir: string, sub: Contents)
      modifies this
      ensures contents == old(contents) + Prefixed(dir, sub)
    {
      hide *;
      ghost var was := contents;
      var todo := sub.Keys;
      ghost var written: set<string> := {};
      WriteNothing(was, dir, sub);
      while todo != {}
        invariant todo <= sub.Keys && written == sub.Keys - todo
        invariant contents == was + Prefixed(dir, Restrict(sub, written))
        decreases |todo|
      {
        var key :| key in todo;
        WriteStep(was, dir, sub, written, key);
        contents := contents[InDir(dir, key) := sub[key]];
        todo := todo - {key};
        written := written + {key};
      }
      assert written == sub.Keys;
    }

    /** insertSubpackageResourcesInDraftResources */
    method InsertSubpackage(dir: string, sub: Contents) returns (ok: bool)
      modifies this
      ensures ok <==> CanClone(old(contents), dir)
      ensures contents == if ok then Replaced(old(contents), dir, sub) else old(contents)
    {
      hide Under, ParentSubpackageFound, Prefixed;
      var todo := contents.Keys;
      while todo != {}
        invariant todo <= contents.Keys && contents == old(contents)
        invariant forall key | key in contents && key !in todo :: ParentSubpackageFound(dir, key) == "" && !Under(key, dir)
        decreases |todo|
      {
        var key :| key in todo;
        if ParentSubpackageFound(dir, key) != "" { return false; }
        if Under(key, dir) { return false; }
        todo := todo - {key};
      }
      WriteUnder(dir, sub);
      assert Outside(old(contents), dir) == old(contents);
      ok := true;
    }

    /** upgradeSubpackageResourcesInDraftResources: deletes while it checks, so a failure may leave
        part of the directory deleted, and nothing else changed. */
    method UpgradeSubpackage(dir: string, sub: Contents) returns (ok: bool)
      modifies this
      ensures ok <==> CanUpgrade(old(contents), dir)
      ensures ok ==> contents == Replaced(old(contents), dir, sub)
      ensures !ok ==> Outside(contents, dir) == Outside(old(contents), dir) && contents.Keys <= old(contents).Keys
    {
      hide *;
      ghost var was := contents;
      var found := false;
      var todo := contents.Keys;
      NothingDeleted(was, dir);
      while todo != {}
        invariant todo <= was.Keys && contents == Left(was, dir, todo) && Passed(was, dir, todo, found)
        decreases |todo|
      {
        var key :| key in todo;
        LeftOutside(was, dir, todo);
        LeftStep(was, dir, todo, key);
        if key == dir {
          Blocked(was, dir, key);
          return false;
        }
        ghost var before := found;
        if Under(key, dir) {
          found := true;
          contents := contents - {key};
        } else if ParentSubpackageFound(dir, key) != "" {
          Blocked(was, dir, key);
          return false;
        }
        PassedStep(was, dir, todo, key, before);
        todo := todo - {key};
      }
      LeftOutside(was, dir, {});
      AllPassed(was, dir, found);
      if !found { return false; }
      WriteUnder(dir, sub);
      ReplacedIs(was, dir, sub);
      ok := true;
    }
  }

  datatype Extraction = NotFound | MissingKptfile | Extracted(sub: Contents)

  /** The extraction loop of an upgrade task, with its two checks. */
  method ExtractSubpackage(local: Contents, dir: string) returns (r: Extraction)
    ensures r == if Extract(local, dir) == map[] then NotFound
                 else if "Kptfile" !in Extract(local, dir) then MissingKptfile
                 else Extracted(Extract(local, dir))
  {
    hide Under, InDir, Rest, Extract;
    KeysInDir(dir);
    var sub: Contents := map[];
    var todo := local.Keys;
    while todo != {}
      invariant todo <= local.Keys
      invariant forall key :: key in sub <==> InDir(dir, key) in local && InDir(dir, key) !in todo
      invariant forall key | key in sub :: sub[key] == local[InDir(dir, key)]
      decreases |todo|
    {
      var key :| key in todo;
      if Under(key, dir) {
        sub := sub[Rest(key, dir) := local[key]];
      }
      todo := todo - {key};
    }
    assert sub == Extract(local, dir);
    if sub == map[] { return NotFound; }
    if KPTFILE !in sub { return MissingKptfile; }
    return Extracted(sub);
  }

  /* ---------- Kptfiles and directories ---------- */

  /** A subpackage's Kptfile blocks clones and upgrades at or below its root. */
  lemma KptfileBlocks(root: string, dir: string)
    requires Above(root, dir)
    ensures ParentSubpackageFound(dir, InDir(root, KPTFILE)) == root
  {
    var key := InDir(root, KPTFILE);
    AboveIsPrefix(root, dir);
    assert key == root + ("/" + KPTFILE);
    assert key[|key| - |"/" + KPTFILE|..] == "/" + KPTFILE && key[..|key| - |"/" + KPTFILE|] == root;
    assert key[|key| - |KPTFILE|..] == KPTFILE;
  }

  /** The directory test means: a key q/Kptfile whose q is dir or a directory above it.  Valid
      directories are lower case, so no other key ending in "Kptfile" can match. */
  lemma ParentFoundIff(dir: string, key: string)
    requires IsValidSubpackageDir(dir)
    ensures ParentSubpackageFound(dir, key) != "" <==>
              exists q :: key == InDir(q, KPTFILE) && Above(q, dir)
  {
    if q :| key == InDir(q, KPTFILE) && Above(q, dir) {
      AboveIsPrefix(q, dir);
      KptfileBlocks(q, dir);
    } else if ParentSubpackageFound(dir, key) != "" {
      ParentIsAbove(dir, key);
    }
  }

  /** A Kptfile stands at a directory at or above dir. */
  ghost predicate KptfileOver(key: string, dir: string) {
    exists q :: key == InDir(q, "Kptfile") && Above(q, dir)
  }

  /** A clone is accepted exactly when nothing is in the directory and no Kptfile is at or above it. */
  lemma CloneAcceptedIff(parent: Contents, dir: string)
    requires IsValidSubpackageDir(dir)
    ensures CanClone(parent, dir) <==> forall key | key in parent :: !HasPrefix(key, dir + "/") && !KptfileOver(key, dir)
  {
    hide IsValidSubpackageDir, ParentSubpackageFound, Above, InDir;
    forall key | key in parent ensures ParentSubpackageFound(dir, key) == "" <==> !KptfileOver(key, dir) {
      ParentFoundIff(dir, key);
    }
    hide KptfileOver;
  }

  /** An upgrade is accepted exactly when something is in the directory, no file is at its own path and no
      Kptfile is above it. */
  lemma UpgradeAcceptedIff(parent: Contents, dir: string)
    requires IsValidSubpackageDir(dir)
    ensures CanUpgrade(parent, dir) <==>
              && dir !in parent && (exists key :: key in parent && HasPrefix(key, dir + "/"))
              && forall key | key in parent && !HasPrefix(key, dir + "/") :: !KptfileOver(key, dir)
  {
    hide IsValidSubpackageDir, ParentSubpackageFound, Above, InDir;
    forall key | key in parent ensures ParentSubpackageFound(dir, key) == "" <==> !KptfileOver(key, dir) {
      ParentFoundIff(dir, key);
    }
    hide KptfileOver, HasPrefix;
  }

  lemma ParentIsAbove(dir: string, key: string)
    requires IsValidSubpackageDir(dir) && ParentSubpackageFound(dir, key) != ""
    ensures var q := ParentSubpackageFound(dir, key); key == InDir(q, KPTFILE) && Above(q, dir)
  {
    hide IsValidSubpackageDir;
    var q := ParentSubpackageFound(dir, key);
    AboveIsPrefix(q, dir);
    CapitalInValidDir(dir, key);
    assert HasSuffix(key, "/" + KPTFILE);
    assert key == key[..|key| - |"/" + KPTFILE|] + key[|key| - |"/" + KPTFILE|..];
  }

  lemma CapitalInValidDir(dir: string, key: string)
    requires IsValidSubpackageDir(dir) && HasSuffix(key, KPTFILE)
    ensures dir != key && !HasPrefix(dir, key + "/")
  {
    hide IsValidSubpackageDir;
    assert key == key[..|key| - |KPTFILE|] + KPTFILE;
    assert KPTFILE[0] in key;
    PrefixChars(dir, key + "/", 'K');
    ValidDirFacts(dir);
    JoinChars(Split(dir, '/'), '/', 'K');
  }

  lemma ValidDirNonEmpty(dir: string)
    requires IsValidSubpackageDir(dir)
    ensures dir != ""
  {
  }

  /* ---------- one operation ---------- */

  /** Reading the directory back after a clone or an upgrade gives the subpackage. */
  lemma ExtractAfterReplace(parent: Contents, dir: string, sub: Contents)
    ensures Extract(Replaced(parent, dir, sub), dir) == sub
  {
    hide Under, InDir, Rest, Prefixed, Extract;
    KeysInDir(dir);
    var r := Extract(Replaced(parent, dir, sub), dir);
    assert r.Keys == sub.Keys;
  }

  /** A directory that is neither above nor below keeps its contents. */
  lemma ExtractElsewhere(parent: Contents, dir: string, sub: Contents, other: string)
    requires !Above(dir, other) && !Above(other, dir)
    ensures Extract(Replaced(parent, dir, sub), other) == Extract(parent, other)
  {
    hide Under, InDir, Rest, Prefixed, Extract, Above;
    KeysInDir(other);
    forall key ensures !Under(InDir(other, key), dir) {
      if Under(InDir(other, key), dir) { CommonKey(InDir(other, key), other, dir); }
    }
    var l, r := Extract(Replaced(parent, dir, sub), other), Extract(parent, other);
    assert l.Keys == r.Keys;
  }

  /** A clone accepts a parent that has a file at the directory's own path, an upgrade does not: after
      an accepted clone, the subpackage can be upgraded exactly when there was no such file. */
  lemma UpgradeAfterClone(parent: Contents, dir: string, sub: Contents)
    requires CanClone(parent, dir) && KPTFILE in sub
    ensures CanUpgrade(Replaced(parent, dir, sub), dir) <==> dir !in parent
  {
    hide InDir, Rest, Prefixed, ParentSubpackageFound;
    KeysInDir(dir);
    var m := Replaced(parent, dir, sub);
    assert !Under(dir, dir);
    hide Under;
    assert InDir(dir, KPTFILE) in m && Under(InDir(dir, KPTFILE), dir);
  }

  /* ---------- runs ---------- */

  datatype Op = Clone(dir: string, sub: Contents) | Upgrade(dir: string, sub: Contents)

  predicate ValidOp(op: Op) {
    IsValidSubpackageDir(op.dir) && KPTFILE in op.sub
  }

  predicate Accepted(m: Contents, op: Op) {
    match op
    case Clone(dir, _) => CanClone(m, dir)
    case Upgrade(dir, _) => CanUpgrade(m, dir)
  }

  /** A rejected operation is discarded with the draft. */
  function Apply(m: Contents, op: Op): Contents {
    if Accepted(m, op) then Replaced(m, op.dir, op.sub) else m
  }

  /** The roots put in so far and what was last put at each; an upgrade at a directory above a root
      replaces that root too. */
  ghost function ApplyRoots(m: Contents, roots: map<string, Contents>, op: Op): map<string, Contents> {
    if Accepted(m, op) then (map r | r in roots && !Above(op.dir, r) :: roots[r])[op.dir := op.sub] else roots
  }

  function Run(m: Contents, ops: seq<Op>): Contents {
    if ops == [] then m else Apply(Run(m, ops[..|ops| - 1]), ops[|ops| - 1])
  }

  ghost function RunRoots(m: Contents, ops: seq<Op>): map<string, Contents> {
    if ops == [] then map[]
    else
      var before := ops[..|ops| - 1];
      ApplyRoots(Run(m, before), RunRoots(m, before), ops[|ops| - 1])
  }

  ghost predicate Antichain(roots: map<string, Contents>) {
    forall r, s | r in roots && s in roots && r != s :: !Above(r, s)
  }

  ghost predicate RootsHold(m: Contents, roots: map<string, Contents>) {
    && Antichain(roots)
    && forall r | r in roots :: r != "" && KPTFILE in roots[r] && Extract(m, r) == roots[r]
  }

  /** The checks against one root: its Kptfile is in the map, so an accepted directory is not strictly
      below it, and a cloned one not above it either. */
  lemma AcceptedAvoidsRoot(m: Contents, op: Op, r: string)
    requires Accepted(m, op) && InDir(r, KPTFILE) in m && r != "" && r != op.dir
    ensures !Above(r, op.dir)
    ensures op.Clone? ==> !Above(op.dir, r)
  {
    hide Above, Under, InDir, Rest, ParentSubpackageFound;
    var key := InDir(r, KPTFILE);
    KeysInDir(r);
    assert '/' !in KPTFILE;
    if Above(r, op.dir) {
      KptfileBlocks(r, op.dir);
      if Under(key, op.dir) {
        OverFile(r, KPTFILE, op.dir);
        AboveAntisymmetric(r, op.dir);
      }
    }
    if op.Clone? && Above(op.dir, r) { UnderAbove(key, op.dir, r); }
  }

  lemma StepKeepsAntichain(m: Contents, roots: map<string, Contents>, op: Op)
    requires RootsHold(m, roots)
    ensures Antichain(ApplyRoots(m, roots, op))
  {
    hide Above, InDir, Extract, Accepted;
    if Accepted(m, op) {
      forall r | r in roots && r != op.dir ensures !Above(r, op.dir) {
        assert KPTFILE in Extract(m, r);
        AcceptedAvoidsRoot(m, op, r);
      }
    }
  }

  lemma StepKeepsRoots(m: Contents, roots: map<string, Contents>, op: Op)
    requires RootsHold(m, roots) && ValidOp(op)
    ensures RootsHold(Apply(m, op), ApplyRoots(m, roots, op))
  {
    hide IsValidSubpackageDir, Above, InDir, Extract, Accepted, Replaced, Antichain;
    StepKeepsAntichain(m, roots, op);
    if Accepted(m, op) {
      ValidDirNonEmpty(op.dir);
      ExtractAfterReplace(m, op.dir, op.sub);
      forall r | r in roots && !Above(op.dir, r) && r != op.dir ensures Extract(Apply(m, op), r) == roots[r] {
        assert KPTFILE in Extract(m, r);
        AcceptedAvoidsRoot(m, op, r);
        ExtractElsewhere(m, op.dir, op.sub, r);
      }
    }
  }

  /** Over every run of clones and upgrades, from any parent map: the current roots are pairwise
      not above one another, and each root's directory reads back as what was last put there. */
  lemma {:induction false} RunKeepsSubpackages(m: Contents, ops: seq<Op>)
    requires forall i | 0 <= i < |ops| :: ValidOp(ops[i])
    ensures RootsHold(Run(m, ops), RunRoots(m, ops))
  {
    hide ValidOp, Apply, ApplyRoots;
    if ops != [] {
      var before := ops[..|ops| - 1];
      RunKeepsSubpackages(m, before);
      StepKeepsRoots(Run(m, before), RunRoots(m, before), ops[|ops| - 1]);
    }
  }

  /** Over every run, keys outside the touched directories never change. */
  lemma {:induction false} RunKeepsOutside(m: Contents, ops: seq<Op>, key: string)
    requires forall i | 0 <= i < |ops| :: !Under(key, ops[i].dir)
    ensures key in Run(m, ops) <==> key in m
    ensures key in m ==> Run(m, ops)[key] == m[key]
  {
    hide Under, Accepted, Prefixed;
    if ops != [] {
      assert !Under(key, ops[|ops| - 1].dir);
      RunKeepsOutside(m, ops[..|ops| - 1], key);
    }
  }

  /* ---------- sizes ---------- */

  lemma PrefixedWithout(dir: string, sub: Contents, key: string)
    requires key in sub
    ensures var p := Prefixed(dir, sub);
            InDir(dir, key) in p && p[InDir(dir, key)] == sub[key] && p - {InDir(dir, key)} == Prefixed(dir, sub - {key})
  {
  }

  lemma {:induction false} SizeOfPrefixed(dir: string, sub: Contents)
    ensures TotalSize(Prefixed(dir, sub)) == TotalSize(sub)
    decreases |sub|
  {
    hide Prefixed, InDir;
    if sub == map[] {
      assert Prefixed(dir, sub) == map[];
    } else {
      hide TotalSize;
      var key :| key in sub;
      PrefixedWithout(dir, sub, key);
      SizeWithout(sub, key);
      SizeWithout(Prefixed(dir, sub), InDir(dir, key));
      SizeOfPrefixed(dir, sub - {key});
    }
  }

  /** A map is its part outside a directory and its part inside. */
  lemma OutsideAndInside(m: Contents, dir: string)
    ensures m == Replaced(m, dir, Extract(m, dir))
  {
    hide Under, InDir, Rest, Prefixed, Extract;
    KeysInDir(dir);
    assert m.Keys == Replaced(m, dir, Extract(m, dir)).Keys;
  }

  lemma SizeOfReplaced(parent: Contents, dir: string, sub: Contents)
    ensures TotalSize(Replaced(parent, dir, sub)) == TotalSize(Outside(parent, dir)) + TotalSize(sub)
  {
    hide Under, Prefixed, TotalSize;
    SizeOfUnion(Outside(parent, dir), Prefixed(dir, sub));
    SizeOfPrefixed(dir, sub);
  }

  /** An upgrade gives back the directory's old size and adds the subpackage's; a clone only adds. */
  lemma ReplaceSize(parent: Contents, dir: string, sub: Contents)
    ensures TotalSize(Replaced(parent, dir, sub)) + TotalSize(Extract(parent, dir)) == TotalSize(parent) + TotalSize(sub)
    ensures CanClone(parent, dir) ==> TotalSize(Replaced(parent, dir, sub)) == TotalSize(parent) + TotalSize(sub)
  {
    hide Under, TotalSize, ParentSubpackageFound, Replaced, Extract;
    SizeOfReplaced(parent, dir, sub);
    SizeOfReplaced(parent, dir, Extract(parent, dir));
    OutsideAndInside(parent, dir);
    if CanClone(parent, dir) { assert Outside(parent, dir) == parent; }
  }
}
