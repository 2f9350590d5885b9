/** Where the object-name codec stops: families of accepted keys and names that do not come back.

    Each lemma is a counterpart of one side of an "if and only if" in `Names`, with every key and name
    in it accepted by the validity checks.
 */
module NameLimits {
  import opened Text
  import opened Paths
  import opened Names

  /* ---------- valid keys from labels ---------- */

  lemma {:induction false} WithoutAppend(s: string, t: string, c: char)
    ensures Without(s + t, c) == Without(s, c) + Without(t, c)
  {
    if s == "" {
      assert s + t == t;
    } else {
      assert (s + t)[1..] == s[1..] + t;
      WithoutAppend(s[1..], t, c);
    }
  }

  lemma {:induction false} WithoutPlain(s: string, c: char)
    requires c !in s
    ensures Without(s, c) == s
  {
    if s != "" {
      WithoutPlain(s[1..], c);
      assert [s[0]] + s[1..] == s;
    }
  }

  lemma LabelAppend(a: string, b: string)
    requires LabelShape(a) && LabelShape(b)
    ensures LabelShape(a + b)
  {
  }

  /** Labels joined by slashes make a valid directory while they are short enough together. */
  lemma {:induction false} LabelsJoinBare(mid: seq<string>)
    requires mid != [] && AllLabelShaped(mid)
    ensures LabelShape(Without(Join(mid, '/'), '/'))
  {
    LabelIsNormal(mid[0]);
    WithoutPlain(mid[0], '/');
    if |mid| > 1 {
      LabelsJoinBare(mid[1..]);
      var rest := Join(mid[1..], '/');
      WithoutAppend(mid[0] + ['/'], rest, '/');
      WithoutAppend(mid[0], ['/'], '/');
      assert Without(['/'], '/') == "";
      LabelAppend(mid[0], Without(rest, '/'));
    }
  }

  lemma LabelSegments(mid: seq<string>, c: char)
    requires mid != [] && AllLabelShaped(mid) && (c == '.' || c == '/')
    ensures Split(Join(mid, c), c) == mid
  {
    forall i | 0 <= i < |mid| ensures c !in mid[i] { LabelIsNormal(mid[i]); }
    SplitOfJoin(mid, c);
  }

  lemma LabelsAreDirectory(mid: seq<string>)
    requires AllLabelShaped(mid) && |Without(Join(mid, '/'), '/')| <= 63
    ensures ValidDirectory(Join(mid, '/'), false)
  {
    if mid != [] {
      LabelsJoinBare(mid);
      LabelSegments(mid, '/');
      NoDoubledSeparator(Join(mid, '/'), '/');
    }
  }

  lemma DottedLabels(mid: seq<string>, pkg: string)
    requires AllLabelShaped(mid) && LabelShape(pkg)
    ensures DottedPath(Join(mid, '/'), pkg) == Join(mid + [pkg], '.')
  {
    var segs := mid + [pkg];
    forall i | 0 <= i < |segs| ensures Normal(segs[i]) && '.' !in segs[i] && '/' !in segs[i] {
      LabelIsNormal(if i < |mid| then mid[i] else pkg);
    }
    DottedPathOfSegments(mid, pkg);
  }

  /** A name made of labels, whatever its path, is accepted while it is short enough. */
  lemma LabelsMakeValidKey(repo: string, path: string, segs: seq<string>, pkg: string, ws: string)
    requires IsLabel(repo) && AllLabelShaped(segs) && IsLabel(pkg) && IsLabel(ws) && ValidDirectory(path, false)
    requires DottedPath(path, pkg) == Join(segs + [pkg], '.')
    requires |repo| + |Join(segs + [pkg], '.')| + |ws| + 2 <= 253
    ensures ValidPkgRevObjName(PkgRevKey(PkgKey(repo, path, pkg), ws))
  {
    hide ValidDirectory, DottedPath, Join;
    var tail := segs + [pkg];
    var d := Join(tail, '.');
    LabelSegments(tail, '.');
    LabelIsNormal(repo);
    LabelIsNormal(ws);
    SplitOfPlain(repo, '.');
    SplitOfPlain(ws, '.');
    SplitAppend(repo, d, '.');
    SplitAppend(repo + ['.'] + d, ws, '.');
    hide Split, LabelShape;
    assert repo + ['.'] + d + ['.'] + ws == repo + "." + d + "." + ws;
    assert Split(repo + "." + d + "." + ws, '.') == [repo] + tail + [ws];
  }

  lemma KeyOfLabelsIsValid(repo: string, mid: seq<string>, pkg: string, ws: string)
    requires IsLabel(repo) && AllLabelShaped(mid) && IsLabel(pkg) && IsLabel(ws)
    requires |Without(Join(mid, '/'), '/')| <= 63
    requires |repo| + |Join(mid + [pkg], '.')| + |ws| + 2 <= 253
    ensures ValidPkgRevObjName(PkgRevKey(PkgKey(repo, Join(mid, '/'), pkg), ws))
  {
    hide ValidPkgRevObjName, LabelShape;
    LabelsAreDirectory(mid);
    DottedLabels(mid, pkg);
    LabelsMakeValidKey(repo, Join(mid, '/'), mid, pkg, ws);
  }

  /** The two short shapes: a package at the top, and one directory down. */
  lemma PlainKeyIsValid(repo: string, pkg: string, ws: string)
    requires IsLabel(repo) && IsLabel(pkg) && IsLabel(ws)
    ensures ValidPkgRevObjName(PkgRevKey(PkgKey(repo, "", pkg), ws)) && DottedPath("", pkg) == pkg
  {
    hide ValidPkgRevObjName, LabelShape, DottedPath;
    assert Join([], '/') == "" && [] + [pkg] == [pkg];
    KeyOfLabelsIsValid(repo, [], pkg, ws);
    DottedLabels([], pkg);
  }

  lemma NestedKeyIsValid(repo: string, dir: string, pkg: string, ws: string)
    requires IsLabel(repo) && IsLabel(dir) && IsLabel(pkg) && IsLabel(ws)
    requires |repo| + |dir| + |pkg| + |ws| + 3 <= 253
    ensures ValidPkgRevObjName(PkgRevKey(PkgKey(repo, dir, pkg), ws)) && DottedPath(dir, pkg) == dir + "." + pkg
  {
    LabelIsNormal(dir);
    WithoutPlain(dir, '/');
    hide ValidPkgRevObjName, LabelShape, DottedPath, Without;
    assert Join([dir], '/') == dir && [dir] + [pkg] == [dir, pkg];
    JoinAppend([dir], [pkg], '.');
    KeyOfLabelsIsValid(repo, [dir], pkg, ws);
    DottedLabels([dir], pkg);
  }

  /* ---------- exactly the valid keys ---------- */

  /** Lower-case letters, digits and dashes, with no dash at either end. */
  predicate DashedAlnum(s: string) {
    && s != "" && s[0] != '-' && s[|s| - 1] != '-'
    && forall i :: 0 <= i < |s| ==> 'a' <= s[i] <= 'z' || '0' <= s[i] <= '9' || s[i] == '-'
  }

  lemma LabelMeans(s: string)
    ensures LabelShape(s) <==> DashedAlnum(s)
    ensures IsLabel(s) <==> DashedAlnum(s) && |s| <= 63
  {
  }

  lemma {:induction false} WithoutLength(s: string, c: char)
    ensures |Without(s, c)| == |s| - (|Split(s, c)| - 1)
  {
    if s != "" { WithoutLength(s[1..], c); }
  }

  /** The segments of a path are real labels, of at most 63 characters together. */
  ghost predicate LabelledPath(path: string) {
    path == "" ||
    var segs := Split(path, '/');
    |path| - (|segs| - 1) <= 63 && forall i :: 0 <= i < |segs| ==> DashedAlnum(segs[i])
  }

  /** Exactly which keys are valid, for paths without outer slashes: labels throughout, and 253 characters
      for the whole name. */
  lemma ValidKeyIff(repo: string, path: string, pkg: string, ws: string)
    requires NoOuterSlash(path)
    ensures ValidPkgRevObjName(PkgRevKey(PkgKey(repo, path, pkg), ws)) <==>
              && DashedAlnum(repo) && |repo| <= 63 && DashedAlnum(pkg) && |pkg| <= 63 && DashedAlnum(ws) && |ws| <= 63
              && LabelledPath(path)
              && |repo| + 1 + (if path == "" then 0 else |path| + 1) + |pkg| + 1 + |ws| <= 253
  {
    LabelMeans(repo);
    LabelMeans(pkg);
    LabelMeans(ws);
    hide LabelShape, IsLabel, DashedAlnum;
    if ValidPkgRevObjName(PkgRevKey(PkgKey(repo, path, pkg), ws)) {
      ValidKeyIsLabelled(repo, path, pkg, ws);
    }
    hide ValidPkgRevObjName;
    if IsLabel(repo) && IsLabel(pkg) && IsLabel(ws) && LabelledPath(path)
       && |repo| + 1 + (if path == "" then 0 else |path| + 1) + |pkg| + 1 + |ws| <= 253 {
      LabelledKeyIsValid(repo, path, pkg, ws);
    }
  }

  /** The same for package keys. */
  lemma ValidPkgKeyIff(repo: string, path: string, pkg: string)
    requires NoOuterSlash(path)
    ensures ValidPkgObjName(PkgKey(repo, path, pkg)) <==>
              && DashedAlnum(repo) && |repo| <= 63 && DashedAlnum(pkg) && |pkg| <= 63 && LabelledPath(path)
              && |repo| + 1 + (if path == "" then 0 else |path| + 1) + |pkg| <= 253
  {
    LabelMeans(repo);
    LabelMeans(pkg);
    PathSegmentsMean(path);
    hide LabelShape, IsLabel, DashedAlnum, LabelledPath, ValidDirectory;
    if ValidParts(PkgKey(repo, path, pkg)) { PkgNameIff(repo, path, pkg); }
    if IsLabel(repo) && IsLabel(pkg) && LabelledPath(path) {
      LabelsAreDirectory(PathSegments(path));
      PkgNameIff(repo, path, pkg);
    }
  }

  lemma PkgNameIff(repo: string, path: string, pkg: string)
    requires NoOuterSlash(path) && ValidParts(PkgKey(repo, path, pkg))
    ensures IsSubdomain(ComposePkgObjName(PkgKey(repo, path, pkg))) <==>
              LabelledPath(path) && |repo| + 1 + (if path == "" then 0 else |path| + 1) + |pkg| <= 253
  {
    LabelNonEmpty(repo);
    LabelNonEmpty(pkg);
    PrintedSegments(PkgKey(repo, path, pkg));
    ShortPath(path);
    PathSegmentsMean(path);
    hide Split, LabelShape, DottedPath, PathSegments, ValidDirectory, Without, LabelledPath, IsLabel, AllLabelShaped;
    var mid := PathSegments(path);
    AllLabelsOf([repo] + mid + [pkg], mid, 1);
    AroundLabels(repo, mid, [pkg]);
    if AllLabelShaped(mid) { PrintedShape(path, pkg); }
  }

  lemma ShortPath(path: string)
    requires ValidDirectory(path, false)
    ensures |Without(path, '/')| <= 63
  {
    hide Contains;
  }

  lemma AllLabelsOf(segs: seq<string>, mid: seq<string>, n: int)
    requires 0 <= n && n + |mid| <= |segs| && segs[n..n + |mid|] == mid
    ensures AllLabelShaped(segs) ==> AllLabelShaped(mid)
  {
    hide LabelShape;
    forall i | 0 <= i < |mid| ensures mid[i] == segs[n + i] {
      assert segs[n..n + |mid|][i] == segs[n + i];
    }
  }

  lemma AroundLabels(repo: string, mid: seq<string>, rest: seq<string>)
    requires LabelShape(repo) && AllLabelShaped(rest)
    ensures AllLabelShaped(mid) ==> AllLabelShaped([repo] + mid + rest)
  {
    hide LabelShape;
  }

  lemma PathSegmentsMean(path: string)
    ensures AllLabelShaped(PathSegments(path)) && |Without(path, '/')| <= 63 <==> LabelledPath(path)
    ensures Join(PathSegments(path), '/') == path
  {
    WithoutLength(path, '/');
    JoinOfSplit(path, '/');
    var segs := PathSegments(path);
    forall i | 0 <= i < |segs| ensures LabelShape(segs[i]) <==> DashedAlnum(segs[i]) { LabelMeans(segs[i]); }
    hide Split, LabelShape, DashedAlnum, Without;
    assert path == "" ==> |Without(path, '/')| == 0;
  }

  /** The printed path as segments, and its length. */
  lemma PrintedShape(path: string, pkg: string)
    requires AllLabelShaped(PathSegments(path)) && LabelShape(pkg)
    ensures var d := DottedPath(path, pkg);
            d == Join(PathSegments(path) + [pkg], '.') && |d| == (if path == "" then 0 else |path| + 1) + |pkg|
  {
    var mid := PathSegments(path);
    JoinOfSplit(path, '/');
    DottedLabels(mid, pkg);
    var segs := mid + [pkg];
    forall i | 0 <= i < |segs| ensures '/' !in segs[i] {
      LabelIsNormal(if i < |mid| then mid[i] else pkg);
    }
    hide Split, LabelShape, DottedPath;
    ReplaceInJoin(segs, '/', '.');
    if mid != [] { JoinAppend(mid, [pkg], '/'); }
  }

  lemma LabelledKeyIsValid(repo: string, path: string, pkg: string, ws: string)
    requires IsLabel(repo) && IsLabel(pkg) && IsLabel(ws) && LabelledPath(path)
    requires |repo| + 1 + (if path == "" then 0 else |path| + 1) + |pkg| + 1 + |ws| <= 253
    ensures ValidPkgRevObjName(PkgRevKey(PkgKey(repo, path, pkg), ws))
  {
    PathSegmentsMean(path);
    hide ValidPkgRevObjName, LabelShape, LabelledPath, PathSegments, DottedPath, Join, Without;
    PrintedShape(path, pkg);
    KeyOfLabelsIsValid(repo, PathSegments(path), pkg, ws);
  }

  lemma ValidKeyIsLabelled(repo: string, path: string, pkg: string, ws: string)
    requires NoOuterSlash(path) && ValidPkgRevObjName(PkgRevKey(PkgKey(repo, path, pkg), ws))
    ensures IsLabel(repo) && IsLabel(pkg) && IsLabel(ws) && LabelledPath(path)
    ensures |repo| + 1 + (if path == "" then 0 else |path| + 1) + |pkg| + 1 + |ws| <= 253
  {
    hide *;
    var h, mid := repo + "." + DottedPath(path, pkg), PathSegments(path);
    ValidKeyParts(repo, path, pkg, ws);
    LabelNonEmpty(pkg);
    LabelNonEmpty(ws);
    PrintedSegments(PkgKey(repo, path, pkg));
    ShortPath(path);
    PathSegmentsMean(path);
    NameSegments(h, ws);
    AllLabelsOf([repo] + mid + [pkg] + [ws], mid, 1);
    PrintedShape(path, pkg);
  }

  lemma ValidKeyParts(repo: string, path: string, pkg: string, ws: string)
    requires ValidPkgRevObjName(PkgRevKey(PkgKey(repo, path, pkg), ws))
    ensures IsLabel(repo) && IsLabel(pkg) && IsLabel(ws)
    ensures ValidDirectory(path, false) && ValidParts(PkgKey(repo, path, pkg))
    ensures var name := repo + "." + DottedPath(path, pkg) + "." + ws; |name| <= 253 && AllLabelShaped(Split(name, '.'))
  {
    LabelNonEmpty(repo);
    LabelNonEmpty(pkg);
    LabelNonEmpty(ws);
    hide IsLabel, ValidDirectory, DottedPath, Split, AllLabelShaped;
  }

  lemma NameSegments(h: string, ws: string)
    requires '.' !in ws
    ensures Split(h + "." + ws, '.') == Split(h, '.') + [ws]
  {
    SplitOfPlain(ws, '.');
    SplitAppend(h, ws, '.');
    assert h + ['.'] + ws == h + "." + ws;
  }

  /* ---------- keys that do not come back ---------- */

  lemma VersionWithDigits(p: string, ws: string)
    requires VersionHead(p) && AllDigits(ws) && ws != ""
    ensures IsVersion(p + "." + ws)
  {
    var v := p + "." + ws;
    assert v[1..] == p[1..] + "." + ws;
  }

  lemma DashedVersionIsLabel(p: string, ws: string)
    requires VersionHead(p) && AllDigits(ws) && ws != "" && |p| + |ws| <= 62
    ensures IsLabel(Replace(p + "." + ws, '.', '-'))
  {
    var r := Replace(p + "." + ws, '.', '-');
    assert r[0] == 'v' && r[|r| - 1] == ws[|ws| - 1];
    forall i | 0 <= i < |r| ensures Alnum(r[i]) || r[i] == '-' {
      if 1 <= i < |p| { assert p[i] == p[1..][i - 1]; }
    }
  }

  /** Names collide: a package under q named "v" and digits, with an all-digits workspace, prints as the
      package q with the dotted version for its workspace.  Both keys are accepted. */
  lemma DigitsAfterVersionCollide(repo: string, q: string, p: string, ws: string)
    requires IsLabel(repo) && IsLabel(q) && VersionHead(p) && AllDigits(ws) && ws != "" && |p| + |ws| <= 62
    ensures var a, b := PkgRevKey(PkgKey(repo, q, p), ws), PkgRevKey(PkgKey(repo, "", q), p + "." + ws);
            && ValidPkgRevObjName(a) && ValidPkgRevObjName(PkgRevKey(b.pkgKey, Replace(b.workspace, '.', '-')))
            && ComposePkgRevObjName(a) == ComposePkgRevObjName(b) && a != b
            && PkgRevK8sName2Key(ComposePkgRevObjName(a)) == Some(b)
  {
    hide *;
    var b := PkgRevKey(PkgKey(repo, "", q), p + "." + ws);
    VersionPartsAreLabels(p, ws);
    DashedVersionIsLabel(p, ws);
    LabelNonEmpty(repo);
    LabelNonEmpty(q);
    LabelNonEmpty(p);
    NestedKeyIsValid(repo, q, p, ws);
    PlainKeyIsValid(repo, q, Replace(p + "." + ws, '.', '-'));
    VersionComesBack(b, p, ws);
    PrintedByParts(PkgRevKey(PkgKey(repo, q, p), ws), q + "." + p);
    PrintedByParts(b, q);
    assert repo + "." + (q + "." + p) + "." + ws == repo + "." + q + "." + (p + "." + ws);
  }

  lemma VersionPartsAreLabels(p: string, ws: string)
    requires VersionHead(p) && AllDigits(ws) && ws != "" && |p| + |ws| <= 62
    ensures IsLabel(p) && IsLabel(ws) && ws != "" && |p| + |ws| <= 62
  {
    assert forall i :: 1 <= i < |p| ==> p[i] == p[1..][i - 1];
  }

  lemma VersionComesBack(b: PkgRevKey, p: string, ws: string)
    requires VersionHead(p) && AllDigits(ws) && ws != "" && b.workspace == p + "." + ws && b.pkgKey.path == ""
    requires ValidPkgRevObjName(PkgRevKey(b.pkgKey, Replace(b.workspace, '.', '-')))
    ensures PkgRevK8sName2Key(ComposePkgRevObjName(b)) == Some(b)
  {
    hide ValidPkgRevObjName, PkgRevK8sName2Key, ComposePkgRevObjName, IsVersion, VersionHead, AllDigits;
    VersionWithDigits(p, ws);
    RevNameRoundTrip(b);
  }

  lemma PrintedByParts(k: PkgRevKey, d: string)
    requires k.pkgKey.repo != "" && k.pkgKey.pkg != "" && k.workspace != "" && DottedPath(k.pkgKey.path, k.pkgKey.pkg) == d
    ensures ComposePkgRevObjName(k) == k.pkgKey.repo + "." + d + "." + k.workspace
  {
  }

  lemma LabelNonEmpty(s: string)
    requires IsLabel(s)
    ensures s != "" && |s| <= 63 && LabelShape(s) && '.' !in s && Replace(s, '.', '-') == s
  {
  }

  lemma OuterSlashDotted(q: string, p: string)
    requires LabelShape(q) && LabelShape(p)
    ensures DottedPath("/" + q, p) == q + "." + p
  {
    LabelIsNormal(q);
    LabelIsNormal(p);
    hide LabelShape, Clean, Trim;
    RootedIsClean(q, p);
    DottedTrim(q, p);
  }

  lemma RootedIsClean(q: string, p: string)
    requires Normal(q) && Normal(p) && '/' !in q && '/' !in p
    ensures Clean("/" + q + "/" + p) == "/" + q + "/" + p
  {
    var path := "/" + q + "/" + p;
    RootedSegments(q, p);
    hide Split;
    CleanKeepsNormal(true, [q, p], []);
    assert ["", q, p][1..] == [q, p] && [] + [q, p] == [q, p];
    assert Join([q, p], '/') == q + ['/'] + p;
    assert path == "/" + (q + ['/'] + p);
  }

  lemma RootedSegments(q: string, p: string)
    requires '/' !in q && '/' !in p
    ensures Split("/" + q + "/" + p, '/') == ["", q, p]
  {
    SplitOfPlain(q, '/');
    SplitOfPlain(p, '/');
    SplitAppend(q, p, '/');
    SplitAppend("", q + ['/'] + p, '/');
    assert Split("", '/') == [""];
    hide Split;
    assert "/" + q + "/" + p == "" + ['/'] + (q + ['/'] + p);
    assert [""] + ([q] + [p]) == ["", q, p];
  }

  lemma DottedTrim(q: string, p: string)
    requires q != "" && p != "" && '.' !in q && '.' !in p && '/' !in q && '/' !in p
    ensures Trim(Replace("/" + q + "/" + p, '/', '.'), '.') == q + "." + p
  {
    var r := Replace("/" + q + "/" + p, '/', '.');
    var d := q + "." + p;
    assert r == "." + d;
    assert r[1..] == d && d[0] == q[0] && d[|d| - 1] == p[|p| - 1];
    assert q[0] in q && p[|p| - 1] in p;
    assert TrimLeft(r, '.') == TrimLeft(d, '.') == d;
  }

  /** A leading slash in the path is accepted and lost. */
  lemma OuterSlashIsLost(repo: string, q: string, p: string, ws: string)
    requires IsLabel(repo) && IsLabel(q) && IsLabel(p) && IsLabel(ws)
    requires |repo| + |q| + |p| + |ws| + 3 <= 253
    ensures var k := PkgRevKey(PkgKey(repo, "/" + q, p), ws);
            && ValidPkgRevObjName(k)
            && ComposePkgRevObjName(k) == ComposePkgRevObjName(PkgRevKey(PkgKey(repo, q, p), ws))
            && PkgRevK8sName2Key(ComposePkgRevObjName(k)) != Some(k)
  {
    hide *;
    var k := PkgRevKey(PkgKey(repo, "/" + q, p), ws);
    NestedKeyIsValid(repo, q, p, ws);
    LabelNonEmpty(repo);
    LabelNonEmpty(q);
    LabelNonEmpty(p);
    LabelNonEmpty(ws);
    OuterSlashDotted(q, p);
    PrintedByParts(k, q + "." + p);
    PrintedByParts(PkgRevKey(PkgKey(repo, q, p), ws), q + "." + p);
    SlashedDirectory(q);
    SameNameIsValid(k, PkgRevKey(PkgKey(repo, q, p), ws));
    RevNameRoundTrip(k);
  }

  lemma SlashedDirectory(q: string)
    requires IsLabel(q)
    ensures ValidDirectory("/" + q, false) && !NoOuterSlash("/" + q)
  {
    LabelIsNormal(q);
    WithoutPlain(q, '/');
    assert ("/" + q)[1..] == q;
    AtTwo("/" + q, '/', '/');
    hide IsLabel;
  }

  /** With the same name, a valid directory is all another path needs. */
  lemma SameNameIsValid(k: PkgRevKey, other: PkgRevKey)
    requires ValidPkgRevObjName(other) && ComposePkgRevObjName(k) == ComposePkgRevObjName(other)
    requires k == other.(pkgKey := other.pkgKey.(path := k.pkgKey.path)) && ValidDirectory(k.pkgKey.path, false)
    ensures ValidPkgRevObjName(k)
  {
    hide ComposePkgRevObjName, IsSubdomain, ValidDirectory, IsLabel;
  }

  /* ---------- names that do not print back ---------- */

  /** A name with a slash inside a segment is accepted and prints with a dot there. */
  lemma SlashInNameIsLost(repo: string, a: string, b: string, p: string, ws: string)
    requires IsLabel(repo) && IsLabel(a) && IsLabel(b) && IsLabel(p) && IsLabel(ws) && !AllDigits(ws)
    requires |a| + |b| <= 63 && |repo| + |a| + |b| + |p| + |ws| + 4 <= 253
    ensures var name := repo + "." + (a + "/" + b) + "." + p + "." + ws;
            && PkgRevK8sName2Key(name) == Some(PkgRevKey(PkgKey(repo, a + "/" + b, p), ws))
            && ComposePkgRevObjName(PkgRevKey(PkgKey(repo, a + "/" + b, p), ws)) != name
  {
    hide *;
    var path := a + "/" + b;
    SlashPathIsValid(repo, a, b, p, ws);
    LabelNonEmpty(repo);
    LabelNonEmpty(p);
    LabelNonEmpty(ws);
    ThreePartNameParses(repo, path, p, ws);
    PrintedByParts(PkgRevKey(PkgKey(repo, path, p), ws), a + "." + b + "." + p);
    var name, printed := repo + "." + (a + "/" + b) + "." + p + "." + ws, repo + "." + (a + "." + b + "." + p) + "." + ws;
    assert printed[|repo| + 1 + |a|] == '.' && name[|repo| + 1 + |a|] == '/';
  }

  /** A name of four dot-separated parts whose key is valid parses to that key. */
  lemma ThreePartNameParses(repo: string, path: string, p: string, ws: string)
    requires IsLabel(repo) && IsLabel(p) && IsLabel(ws) && !AllDigits(ws) && '.' !in path
    requires ValidPkgRevObjName(PkgRevKey(PkgKey(repo, path, p), ws))
    ensures PkgRevK8sName2Key(repo + "." + path + "." + p + "." + ws) == Some(PkgRevKey(PkgKey(repo, path, p), ws))
  {
    hide *;
    var h := repo + "." + path + "." + p;
    LabelNonEmpty(repo);
    LabelNonEmpty(p);
    LabelNonEmpty(ws);
    HeadOfThree(repo, path, p);
    ReadableByLetters([path, p], ws);
    WorkspaceReadableIff(h, ws);
    assert [repo, path, p][1..] == [path, p];
    RevParserSplitsName(h, ws);
    KeyOfThree(repo, path, p);
  }

  lemma ReadableByLetters(segs: seq<string>, ws: string)
    requires '.' !in ws && !AllDigits(ws)
    ensures WorkspaceReadable(segs, ws)
  {
  }

  lemma KeyOfThree(repo: string, path: string, p: string)
    ensures KeyOf([repo, path, p]) == PkgKey(repo, path, p)
  {
    assert [repo, path, p][1..2] == [path];
  }

  lemma SlashPathIsValid(repo: string, a: string, b: string, p: string, ws: string)
    requires IsLabel(repo) && IsLabel(a) && IsLabel(b) && IsLabel(p) && IsLabel(ws)
    requires |a| + |b| <= 63 && |repo| + |a| + |b| + |p| + |ws| + 4 <= 253
    ensures ValidPkgRevObjName(PkgRevKey(PkgKey(repo, a + "/" + b, p), ws))
    ensures DottedPath(a + "/" + b, p) == a + "." + b + "." + p
    ensures '.' !in a + "/" + b
  {
    LabelIsNormal(a);
    LabelIsNormal(b);
    WithoutPlain(a, '/');
    WithoutPlain(b, '/');
    WithoutAppend(a + "/", b, '/');
    WithoutAppend(a, "/", '/');
    assert Without("/", '/') == "";
    hide ValidPkgRevObjName, LabelShape, DottedPath, Without;
    JoinAppend([a], [b], '/');
    JoinAppend([a], [b], '.');
    JoinAppend([a, b], [p], '.');
    assert [a] + [b] == [a, b];
    KeyOfLabelsIsValid(repo, [a, b], p, ws);
    DottedLabels([a, b], p);
  }

  lemma HeadOfThree(x: string, y: string, z: string)
    requires '.' !in y && LabelShape(x) && LabelShape(z)
    ensures Split(x + "." + y + "." + z, '.') == [x, y, z]
  {
    LabelIsNormal(x);
    LabelIsNormal(z);
    assert AllWithout([x, y, z], '.');
    SplitOfJoin([x, y, z], '.');
    JoinAppend([x], [y], '.');
    JoinAppend([x, y], [z], '.');
    assert [x] + [y] == [x, y] && [x, y] + [z] == [x, y, z];
    assert x + ['.'] + y + ['.'] + z == x + "." + y + "." + z;
  }

  /** A name with an empty segment is accepted and prints without it. */
  lemma EmptySegmentIsLost(repo: string, p: string, ws: string)
    requires IsLabel(repo) && IsLabel(p) && IsLabel(ws) && !AllDigits(ws)
    ensures var name := repo + "." + "" + "." + p + "." + ws;
            && PkgRevK8sName2Key(name) == Some(PkgRevKey(PkgKey(repo, "", p), ws))
            && ComposePkgRevObjName(PkgRevKey(PkgKey(repo, "", p), ws)) != name
  {
    hide *;
    PlainKeyIsValid(repo, p, ws);
    LabelNonEmpty(repo);
    LabelNonEmpty(p);
    LabelNonEmpty(ws);
    ThreePartNameParses(repo, "", p, ws);
    PrintedByParts(PkgRevKey(PkgKey(repo, "", p), ws), p);
    assert |repo + "." + p + "." + ws| < |repo + "." + "" + "." + p + "." + ws|;
  }
}
