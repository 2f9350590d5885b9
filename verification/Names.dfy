/** Object names: the printer and the parser between repo/path/package/workspace and one dotted
    Kubernetes name (api/util/util.go, api/porch/key/types.go).

    Both directions are settled exactly: `RevNameRoundTrip` says for which keys parsing the printed
    name gives the key back, `RevNamePrintsBack` for which names printing the parsed key gives the
    name back.
 */
module Names {
  import opened Text
  import opened Paths

  datatype PkgKey = PkgKey(repo: string, path: string, pkg: string)

  datatype PkgRevKey = PkgRevKey(pkgKey: PkgKey, workspace: string)

  /* ---------- RFC 1123 names ---------- */

  predicate Digit(c: char) { '0' <= c <= '9' }

  predicate Alnum(c: char) { 'a' <= c <= 'z' || Digit(c) }

  /** One label of section 2.1 of RFC 1123, lower case, of any length. */
  predicate LabelShape(s: string) {
    && s != "" && Alnum(s[0]) && Alnum(s[|s| - 1])
    && forall i :: 0 <= i < |s| ==> Alnum(s[i]) || s[i] == '-'
  }

  predicate IsLabel(s: string) { |s| <= 63 && LabelShape(s) }

  predicate AllLabelShaped(segs: seq<string>) {
    forall i :: 0 <= i < |segs| ==> LabelShape(segs[i])
  }

  predicate IsSubdomain(s: string) { |s| <= 253 && AllLabelShaped(Split(s, '.')) }

  /** ValidateDirectoryName */
  predicate ValidDirectory(dir: string, mandatory: bool) {
    var bare := Without(dir, '/');
    if mandatory || bare != "" then !Contains(dir, "//") && IsLabel(bare) else true
  }

  /* ---------- printing ---------- */

  function DottedPath(path: string, pkg: string): string {
    Trim(Replace(JoinPath(path, pkg), '/', '.'), '.')
  }

  function ComposePkgObjName(k: PkgKey): string {
    if k.repo == "" || k.pkg == "" then "" else k.repo + "." + DottedPath(k.path, k.pkg)
  }

  function ComposePkgRevObjName(k: PkgRevKey): string {
    if k.pkgKey.repo == "" || k.pkgKey.pkg == "" || k.workspace == "" then ""
    else k.pkgKey.repo + "." + DottedPath(k.pkgKey.path, k.pkgKey.pkg) + "." + k.workspace
  }

  predicate ValidParts(k: PkgKey) {
    IsLabel(k.repo) && ValidDirectory(k.path, false) && IsLabel(k.pkg)
  }

  predicate ValidPkgObjName(k: PkgKey) {
    ValidParts(k) && IsSubdomain(ComposePkgObjName(k))
  }

  predicate ValidPkgRevObjName(k: PkgRevKey) {
    ValidParts(k.pkgKey) && IsLabel(k.workspace) && IsSubdomain(ComposePkgRevObjName(k))
  }

  /* ---------- parsing ---------- */

  predicate DigitsDots(t: string) {
    forall i :: 0 <= i < |t| ==> Digit(t[i]) || t[i] == '.'
  }

  /** The tail that `\.v[0-9\.]*[0-9]$` accepts after ".v". */
  predicate VersionChars(t: string) {
    t != "" && Digit(t[|t| - 1]) && DigitsDots(t)
  }

  predicate VersionAt(name: string, i: int) {
    0 <= i && i + 2 <= |name| && name[i] == '.' && name[i + 1] == 'v' && VersionChars(name[i + 2..])
  }

  predicate EndsInVersion(name: string) {
    exists i :: 0 <= i < |name| && VersionAt(name, i)
  }

  function GetPRWorkspaceName(name: string): (w: string)
    ensures |w| <= |name| && name[|name| - |w|..] == w
  {
    if '.' !in name then ""
    else if EndsInVersion(name) then name[LastIndex(name, ".v") + 1..]
    else name[LastIndex(name, ".") + 1..]
  }

  /** What SplitIn3OnDelimiter returns: the first segment, the last, and the rest rejoined. */
  function SplitIn3(s: string, c: char): (string, string, string) {
    var segs := Split(s, c);
    if |segs| == 1 then (segs[0], "", "")
    else (segs[0], Join(segs[1..|segs| - 1], c), segs[|segs| - 1])
  }

  /** SplitIn3OnDelimiter, with its loop over the middle segments. */
  method SplitIn3OnDelimiter(s: string, c: char) returns (r: (string, string, string))
    ensures r == SplitIn3(s, c)
    ensures Split(s, c) != [s] ==>
              s == r.0 + [c] + (if |Split(s, c)| == 2 then "" else r.1 + [c]) + r.2
  {
    var segs := Split(s, c);
    JoinOfSplit(s, c);
    if |segs| == 1 { return (segs[0], "", ""); }
    if |segs| == 2 { return (segs[0], "", segs[1]); }
    var middle := segs[1];
    var i := 2;
    while i < |segs| - 1
      invariant 2 <= i <= |segs| - 1
      invariant middle == Join(segs[1..i], c)
    {
      JoinAppend(segs[1..i], [segs[i]], c);
      assert segs[1..i] + [segs[i]] == segs[1..i + 1];
      middle := middle + [c] + segs[i];
      i := i + 1;
    }
    JoinAppend(segs[1..|segs| - 1], [segs[|segs| - 1]], c);
    assert segs[1..|segs| - 1] + [segs[|segs| - 1]] == segs[1..];
    return (segs[0], middle, segs[|segs| - 1]);
  }

  function PkgK8sName2Key(name: string): Option<PkgKey> {
    var (repo, middle, pkg) := SplitIn3(name, '.');
    var k := PkgKey(repo, Replace(middle, '.', '/'), pkg);
    if ValidPkgObjName(k) then Some(k) else None
  }

  /** The second half of the revision parser, on the name with the workspace's dots dashed. */
  function ReadRevKey(conditioned: string, workspace: string): Option<PkgRevKey> {
    var (repo, rest, last) := SplitIn3(conditioned, '.');
    var (_, middle, pkg) := SplitIn3(repo + "." + rest, '.');
    var k := PkgKey(repo, Replace(middle, '.', '/'), pkg);
    if ValidPkgRevObjName(PkgRevKey(k, last)) then Some(PkgRevKey(k, workspace)) else None
  }

  /** The name with the dots of its workspace suffix replaced by dashes. */
  function DashWorkspace(name: string, workspace: string): string
    requires |workspace| <= |name|
  {
    if '.' in workspace then name[..|name| - |workspace|] + Replace(workspace, '.', '-') else name
  }

  function PkgRevK8sName2Key(name: string): Option<PkgRevKey> {
    var workspace := GetPRWorkspaceName(name);
    ReadRevKey(DashWorkspace(name, workspace), workspace)
  }

  /* ---------- the conditions of the two theorems ---------- */

  predicate NoOuterSlash(path: string) {
    path == "" || (path[0] != '/' && path[|path| - 1] != '/')
  }

  /** A dotted version: "v", then digits and dots, ending in a digit. */
  predicate IsVersion(ws: string) {
    |ws| >= 2 && ws[0] == 'v' && VersionChars(ws[1..])
  }

  predicate AllDigits(s: string) { forall i :: 0 <= i < |s| ==> Digit(s[i]) }

  predicate VersionHead(s: string) { s != "" && s[0] == 'v' && AllDigits(s[1..]) }

  /** The workspace is all digits, and so is everything back to a segment "v" plus digits:
      the parser then takes the version from that segment on as the workspace. */
  predicate VersionTail(segs: seq<string>, ws: string) {
    AllDigits(ws) &&
    exists i :: 0 <= i < |segs| && VersionHead(segs[i]) && forall j :: i < j < |segs| ==> AllDigits(segs[j])
  }

  function PathSegments(path: string): seq<string> {
    if path == "" then [] else Split(path, '/')
  }

  predicate WorkspaceReadable(segs: seq<string>, ws: string) {
    IsVersion(ws) || ('.' !in ws && !VersionTail(segs, ws))
  }

  /* ---------- the workspace suffix ---------- */

  lemma WorkspaceOfVersion(h: string, t: string)
    requires VersionChars(t)
    ensures GetPRWorkspaceName(h + ".v" + t) == "v" + t
  {
    var name := h + ".v" + t;
    assert name[|h|] == '.' && name[|h| + 1] == 'v' && name[|h| + 2..] == t;
    assert VersionAt(name, |h|);
    AtTwo(name, '.', 'v');
    assert forall i :: |h| + 1 < i < |name| ==> name[i] == t[i - |h| - 2];
    assert LastIndex(name, ".v") == |h|;
    assert name[|h| + 1..] == "v" + t;
  }

  lemma WorkspaceWithoutVersion(h: string, ws: string)
    requires '.' !in ws && !EndsInVersion(h + "." + ws)
    ensures GetPRWorkspaceName(h + "." + ws) == ws
  {
    var name := h + "." + ws;
    assert name[|h|] == '.';
    AtOne(name, '.');
    assert forall i :: |h| < i < |name| ==> name[i] == ws[i - |h| - 1];
    assert LastIndex(name, ".") == |h|;
  }

  lemma VersionText(name: string) returns (a: string, t: string)
    requires EndsInVersion(name)
    ensures name == a + ".v" + t && VersionChars(t)
  {
    var i :| 0 <= i < |name| && VersionAt(name, i);
    a, t := name[..i], name[i + 2..];
  }

  lemma VersionWorkspace(t: string)
    requires VersionChars(t)
    ensures IsVersion("v" + t)
  {
  }

  lemma PlainWorkspace(name: string)
    requires '.' in name && !EndsInVersion(name)
    ensures '.' !in GetPRWorkspaceName(name)
  {
    AtOne(name, '.');
  }

  /** The workspace found is a version or has no dot. */
  lemma WorkspaceShape(name: string)
    requires '.' in name
    ensures IsVersion(GetPRWorkspaceName(name)) || '.' !in GetPRWorkspaceName(name)
  {
    if EndsInVersion(name) {
      var a, t := VersionText(name);
      WorkspaceOfVersion(a, t);
      VersionWorkspace(t);
    } else {
      PlainWorkspace(name);
    }
  }

  lemma {:induction false} DigitSegments(b: string)
    requires DigitsDots(b)
    ensures forall j :: 0 <= j < |Split(b, '.')| ==> AllDigits(Split(b, '.')[j])
  {
    if b != "" { DigitSegments(b[1..]); }
  }

  lemma {:induction false} DigitSegmentsJoin(segs: seq<string>)
    requires forall j :: 0 <= j < |segs| ==> AllDigits(segs[j])
    ensures DigitsDots(Join(segs, '.'))
  {
    if |segs| > 1 { DigitSegmentsJoin(segs[1..]); }
  }

  /** A version that starts inside the package part makes a version tail. */
  lemma VersionInsideHead(a: string, b: string, ws: string)
    requires DigitsDots(b) && AllDigits(ws)
    ensures VersionTail(Split(a + ".v" + b, '.')[1..], ws)
  {
    DigitSegments(b);
    SplitAppend(a, "v" + b, '.');
    assert a + ".v" + b == a + ['.'] + ("v" + b);
    assert ("v" + b)[1..] == b;
    TailAfter(Split(a, '.'), Split(b, '.'), ws);
  }

  lemma TailAfter(front: seq<string>, back: seq<string>, ws: string)
    requires front != [] && back != [] && AllDigits(ws) && forall j :: 0 <= j < |back| ==> AllDigits(back[j])
    ensures VersionTail((front + ([['v'] + back[0]] + back[1..]))[1..], ws)
  {
    var segs, n := (front + ([['v'] + back[0]] + back[1..]))[1..], |front|;
    assert segs[n - 1] == ['v'] + back[0] && segs[n - 1][1..] == back[0];
    assert forall j :: n - 1 < j < |segs| ==> segs[j] == back[j - n + 1];
  }

  lemma DigitsAround(b: string, ws: string)
    requires DigitsDots(b + "." + ws) && '.' !in ws
    ensures DigitsDots(b) && AllDigits(ws)
  {
    var t := b + "." + ws;
    assert forall j :: 0 <= j < |b| ==> b[j] == t[j];
    assert forall j :: 0 <= j < |ws| ==> ws[j] == t[|b| + 1 + j];
  }

  /** Where a version can start in a name: at the workspace or inside the head. */
  lemma Align(h: string, ws: string, a: string, t: string)
    requires h + "." + ws == a + ".v" + t && '.' !in ws
    ensures |a| <= |h|
    ensures |a| == |h| ==> ws == "v" + t
    ensures |a| < |h| ==> |a| + 2 <= |h| && h == a + ".v" + h[|a| + 2..] && t == h[|a| + 2..] + "." + ws
  {
    var name := h + "." + ws;
    assert name[|a|] == '.' && name[|a| + 1] == 'v' && name[|h|] == '.';
    assert forall j :: |h| < j < |name| ==> name[j] == ws[j - |h| - 1];
    assert h == name[..|h|] && ws == name[|h| + 1..] && a == name[..|a|] && t == name[|a| + 2..];
  }

  /** The text of a version tail: ".v" and then only digits and dots. */
  lemma VersionTailText(h: string, ws: string) returns (a: string, b: string)
    requires VersionTail(Split(h, '.')[1..], ws)
    ensures h == a + ".v" + b && DigitsDots(b) && AllDigits(ws)
  {
    hide Split, Join, DigitsDots, VersionHead, AllDigits;
    var hs := Split(h, '.');
    var segs := hs[1..];
    var i :| 0 <= i < |segs| && VersionHead(segs[i]) && forall j :: i < j < |segs| ==> AllDigits(segs[j]);
    var back := segs[i..];
    assert forall j :: 0 < j < |back| ==> back[j] == segs[i + j];
    JoinOfSplit(h, '.');
    a, b := TailText(hs[..i + 1], back);
    assert hs == hs[..i + 1] + back;
  }

  lemma TailText(front: seq<string>, back: seq<string>) returns (a: string, b: string)
    requires front != [] && back != [] && VersionHead(back[0]) && forall j :: 0 < j < |back| ==> AllDigits(back[j])
    ensures Join(front + back, '.') == a + ".v" + b && DigitsDots(b)
  {
    JoinAppend(front, back, '.');
    HeadOfJoin(back);
    var tail := [back[0][1..]] + back[1..];
    DigitSegmentsJoin(tail);
    a, b := Join(front, '.'), Join(tail, '.');
  }

  lemma HeadOfJoin(segs: seq<string>)
    requires segs != [] && segs[0] != ""
    ensures Join(segs, '.') == [segs[0][0]] + Join([segs[0][1..]] + segs[1..], '.')
  {
  }

  lemma TailHidesWorkspace(h: string, ws: string)
    requires ws != "" && VersionTail(Split(h, '.')[1..], ws)
    ensures GetPRWorkspaceName(h + "." + ws) != ws
  {
    hide VersionTail, Split, GetPRWorkspaceName;
    var a, b := VersionTailText(h, ws);
    var t := b + "." + ws;
    assert t[|t| - 1] == ws[|ws| - 1];
    WorkspaceOfVersion(a, t);
    assert h + "." + ws == a + ".v" + t;
  }

  lemma VersionNeedsTail(h: string, ws: string)
    requires !IsVersion(ws) && '.' !in ws && EndsInVersion(h + "." + ws)
    ensures VersionTail(Split(h, '.')[1..], ws)
  {
    hide VersionTail, Split, EndsInVersion, IsVersion, DigitsDots;
    var a, t := VersionText(h + "." + ws);
    Align(h, ws, a, t);
    VersionWorkspace(t);
    var b := h[|a| + 2..];
    DigitsAround(b, ws);
    VersionInsideHead(a, b, ws);
  }

  /** Exactly when the workspace can be read off the end of a name. */
  lemma WorkspaceReadableIff(h: string, ws: string)
    requires ws != ""
    ensures GetPRWorkspaceName(h + "." + ws) == ws <==> WorkspaceReadable(Split(h, '.')[1..], ws)
  {
    var name := h + "." + ws;
    assert name[|h|] == '.';
    if IsVersion(ws) {
      assert name == h + ".v" + ws[1..] by { assert ws == "v" + ws[1..]; }
      WorkspaceOfVersion(h, ws[1..]);
    } else if '.' in ws {
      WorkspaceShape(name);
    } else if VersionTail(Split(h, '.')[1..], ws) {
      TailHidesWorkspace(h, ws);
    } else {
      if EndsInVersion(name) { VersionNeedsTail(h, ws); }
      WorkspaceWithoutVersion(h, ws);
    }
  }

  /* ---------- the package part ---------- */

  lemma LabelIsNormal(s: string)
    requires LabelShape(s)
    ensures Normal(s) && '.' !in s && '/' !in s
  {
  }

  /** With real segments, the dotted path is the segments joined by dots. */
  lemma DottedPathOfSegments(mid: seq<string>, pkg: string)
    requires AllNormal(mid + [pkg]) && AllWithout(mid + [pkg], '/') && AllWithout(mid + [pkg], '.')
    ensures DottedPath(Join(mid, '/'), pkg) == Join(mid + [pkg], '.')
  {
    var segs := mid + [pkg];
    NormalJoinIsClean(segs);
    if mid != [] {
      JoinAppend(mid, [pkg], '/');
      assert AllNormal(mid) by { forall i | 0 <= i < |mid| ensures Normal(mid[i]) { assert mid[i] == segs[i]; } }
      assert AllWithout(mid, '/') by { forall i | 0 <= i < |mid| ensures '/' !in mid[i] { assert mid[i] == segs[i]; } }
      NormalJoinIsClean(mid);
      assert JoinPath(Join(mid, '/'), pkg) == Join(segs, '/');
    } else {
      assert segs == [pkg];
    }
    ReplaceInJoin(segs, '/', '.');
    JoinEnds(segs, '.');
    TrimNothing(Join(segs, '.'), '.');
  }

  lemma SplitIn3OfHead(h: string)
    requires |Split(h, '.')| >= 2
    ensures var hs := Split(h, '.');
            var (repo, middle, pkg) := SplitIn3(h, '.');
            repo == hs[0] && pkg == hs[|hs| - 1] && Replace(middle, '.', '/') == Join(hs[1..|hs| - 1], '/')
  {
    var hs := Split(h, '.');
    SplitHasNoSeparator(h, '.');
    assert AllWithout(hs[1..|hs| - 1], '.');
    ReplaceInJoin(hs[1..|hs| - 1], '.', '/');
  }

  /** The key whose segments are hs. */
  function KeyOf(hs: seq<string>): PkgKey
    requires |hs| >= 2
  {
    PkgKey(hs[0], Join(hs[1..|hs| - 1], '/'), hs[|hs| - 1])
  }

  lemma SplitIn3OfName(h: string, last: string)
    requires '.' !in last
    ensures var hs := Split(h, '.');
            var r := SplitIn3(h + "." + last, '.');
            r.0 == hs[0] && r.2 == last && r.0 + "." + r.1 == if |hs| == 1 then h + "." else h
  {
    var hs := Split(h, '.');
    SplitAppend(h, last, '.');
    SplitOfPlain(last, '.');
    assert h + ['.'] + last == h + "." + last;
    assert (hs + [last])[1..|hs|] == hs[1..];
    JoinOfSplit(h, '.');
  }

  lemma SplitIn3OfBareRepo(h: string)
    requires |Split(h, '.')| == 1
    ensures SplitIn3(h + ".", '.').2 == ""
  {
    SplitAppend(h, "", '.');
    assert h + ['.'] + "" == h + ".";
  }

  lemma ReadRevKeyOfParts(h: string, last: string, w: string)
    requires '.' !in last
    ensures var hs := Split(h, '.');
            ReadRevKey(h + "." + last, w) ==
              if |hs| >= 2 && ValidPkgRevObjName(PkgRevKey(KeyOf(hs), last))
              then Some(PkgRevKey(KeyOf(hs), w)) else None
  {
    hide IsSubdomain, ComposePkgRevObjName, SplitIn3, Split;
    SplitIn3OfName(h, last);
    if |Split(h, '.')| == 1 { SplitIn3OfBareRepo(h); } else { SplitIn3OfHead(h); }
  }

  /** The revision parser reads the workspace off the end and the package key off the rest. */
  lemma RevParserSplitsName(h: string, w: string)
    requires GetPRWorkspaceName(h + "." + w) == w
    ensures var hs := Split(h, '.');
            PkgRevK8sName2Key(h + "." + w) ==
              if |hs| >= 2 && ValidPkgRevObjName(PkgRevKey(KeyOf(hs), Replace(w, '.', '-')))
              then Some(PkgRevKey(KeyOf(hs), w)) else None
  {
    DashWorkspaceOf(h, w);
    ReadRevKeyOfParts(h, Replace(w, '.', '-'), w);
  }

  lemma DashWorkspaceOf(h: string, w: string)
    ensures DashWorkspace(h + "." + w, w) == h + "." + Replace(w, '.', '-')
  {
  }

  /* ---------- printing a parsed name ---------- */

  /** Two adjacent separators are an empty segment. */
  lemma DoubledSeparatorIsEmptySegment(x: string, c: char, i: int)
    requires At(x, [c, c], i)
    ensures !AllNonEmpty(Split(x, c))
  {
    var a, b := x[..i], x[i + 2..];
    assert x == a + [c] + ("" + [c] + b) by { assert x == a + x[i..i + 2] + b; }
    SplitAppend(a, "" + [c] + b, c);
    SplitAppend("", b, c);
    assert Split(x, c)[|Split(a, c)|] == "";
  }

  lemma NoDoubledSeparator(x: string, c: char)
    requires AllLabelShaped(Split(x, c))
    ensures !Contains(x, [c, c])
  {
    assert AllNonEmpty(Split(x, c));
    forall i | 0 <= i <= |x| ensures !At(x, [c, c], i) {
      if At(x, [c, c], i) { DoubledSeparatorIsEmptySegment(x, c, i); }
    }
  }

  lemma EmptySegmentDoublesSeparator(segs: seq<string>, c: char, i: int)
    requires 0 < i < |segs| - 1 && segs[i] == ""
    ensures Contains(Join(segs, c), [c, c])
  {
    var a, b := segs[..i], segs[i + 1..];
    assert segs == a + ([""] + b);
    JoinAppend(a, [""] + b, c);
    JoinAppend([""], b, c);
    assert Join(segs, c) == Join(a, c) + [c, c] + Join(b, c);
    assert At(Join(segs, c), [c, c], |Join(a, c)|);
  }

  lemma ContainsInPrefix(x: string, y: string, p: string)
    requires Contains(x, p)
    ensures Contains(x + y, p)
  {
    var i :| 0 <= i <= |x| && At(x, p, i);
    assert (x + y)[i..i + |p|] == x[i..i + |p|];
    assert At(x + y, p, i);
  }

  /** A name whose segments make a valid package key prints back exactly when it has neither
      an empty inner segment nor a slash. */
  lemma HeadPrintsBack(h: string)
    requires |Split(h, '.')| >= 2
    requires var k := KeyOf(Split(h, '.')); IsLabel(k.repo) && IsLabel(k.pkg)
    requires '/' !in h && !Contains(h, "..")
    ensures var k := KeyOf(Split(h, '.'));
            k.repo + "." + DottedPath(k.path, k.pkg) == h
  {
    hide DottedPath, Split, Contains;
    var hs := Split(h, '.');
    var n := |hs|;
    forall i | 0 < i < n ensures Normal(hs[i]) && '/' !in hs[i] && '.' !in hs[i] { InnerSegments(h, i); }
    var mid := hs[1..n - 1];
    assert mid + [hs[n - 1]] == hs[1..];
    DottedPathOfSegments(mid, hs[n - 1]);
    JoinAppend([hs[0]], hs[1..], '.');
    assert [hs[0]] + hs[1..] == hs;
    JoinOfSplit(h, '.');
  }

  lemma InnerSegments(h: string, i: int)
    requires '/' !in h && !Contains(h, "..")
    requires var hs := Split(h, '.'); 0 < i < |hs| && hs[|hs| - 1] != ""
    ensures var x := Split(h, '.')[i]; Normal(x) && '/' !in x && '.' !in x
  {
    var hs := Split(h, '.');
    JoinOfSplit(h, '.');
    SplitHasNoSeparator(h, '.');
    assert hs[i] == "" ==> i < |hs| - 1;
    if hs[i] == "" { EmptySegmentDoublesSeparator(hs, '.', i); }
    if '/' in hs[i] { CharsInJoin(hs, '.', i, '/'); }
  }

  lemma DottedPathHasNoSlash(path: string, pkg: string)
    ensures '/' !in DottedPath(path, pkg)
  {
    TrimKeepsOut(Replace(JoinPath(path, pkg), '/', '.'), '.', '/');
  }

  lemma TrimKeepsOut(s: string, c: char, x: char)
    requires x !in s
    ensures x !in Trim(s, c)
  {
    TrimLeftKeepsOut(s, c, x);
    TrimRightKeepsOut(TrimLeft(s, c), c, x);
  }

  lemma {:induction false} TrimLeftKeepsOut(s: string, c: char, x: char)
    requires x !in s
    ensures x !in TrimLeft(s, c)
  {
    if s != "" && s[0] == c { TrimLeftKeepsOut(s[1..], c, x); }
  }

  lemma {:induction false} TrimRightKeepsOut(s: string, c: char, x: char)
    requires x !in s
    ensures x !in TrimRight(s, c)
  {
    if s != "" && s[|s| - 1] == c { TrimRightKeepsOut(s[..|s| - 1], c, x); }
  }

  lemma AcceptedNamesHaveDots(name: string)
    requires PkgRevK8sName2Key(name).Some?
    ensures '.' in name
  {
    if '.' !in name {
      SplitOfPlain(name, '.');
      SplitIn3OfBareRepo(name);
    }
  }

  /** A name with a dot is a head and its workspace. */
  lemma HeadAndWorkspace(name: string) returns (h: string)
    requires '.' in name
    ensures name == h + "." + GetPRWorkspaceName(name)
  {
    hide VersionAt;
    if EndsInVersion(name) {
      var t;
      h, t := VersionText(name);
      WorkspaceOfVersion(h, t);
    } else {
      h := LastDot(name);
    }
  }

  lemma LastDot(name: string) returns (h: string)
    requires '.' in name && !EndsInVersion(name)
    ensures name == h + "." + GetPRWorkspaceName(name)
  {
    hide EndsInVersion, LastIndex;
    CutAtLast(name);
    h := name[..LastIndex(name, ".")];
  }

  lemma CutAtLast(name: string)
    requires '.' in name
    ensures var i := LastIndex(name, ".");
            0 <= i < |name| && name == name[..i] + "." + name[i + 1..]
  {
    AtOne(name, '.');
    var i := LastIndex(name, ".");
    assert i >= 0 by {
      var j :| 0 <= j < |name| && name[j] == '.';
      assert At(name, ".", j);
    }
    assert At(name, ".", i);
  }

  /** What printed the name has neither slash nor empty segment before the workspace. */
  lemma PrintedHead(k: PkgKey, w: string)
    requires ValidPkgRevObjName(PkgRevKey(k, Replace(w, '.', '-')))
    ensures var head := k.repo + "." + DottedPath(k.path, k.pkg) + ".";
            '/' !in head + w && !Contains(head, "..")
  {
    var dashed := Replace(w, '.', '-');
    var head := k.repo + "." + DottedPath(k.path, k.pkg) + ".";
    DottedPathHasNoSlash(k.path, k.pkg);
    assert forall i :: 0 <= i < |w| ==> w[i] == '/' ==> dashed[i] == '/';
    assert ComposePkgRevObjName(PkgRevKey(k, dashed)) == head + dashed;
    NoDoubledSeparator(head + dashed, '.');
    if Contains(head, "..") { ContainsInPrefix(head, dashed, ".."); }
  }

  lemma PrintsBackIff(h: string, w: string)
    requires |Split(h, '.')| >= 2
    requires ValidPkgRevObjName(PkgRevKey(KeyOf(Split(h, '.')), Replace(w, '.', '-')))
    ensures var k := KeyOf(Split(h, '.'));
            k.repo + "." + DottedPath(k.path, k.pkg) + "." + w == h + "." + w <==>
              '/' !in h + "." + w && !Contains(h + ".", "..")
  {
    var k := KeyOf(Split(h, '.'));
    var head := k.repo + "." + DottedPath(k.path, k.pkg) + ".";
    if '/' !in h + "." + w && !Contains(h + ".", "..") {
      if Contains(h, "..") { ContainsInPrefix(h, ".", ".."); }
      assert forall i :: 0 <= i < |h| ==> h[i] == (h + "." + w)[i];
      HeadPrintsBack(h);
    }
    if head + w == h + "." + w {
      PrintedHead(k, w);
      assert head == (head + w)[..|head|] && h + "." == (h + "." + w)[..|h| + 1];
    }
  }

  /** Printing the key parsed from a revision name gives the name back exactly when the name has no
      slash and the part before the workspace has no empty segment. */
  lemma RevNamePrintsBack(name: string)
    requires PkgRevK8sName2Key(name).Some?
    ensures ComposePkgRevObjName(PkgRevK8sName2Key(name).value) == name <==>
              '/' !in name && !Contains(name[..|name| - |GetPRWorkspaceName(name)|], "..")
  {
    AcceptedNamesHaveDots(name);
    var w := GetPRWorkspaceName(name);
    var h := HeadAndWorkspace(name);
    RevParserSplitsName(h, w);
    PrintsBackIff(h, w);
    assert name[..|name| - |w|] == h + ".";
  }

  /** The same for package names. */
  lemma PkgNamePrintsBack(name: string)
    requires PkgK8sName2Key(name).Some?
    ensures ComposePkgObjName(PkgK8sName2Key(name).value) == name <==> '/' !in name && !Contains(name, "..")
  {
    var k := PkgK8sName2Key(name).value;
    SplitIn3OfHead(name);
    if '/' !in name && !Contains(name, "..") {
      HeadPrintsBack(name);
    }
    if ComposePkgObjName(k) == name {
      DottedPathHasNoSlash(k.path, k.pkg);
      NoDoubledSeparator(name, '.');
    }
  }

  lemma SubdomainChars(name: string)
    requires IsSubdomain(name)
    ensures '/' !in name && !Contains(name, "..")
  {
    NoDoubledSeparator(name, '.');
    JoinOfSplit(name, '.');
    JoinChars(Split(name, '.'), '.', '/');
  }

  /** In particular every accepted DNS-1123 subdomain prints back. */
  lemma SubdomainsPrintBack(name: string)
    requires IsSubdomain(name)
    ensures PkgRevK8sName2Key(name).Some? ==> ComposePkgRevObjName(PkgRevK8sName2Key(name).value) == name
    ensures PkgK8sName2Key(name).Some? ==> ComposePkgObjName(PkgK8sName2Key(name).value) == name
  {
    hide PkgRevK8sName2Key, PkgK8sName2Key, ComposePkgRevObjName, ComposePkgObjName, GetPRWorkspaceName;
    SubdomainChars(name);
    if PkgRevK8sName2Key(name).Some? {
      RevNamePrintsBack(name);
      var w := GetPRWorkspaceName(name);
      assert name[..|name| - |w|] + w == name;
      if Contains(name[..|name| - |w|], "..") { ContainsInPrefix(name[..|name| - |w|], w, ".."); }
    }
    if PkgK8sName2Key(name).Some? { PkgNamePrintsBack(name); }
  }

  /* ---------- parsing a printed key ---------- */

  lemma PathChars(path: string)
    requires ValidDirectory(path, false)
    ensures '.' !in path
  {
  }

  lemma ValidPathSegments(path: string)
    requires path != "" && ValidDirectory(path, false) && NoOuterSlash(path)
    ensures var segs := Split(path, '/'); AllNormal(segs) && AllWithout(segs, '.') && AllWithout(segs, '/')
  {
    var segs := Split(path, '/');
    PathChars(path);
    JoinOfSplit(path, '/');
    SplitHasNoSeparator(path, '/');
    forall i | 0 <= i < |segs| ensures Normal(segs[i]) && '.' !in segs[i] {
      if '.' in segs[i] { CharsInJoin(segs, '/', i, '.'); }
      SlashFromEmptySegment(path, i);
    }
  }

  /** The segments of a printed package name, for a path without outer slashes. */
  lemma PrintedSegments(k: PkgKey)
    requires ValidParts(k) && NoOuterSlash(k.path)
    ensures Split(k.repo + "." + DottedPath(k.path, k.pkg), '.') == [k.repo] + PathSegments(k.path) + [k.pkg]
    ensures Join(PathSegments(k.path), '/') == k.path
  {
    hide DottedPath, Split, ValidDirectory;
    var mid := PathSegments(k.path);
    var segs := mid + [k.pkg];
    JoinOfSplit(k.path, '/');
    LabelIsNormal(k.pkg);
    if mid != [] { ValidPathSegments(k.path); }
    DottedPathOfSegments(mid, k.pkg);
    SplitOfJoin(segs, '.');
    SplitOfPlain(k.repo, '.');
    SplitAppend(k.repo, Join(segs, '.'), '.');
    assert k.repo + ['.'] + Join(segs, '.') == k.repo + "." + DottedPath(k.path, k.pkg);
    assert [k.repo] + segs == [k.repo] + mid + [k.pkg];
  }

  /** An empty segment of a valid, non-empty directory is an outer slash. */
  lemma SlashFromEmptySegment(path: string, i: int)
    requires path != "" && ValidDirectory(path, false) && NoOuterSlash(path)
    requires 0 <= i < |Split(path, '/')|
    ensures Split(path, '/')[i] != ""
  {
    assert !Contains(path, "//") by { assert path[0] in Without(path, '/'); }
    JoinOfSplit(path, '/');
    EdgeSegment(path);
    NoEmptySegment(Split(path, '/'), '/', i);
  }

  lemma NoEmptySegment(segs: seq<string>, c: char, i: int)
    requires 0 <= i < |segs| && segs[0] != "" && segs[|segs| - 1] != "" && !Contains(Join(segs, c), [c, c])
    ensures segs[i] != ""
  {
    if segs[i] == "" { EmptySegmentDoublesSeparator(segs, c, i); }
  }

  lemma EdgeSegment(path: string)
    requires path != "" && NoOuterSlash(path)
    ensures Split(path, '/')[0] != "" && Split(path, '/')[|Split(path, '/')| - 1] != ""
  {
    var segs := Split(path, '/');
    JoinOfSplit(path, '/');
    if |segs| > 1 {
      JoinAppend(segs[..|segs| - 1], [segs[|segs| - 1]], '/');
      assert segs[..|segs| - 1] + [segs[|segs| - 1]] == segs;
    }
  }

  lemma ShapedHead(h: string, last: string)
    requires '.' !in last && AllLabelShaped(Split(h + "." + last, '.'))
    ensures AllLabelShaped(Split(h, '.'))
  {
    SplitAppend(h, last, '.');
    assert h + ['.'] + last == h + "." + last;
    forall i | 0 <= i < |Split(h, '.')| ensures LabelShape(Split(h, '.')[i]) {
      assert Split(h, '.')[i] == Split(h + "." + last, '.')[i];
    }
  }

  /** Keys read from label-shaped segments have no outer slash. */
  lemma ReadPathsHaveNoOuterSlash(hs: seq<string>)
    requires |hs| >= 2 && AllLabelShaped(hs)
    ensures NoOuterSlash(KeyOf(hs).path)
  {
    var mid := hs[1..|hs| - 1];
    if mid != [] {
      assert forall i :: 0 <= i < |mid| ==> LabelShape(mid[i]);
      JoinEnds(mid, '/');
    }
  }

  lemma KeyOfPrinted(k: PkgKey)
    requires ValidParts(k) && NoOuterSlash(k.path)
    ensures KeyOf([k.repo] + PathSegments(k.path) + [k.pkg]) == k
  {
    PrintedSegments(k);
    var hs := [k.repo] + PathSegments(k.path) + [k.pkg];
    assert hs[1..|hs| - 1] == PathSegments(k.path);
  }

  lemma RoundTripIff(p: PkgKey, h: string, ws: string)
    requires ValidPkgRevObjName(PkgRevKey(p, Replace(ws, '.', '-')))
    requires h == p.repo + "." + DottedPath(p.path, p.pkg)
    ensures |Split(h, '.')| >= 2 && KeyOf(Split(h, '.')) == p <==> NoOuterSlash(p.path)
    ensures NoOuterSlash(p.path) ==> Split(h, '.')[1..] == PathSegments(p.path) + [p.pkg]
  {
    var dashed := Replace(ws, '.', '-');
    assert h + "." + dashed == ComposePkgRevObjName(PkgRevKey(p, dashed));
    ShapedHead(h, dashed);
    if NoOuterSlash(p.path) {
      PrintedSegments(p);
      KeyOfPrinted(p);
      assert Split(h, '.')[1..] == PathSegments(p.path) + [p.pkg];
    } else if |Split(h, '.')| >= 2 {
      ReadPathsHaveNoOuterSlash(Split(h, '.'));
    }
  }

  /** Parsing the printed name of a key gives the key back exactly when its path has no outer slash
      and its workspace can be read: a dotted version, or a dot-free name that is not an all-digits
      continuation of a version ending the package path.  For a dot-free workspace the
      hypothesis is ValidPkgRevObjName of the key itself. */
  lemma RevNameRoundTrip(k: PkgRevKey)
    requires ValidPkgRevObjName(PkgRevKey(k.pkgKey, Replace(k.workspace, '.', '-')))
    ensures PkgRevK8sName2Key(ComposePkgRevObjName(k)) == Some(k) <==>
              NoOuterSlash(k.pkgKey.path)
              && WorkspaceReadable(PathSegments(k.pkgKey.path) + [k.pkgKey.pkg], k.workspace)
  {
    var p, ws := k.pkgKey, k.workspace;
    var h := p.repo + "." + DottedPath(p.path, p.pkg);
    assert ws != "" && ComposePkgRevObjName(k) == h + "." + ws;
    RoundTripIff(p, h, ws);
    WorkspaceReadableIff(h, ws);
    if GetPRWorkspaceName(h + "." + ws) == ws { RevParserSplitsName(h, ws); }
  }

  lemma PkgNameRoundTrip(k: PkgKey)
    requires ValidPkgObjName(k)
    ensures PkgK8sName2Key(ComposePkgObjName(k)) == Some(k) <==> NoOuterSlash(k.path)
  {
    var h := ComposePkgObjName(k);
    if NoOuterSlash(k.path) {
      PrintedSegments(k);
      KeyOfPrinted(k);
      SplitIn3OfHead(h);
    } else if PkgK8sName2Key(h) == Some(k) {
      var hs := Split(h, '.');
      if |hs| >= 2 {
        SplitIn3OfHead(h);
        ReadPathsHaveNoOuterSlash(hs);
      }
    }
  }

  /** Names are injective on the keys that round-trip. */
  lemma RevNamesInjective(a: PkgRevKey, b: PkgRevKey)
    requires ValidPkgRevObjName(PkgRevKey(a.pkgKey, Replace(a.workspace, '.', '-')))
    requires ValidPkgRevObjName(PkgRevKey(b.pkgKey, Replace(b.workspace, '.', '-')))
    requires NoOuterSlash(a.pkgKey.path) && NoOuterSlash(b.pkgKey.path)
    requires WorkspaceReadable(PathSegments(a.pkgKey.path) + [a.pkgKey.pkg], a.workspace)
    requires WorkspaceReadable(PathSegments(b.pkgKey.path) + [b.pkgKey.pkg], b.workspace)
    requires ComposePkgRevObjName(a) == ComposePkgRevObjName(b)
    ensures a == b
  {
    RevNameRoundTrip(a);
    RevNameRoundTrip(b);
  }
}
