/** Slash-separated paths: Go's `path.Clean`, `Join`, `Dir` and `Base`, and the resource-key check
    of pkg/util/safejoin.go.  `Clean` is the library function by its documented rules, applied
    segment by segment.
 */
module Paths {
  import opened Text

  /** A segment that `Clean` leaves alone wherever it stands. */
  predicate Normal(seg: string) {
    seg != "" && seg != "." && seg != ".."
  }

  ghost predicate AllNormal(segs: seq<string>) {
    forall i :: 0 <= i < |segs| ==> Normal(segs[i])
  }

  /** Eliminate empty and "." segments, and each ".." with the segment before it. */
  function CleanSegments(rooted: bool, todo: seq<string>, done: seq<string>): seq<string> {
    if todo == [] then done
    else if todo[0] == "" || todo[0] == "." then CleanSegments(rooted, todo[1..], done)
    else if todo[0] != ".." then CleanSegments(rooted, todo[1..], done + [todo[0]])
    else if done != [] && done[|done| - 1] != ".." then CleanSegments(rooted, todo[1..], done[..|done| - 1])
    else if rooted then CleanSegments(rooted, todo[1..], done)
    else CleanSegments(rooted, todo[1..], done + [".."])
  }

  predicate Rooted(s: string) {
    s != "" && s[0] == '/'
  }

  /** path.Clean, which filepath.Clean equals on this platform. */
  function Clean(s: string): string {
    var out := Join(CleanSegments(Rooted(s), Split(s, '/'), []), '/');
    if Rooted(s) then "/" + out else if out == "" then "." else out
  }

  /** filepath.Join of two elements. */
  function JoinPath(a: string, b: string): string {
    if a != "" then Clean(a + "/" + b) else if b != "" then Clean(b) else ""
  }

  /** path.Dir */
  function Dir(k: string): string {
    Clean(k[..LastIndex(k, "/") + 1])
  }

  /** path.Base */
  function Base(k: string): string {
    if k == "" then "."
    else
      var t := TrimRight(k, '/');
      if t == "" then "/" else t[LastIndex(t, "/") + 1..]
  }

  /** FilepathSafeJoin(".", relative): the joined path, or None for the error.
      `filepath.Rel(".", p)` is the cleaned p, and an error when p is rooted. */
  function SafeJoinHere(relative: string): Option<string> {
    var p := Clean(JoinPath(".", relative));
    var rel := Clean(p);
    if Rooted(rel) || rel == "." || rel == ".." || rel != relative
       || HasPrefix(rel, "../") || HasPrefix(rel, "./")
    then None else Some(p)
  }

  /** ValidateResourcePaths: no key is rejected. */
  predicate ValidateResourcePaths(keys: set<string>) {
    forall k | k in keys :: SafeJoinHere(k).Some?
  }

  /** A non-empty list of non-empty segments, none of them "." or "..", joined by slashes. */
  ghost predicate Canonical(k: string) {
    AllNormal(Split(k, '/'))
  }

  /* ---------- what Clean does ---------- */

  lemma {:induction false} CleanKeepsNormal(rooted: bool, todo: seq<string>, done: seq<string>)
    requires AllNormal(todo)
    ensures CleanSegments(rooted, todo, done) == done + todo
  {
    if todo != [] {
      CleanKeepsNormal(rooted, todo[1..], done + [todo[0]]);
      assert done + [todo[0]] + todo[1..] == done + todo;
    }
  }

  /** The shape of a cleaned list: real segments and "..", every ".." in front of the rest. */
  ghost predicate CleanShape(rooted: bool, segs: seq<string>) {
    && AllWithout(segs, '/')
    && (forall i :: 0 <= i < |segs| ==> segs[i] != "" && segs[i] != ".")
    && (forall i, j :: 0 <= i < j < |segs| && segs[j] == ".." ==> segs[i] == "..")
    && (rooted ==> forall i :: 0 <= i < |segs| ==> segs[i] != "..")
  }

  lemma {:induction false} CleanHasShape(rooted: bool, todo: seq<string>, done: seq<string>)
    requires CleanShape(rooted, done) && AllWithout(todo, '/')
    ensures CleanShape(rooted, CleanSegments(rooted, todo, done))
  {
    if todo != [] {
      assert '/' !in todo[0];
      if todo[0] == "" || todo[0] == "." {
        CleanHasShape(rooted, todo[1..], done);
      } else if todo[0] != ".." {
        CleanHasShape(rooted, todo[1..], done + [todo[0]]);
      } else if done != [] && done[|done| - 1] != ".." {
        CleanHasShape(rooted, todo[1..], done[..|done| - 1]);
      } else if rooted {
        CleanHasShape(rooted, todo[1..], done);
      } else {
        assert forall i :: 0 <= i < |done| ==> done[i] == "..";
        CleanHasShape(rooted, todo[1..], done + [".."]);
      }
    }
  }

  lemma CleanedSegments(s: string)
    ensures var segs := CleanSegments(Rooted(s), Split(s, '/'), []);
            CleanShape(Rooted(s), segs) && (segs != [] ==> Split(Join(segs, '/'), '/') == segs && Join(segs, '/') != "")
  {
    SplitHasNoSeparator(s, '/');
    CleanHasShape(Rooted(s), Split(s, '/'), []);
    var segs := CleanSegments(Rooted(s), Split(s, '/'), []);
    if segs != [] {
      SplitOfJoin(segs, '/');
      JoinEnds(segs, '/');
    }
  }

  lemma NormalJoinIsClean(segs: seq<string>)
    requires segs != [] && AllNormal(segs) && AllWithout(segs, '/')
    ensures var s := Join(segs, '/'); s != "" && !Rooted(s) && Clean(s) == s
  {
    SplitOfJoin(segs, '/');
    JoinEnds(segs, '/');
    CleanKeepsNormal(false, segs, []);
    assert [] + segs == segs;
  }

  lemma CanonicalIsClean(k: string)
    requires Canonical(k)
    ensures k != "" && !Rooted(k) && Clean(k) == k
  {
    JoinOfSplit(k, '/');
    SplitHasNoSeparator(k, '/');
    NormalJoinIsClean(Split(k, '/'));
  }

  lemma JoinHereOfCanonical(k: string)
    requires Canonical(k)
    ensures JoinPath(".", k) == k
  {
    CanonicalIsClean(k);
    SplitAppend(".", k, '/');
    SplitOfPlain(".", '/');
    assert "." + ['/'] + k == "." + "/" + k;
    assert ["."] + Split(k, '/') == Split("." + "/" + k, '/');
    CleanKeepsNormal(false, Split(k, '/'), []);
    assert (["."] + Split(k, '/'))[1..] == Split(k, '/');
    assert [] + Split(k, '/') == Split(k, '/');
    JoinOfSplit(k, '/');
  }

  lemma CanonicalIsAccepted(k: string)
    requires Canonical(k)
    ensures SafeJoinHere(k) == Some(k)
  {
    CanonicalIsClean(k);
    JoinHereOfCanonical(k);
    SplitOfPlain(".", '/');
    SplitOfPlain("..", '/');
    if HasPrefix(k, "../") { LeadingSegment(k, ".."); }
    if HasPrefix(k, "./") { LeadingSegment(k, "."); }
  }

  lemma AcceptedIsCanonical(k: string)
    requires SafeJoinHere(k).Some?
    ensures Canonical(k)
  {
    var y := Clean(JoinPath(".", k));
    CleanedSegments(y);
    var segs := CleanSegments(Rooted(y), Split(y, '/'), []);
    assert Split(k, '/') == segs;
    JoinOfSplit(k, '/');
    assert segs[0] != "..";
  }

  /** A key passes exactly when it is canonical, and then the joined path is the key itself. */
  lemma SafeJoinAcceptsCanonical(k: string)
    ensures SafeJoinHere(k).Some? <==> Canonical(k)
    ensures Canonical(k) ==> SafeJoinHere(k) == Some(k)
  {
    if Canonical(k) { CanonicalIsAccepted(k); }
    if SafeJoinHere(k).Some? { AcceptedIsCanonical(k); }
  }

  lemma LeadingSegment(k: string, first: string)
    requires '/' !in first && HasPrefix(k, first + "/")
    ensures Split(k, '/')[0] == first
  {
    var rest := k[|first| + 1..];
    assert k == first + ['/'] + rest;
    SplitAppend(first, rest, '/');
    SplitOfPlain(first, '/');
  }

  /** ValidateResourcePaths accepts exactly the maps whose keys are all canonical. */
  lemma ValidPathsAreCanonical(keys: set<string>)
    ensures ValidateResourcePaths(keys) <==> forall k | k in keys :: Canonical(k)
  {
    forall k | k in keys ensures SafeJoinHere(k).Some? <==> Canonical(k) {
      SafeJoinAcceptsCanonical(k);
    }
  }
}
