/** Subpackage directories (api/porch/util.go). */
module SubpackageDirs {
  import opened Text
  import opened Paths
  import opened Names

  predicate RelativePathChar(c: char) {
    'a' <= c <= 'z' || 'A' <= c <= 'Z' || Digit(c) || c == '.' || c == '_' || c == '-'
  }

  /** The regular expression for relative paths: empty, or slash-separated non-empty segments. */
  predicate RelativePathShape(dir: string) {
    dir == "" ||
    forall i :: 0 <= i < |Split(dir, '/')| ==>
      var seg := Split(dir, '/')[i];
      seg != "" && forall j :: 0 <= j < |seg| ==> RelativePathChar(seg[j])
  }

  /** ComposeSubpkgObjName: the dotted name, or None for the error. */
  function ComposeSubpkgObjName(dir: string): Option<string> {
    var name := Replace(dir, '/', '.');
    if dir != "" && IsSubdomain(name) then Some(name) else None
  }

  predicate IsValidSubpackageDir(dir: string) {
    && dir != ""
    && dir[0] != '/' && dir[|dir| - 1] != '/' && '.' !in dir
    && RelativePathShape(dir)
    && ComposeSubpkgObjName(dir).Some?
  }

  lemma DottedSegments(dir: string)
    requires '.' !in dir
    ensures Split(Replace(dir, '/', '.'), '.') == Split(dir, '/')
  {
    var segs := Split(dir, '/');
    JoinOfSplit(dir, '/');
    SplitHasNoSeparator(dir, '/');
    ReplaceInJoin(segs, '/', '.');
    forall i | 0 <= i < |segs| ensures '.' !in segs[i] {
      if '.' in segs[i] { CharsInJoin(segs, '/', i, '.'); }
    }
    SplitOfJoin(segs, '.');
  }

  lemma LabelSegmentChars(dir: string)
    requires AllLabelShaped(Split(dir, '/'))
    ensures dir != "" && dir[0] != '/' && dir[|dir| - 1] != '/' && '.' !in dir
  {
    var segs := Split(dir, '/');
    JoinOfSplit(dir, '/');
    SplitHasNoSeparator(dir, '/');
    hide Split;
    forall i | 0 <= i < |segs| ensures segs[i] != "" && '.' !in segs[i] { LabelIsNormal(segs[i]); }
    JoinEnds(segs, '/');
    JoinChars(segs, '/', '.');
  }

  lemma LabelSegmentsAreValid(dir: string)
    requires |dir| <= 253 && AllLabelShaped(Split(dir, '/'))
    ensures IsValidSubpackageDir(dir)
  {
    hide Split;
    LabelSegmentChars(dir);
    DottedSegments(dir);
  }

  /** The four checks together accept exactly the slash-separated lists of label-shaped segments
      of at most 253 characters. */
  lemma ValidDirIsLabelSegments(dir: string)
    ensures IsValidSubpackageDir(dir) <==> |dir| <= 253 && AllLabelShaped(Split(dir, '/'))
  {
    if IsValidSubpackageDir(dir) { DottedSegments(dir); }
    if |dir| <= 253 && AllLabelShaped(Split(dir, '/')) { LabelSegmentsAreValid(dir); }
  }

  lemma ValidDirFacts(dir: string)
    requires IsValidSubpackageDir(dir)
    ensures var segs := Split(dir, '/');
            AllNormal(segs) && AllWithout(segs, '/') && Join(segs, '/') == dir && AllLabelShaped(segs)
  {
    hide IsValidSubpackageDir, Split, Join;
    ValidDirIsLabelSegments(dir);
    SplitHasNoSeparator(dir, '/');
    JoinOfSplit(dir, '/');
  }
}
