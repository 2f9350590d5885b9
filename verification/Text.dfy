/** Strings as Go's `strings` package sees them, and the segment view of a separated string.

    Every name and path in Porch is a list of segments printed with a separator: '.' in object
    names, '/' in directories, resource keys and git refs.  `Split` and `Join` are that view;
    the lemmas let the other modules reason about segments instead of characters.
 */
module Text {

  datatype Option<+T> = None | Some(value: T)

  predicate HasPrefix(s: string, p: string) {
    |p| <= |s| && s[..|p|] == p
  }

  predicate HasSuffix(s: string, p: string) {
    |p| <= |s| && s[|s| - |p|..] == p
  }

  /** strings.TrimSuffix */
  function TrimSuffix(s: string, p: string): string {
    if HasSuffix(s, p) then s[..|s| - |p|] else s
  }

  /** strings.TrimPrefix */
  function TrimPrefix(s: string, p: string): string {
    if HasPrefix(s, p) then s[|p|..] else s
  }

  predicate At(s: string, p: string, i: int) {
    0 <= i && i + |p| <= |s| && s[i..i + |p|] == p
  }

  predicate Contains(s: string, p: string) {
    exists i :: 0 <= i <= |s| && At(s, p, i)
  }

  /** strings.LastIndex: the largest position not above `from` where p occurs, or -1. */
  function LastIndexFrom(s: string, p: string, from: int): (r: int)
    requires from <= |s|
    ensures -1 <= r
    ensures r >= 0 ==> At(s, p, r)
    ensures forall i :: r < i <= from ==> !At(s, p, i)
    decreases from + 1
  {
    if from < 0 then -1 else if At(s, p, from) then from else LastIndexFrom(s, p, from - 1)
  }

  function LastIndex(s: string, p: string): int {
    LastIndexFrom(s, p, |s|)
  }

  /** strings.ReplaceAll of one character by another. */
  function Replace(s: string, c: char, d: char): (r: string)
    ensures |r| == |s|
    ensures forall i :: 0 <= i < |s| ==> r[i] == if s[i] == c then d else s[i]
  {
    seq(|s|, i requires 0 <= i < |s| => if s[i] == c then d else s[i])
  }

  /** strings.ReplaceAll of one character by nothing. */
  function Without(s: string, c: char): (r: string)
    ensures forall x :: x in r <==> x in s && x != c
  {
    if s == "" then ""
    else
      assert forall x :: x in s <==> x == s[0] || x in s[1..];
      if s[0] == c then Without(s[1..], c) else [s[0]] + Without(s[1..], c)
  }

  function TrimLeft(s: string, c: char): string {
    if s != "" && s[0] == c then TrimLeft(s[1..], c) else s
  }

  function TrimRight(s: string, c: char): string {
    if s != "" && s[|s| - 1] == c then TrimRight(s[..|s| - 1], c) else s
  }

  /** strings.Trim with a one-character cut set. */
  function Trim(s: string, c: char): string {
    TrimRight(TrimLeft(s, c), c)
  }

  /** strings.Split */
  function Split(s: string, c: char): (r: seq<string>)
    ensures |r| >= 1
  {
    if s == "" then [""]
    else
      var r := Split(s[1..], c);
      if s[0] == c then [""] + r else [[s[0]] + r[0]] + r[1..]
  }

  /** strings.Join */
  function Join(segs: seq<string>, c: char): string {
    if segs == [] then ""
    else if |segs| == 1 then segs[0]
    else segs[0] + [c] + Join(segs[1..], c)
  }

  ghost predicate AllWithout(segs: seq<string>, c: char) {
    forall i :: 0 <= i < |segs| ==> c !in segs[i]
  }

  ghost predicate AllNonEmpty(segs: seq<string>) {
    forall i :: 0 <= i < |segs| ==> segs[i] != ""
  }

  lemma {:induction false} SplitHasNoSeparator(s: string, c: char)
    ensures AllWithout(Split(s, c), c)
  {
    if s != "" { SplitHasNoSeparator(s[1..], c); }
  }

  lemma {:induction false} JoinOfSplit(s: string, c: char)
    ensures Join(Split(s, c), c) == s
  {
    if s != "" {
      JoinOfSplit(s[1..], c);
      var r := Split(s[1..], c);
      if s[0] != c {
        var q := Split(s, c);
        assert q[1..] == r[1..];
      } else {
        assert Split(s, c)[1..] == r;
      }
    }
  }

  lemma {:induction false} SplitOfPlain(s: string, c: char)
    requires c !in s
    ensures Split(s, c) == [s]
  {
    if s != "" {
      SplitOfPlain(s[1..], c);
      assert [s[0]] + s[1..] == s;
    }
  }

  lemma {:induction false} SplitAppend(a: string, b: string, c: char)
    ensures Split(a + [c] + b, c) == Split(a, c) + Split(b, c)
  {
    var s := a + [c] + b;
    if a == "" {
      assert s[1..] == b;
    } else {
      assert s[1..] == a[1..] + [c] + b;
      SplitAppend(a[1..], b, c);
    }
  }

  lemma {:induction false} SplitOfJoin(segs: seq<string>, c: char)
    requires segs != [] && AllWithout(segs, c)
    ensures Split(Join(segs, c), c) == segs
  {
    SplitOfPlain(segs[0], c);
    if |segs| > 1 {
      SplitOfJoin(segs[1..], c);
      SplitAppend(segs[0], Join(segs[1..], c), c);
    }
  }

  lemma {:induction false} JoinAppend(a: seq<string>, b: seq<string>, c: char)
    requires a != [] && b != []
    ensures Join(a + b, c) == Join(a, c) + [c] + Join(b, c)
  {
    if |a| == 1 {
      assert (a + b)[1..] == b;
    } else {
      assert (a + b)[1..] == a[1..] + b;
      JoinAppend(a[1..], b, c);
    }
  }

  lemma {:induction false} ReplaceInJoin(segs: seq<string>, c: char, d: char)
    requires AllWithout(segs, c)
    ensures Replace(Join(segs, c), c, d) == Join(segs, d)
  {
    if |segs| > 1 { ReplaceInJoin(segs[1..], c, d); }
  }

  /** The characters of a joined string are the segments' characters and the separator. */
  lemma {:induction false} JoinChars(segs: seq<string>, c: char, x: char)
    ensures x in Join(segs, c) ==> x == c || exists i :: 0 <= i < |segs| && x in segs[i]
  {
    if |segs| > 1 {
      JoinChars(segs[1..], c, x);
      if i :| 0 <= i < |segs[1..]| && x in segs[1..][i] { assert x in segs[i + 1]; }
    }
  }

  lemma {:induction false} CharsInJoin(segs: seq<string>, c: char, i: int, x: char)
    requires 0 <= i < |segs| && x in segs[i]
    ensures x in Join(segs, c)
  {
    if i > 0 { CharsInJoin(segs[1..], c, i - 1, x); }
  }

  /** A join of non-empty, separator-free segments neither starts nor ends with the separator. */
  lemma {:induction false} JoinEnds(segs: seq<string>, c: char)
    requires segs != [] && AllWithout(segs, c) && AllNonEmpty(segs)
    ensures var s := Join(segs, c);
            s != "" && s[0] == segs[0][0] && s[|s| - 1] == segs[|segs| - 1][|segs[|segs| - 1]| - 1]
            && s[0] != c && s[|s| - 1] != c
  {
    assert segs[0][0] in segs[0] && segs[|segs| - 1][|segs[|segs| - 1]| - 1] in segs[|segs| - 1];
    if |segs| > 1 { JoinEnds(segs[1..], c); }
  }

  lemma TrimNothing(s: string, c: char)
    requires s == "" || (s[0] != c && s[|s| - 1] != c)
    ensures Trim(s, c) == s
  {
  }

  /** Go tests nesting by `HasPrefix(q+"/", p+"/")`; on every pair of strings that is
      exactly "the segments of p are a prefix of the segments of q". */
  lemma PrefixIsSegmentPrefix(p: string, q: string, c: char)
    ensures HasPrefix(q + [c], p + [c]) <==> Split(p, c) <= Split(q, c)
  {
    hide *;
    if HasPrefix(q + [c], p + [c]) {
      PrefixSplits(p, q, c);
      if q != p { SplitAppend(p, q[|p| + 1..], c); }
    }
    if Split(p, c) <= Split(q, c) { SegmentPrefixIsPrefix(p, q, c); }
  }

  lemma PrefixSplits(p: string, q: string, c: char)
    requires HasPrefix(q + [c], p + [c])
    ensures q == p || (|p| < |q| && q == p + [c] + q[|p| + 1..])
  {
    var s, t := p + [c], q + [c];
    assert t[..|p| + 1] == s;
    forall i | 0 <= i <= |p| ensures t[i] == s[i] {
      assert t[..|p| + 1][i] == t[i];
    }
    assert forall i :: 0 <= i < |p| ==> q[i] == t[i] == s[i] == p[i];
    if |p| < |q| { assert q[|p|] == t[|p|] == s[|p|] == c; }
  }

  lemma SegmentPrefixIsPrefix(p: string, q: string, c: char)
    requires Split(p, c) <= Split(q, c)
    ensures HasPrefix(q + [c], p + [c])
  {
    hide Split, Join;
    var ps, qs := Split(p, c), Split(q, c);
    JoinOfSplit(p, c);
    JoinOfSplit(q, c);
    if qs != ps {
      var rest := qs[|ps|..];
      assert qs == ps + rest;
      JoinAppend(ps, rest, c);
      LongerPrefix(p, Join(rest, c), c);
    }
  }

  lemma LongerPrefix(p: string, rest: string, c: char)
    ensures HasPrefix(p + [c] + rest + [c], p + [c])
  {
    assert (p + [c] + rest + [c])[..|p| + 1] == p + [c];
  }

  lemma PrefixChars(s: string, p: string, c: char)
    ensures HasPrefix(s, p) && c in p ==> c in s
  {
  }

  lemma AtOne(s: string, a: char)
    ensures forall i :: At(s, [a], i) <==> 0 <= i < |s| && s[i] == a
  {
  }

  lemma AtTwo(s: string, a: char, b: char)
    ensures forall i :: At(s, [a, b], i) <==> 0 <= i < |s| - 1 && s[i] == a && s[i + 1] == b
  {
    forall i | 0 <= i < |s| - 1 ensures s[i..i + 2] == [s[i], s[i + 1]] {}
    forall i ensures At(s, [a, b], i) <==> 0 <= i < |s| - 1 && s[i] == a && s[i + 1] == b {
      if 0 <= i < |s| - 1 { assert s[i..i + 2] == [s[i], s[i + 1]]; }
    }
  }

  lemma LastSeparator(p: string, leaf: string, c: char)
    requires c !in leaf
    ensures LastIndex(p + [c] + leaf, [c]) == |p|
  {
    var s := p + [c] + leaf;
    AtOne(s, c);
    assert s[|p|] == c && forall i :: |p| < i < |s| ==> s[i] == leaf[i - |p| - 1];
  }

  lemma NoSeparator(leaf: string, c: char)
    requires c !in leaf
    ensures LastIndex(leaf, [c]) == -1
  {
    AtOne(leaf, c);
  }

  /** Segments determine the string. */
  lemma SplitInjective(p: string, q: string, c: char)
    requires Split(p, c) == Split(q, c)
    ensures p == q
  {
    JoinOfSplit(p, c);
    JoinOfSplit(q, c);
  }
}
