/** Resource keys and the directories they lie in.

    Go spells "key lies in directory" as `HasPrefix(key, dir+"/")`.  The lemmas here turn that into
    the order on segment lists, so that the proofs about resource maps need no characters.
 */
module Directories {
  import opened Text

  predicate Under(key: string, dir: string) {
    HasPrefix(key, dir + "/")
  }

  function InDir(dir: string, key: string): string {
    dir + "/" + key
  }

  function Rest(key: string, dir: string): string
    requires Under(key, dir)
  {
    key[|dir| + 1..]
  }

  lemma KeysInDir(dir: string)
    ensures forall key :: Under(InDir(dir, key), dir) && Rest(InDir(dir, key), dir) == key
    ensures forall key | Under(key, dir) :: InDir(dir, Rest(key, dir)) == key
  {
  }

  /** The segments of p are a prefix of those of q. */
  ghost predicate Above(p: string, q: string) {
    Split(p, '/') <= Split(q, '/')
  }

  lemma AboveIsPrefix(p: string, q: string)
    ensures Above(p, q) <==> p == q || HasPrefix(q, p + "/")
  {
    PrefixIsSegmentPrefix(p, q, '/');
    assert p + "/" == p + ['/'] && q + "/" == q + ['/'];
    if HasPrefix(q, p + "/") { assert (q + "/")[..|p| + 1] == q[..|p| + 1]; }
    if HasPrefix(q + "/", p + "/") && |q| > |p| { assert (q + "/")[..|p| + 1] == q[..|p| + 1]; }
    if HasPrefix(q + "/", p + "/") && |q| == |p| { assert p == (p + "/")[..|p|] && q == (q + "/")[..|p|]; }
  }

  lemma AboveAntisymmetric(p: string, q: string)
    requires Above(p, q) && Above(q, p)
    ensures p == q
  {
    SplitInjective(p, q, '/');
  }

  /** Two directories over one key are comparable. */
  lemma CommonKey(key: string, p: string, q: string)
    requires Under(key, p) && Under(key, q)
    ensures Above(p, q) || Above(q, p)
  {
    AboveIsPrefix(p, q);
    AboveIsPrefix(q, p);
    if |p| < |q| {
      assert (p + "/")[..|p| + 1] == key[..|p| + 1] == q[..|p| + 1];
    } else if |q| < |p| {
      assert (q + "/")[..|q| + 1] == key[..|q| + 1] == p[..|q| + 1];
    } else {
      assert p == key[..|p|] == q;
    }
  }

  lemma UnderAbove(key: string, p: string, q: string)
    requires Above(p, q) && Under(key, q)
    ensures Under(key, p)
  {
    AboveIsPrefix(p, q);
    if p != q { assert key[..|p| + 1] == q[..|p| + 1]; }
  }

  /** A directory over a file of q is q or above it. */
  lemma OverFile(q: string, file: string, dir: string)
    requires '/' !in file && Under(InDir(q, file), dir)
    ensures Above(dir, q)
  {
    var key := InDir(q, file);
    AboveIsPrefix(dir, q);
    assert key[|dir|] == (dir + "/")[|dir|] == '/';
    assert forall i :: |q| < i < |key| ==> key[i] == file[i - |q| - 1];
    if |dir| == |q| {
      assert dir == key[..|dir|] == q;
    } else {
      assert (dir + "/") == key[..|dir| + 1] == q[..|dir| + 1];
    }
  }
}
