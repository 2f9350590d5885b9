/** The size of a resource map (pkg/repository/util.go, CalculateResourcesSize). */
module ResourceSizes {

  type Contents = map<string, string>

  ghost function TotalSize(m: Contents): nat {
    if m == map[] then 0
    else
      var key :| key in m;
      |m[key]| + TotalSize(m - {key})
  }

  lemma {:induction false} SizeWithout(m: Contents, key: string)
    requires key in m
    ensures TotalSize(m) == |m[key]| + TotalSize(m - {key})
    decreases |m|
  {
    var first :| first in m && TotalSize(m) == |m[first]| + TotalSize(m - {first});
    if first != key {
      SizeWithout(m - {first}, key);
      SizeWithout(m - {key}, first);
      assert m - {first} - {key} == m - {key} - {first};
    }
  }

  /** The total does not depend on the order of iteration. */
  method CalculateResourcesSize(m: Contents) returns (total: int)
    ensures total == TotalSize(m)
  {
    total := 0;
    var todo := m.Keys;
    while todo != {}
      invariant todo <= m.Keys
      invariant total + TotalSize(Restrict(m, todo)) == TotalSize(m)
      decreases |todo|
    {
      var key :| key in todo;
      SizeWithout(Restrict(m, todo), key);
      assert Restrict(m, todo) - {key} == Restrict(m, todo - {key});
      total := total + |m[key]|;
      todo := todo - {key};
    }
    assert Restrict(m, {}) == map[];
  }

  function Restrict(m: Contents, keys: set<string>): (r: Contents)
    ensures r.Keys == m.Keys * keys
    ensures keys == m.Keys ==> r == m
  {
    map key | key in m && key in keys :: m[key]
  }

  lemma UnionWithout(a: Contents, b: Contents, key: string)
    requires key !in a && key in b
    ensures (a + b) - {key} == a + (b - {key})
  {
  }

  lemma {:induction false} SizeOfUnion(a: Contents, b: Contents)
    requires a.Keys !! b.Keys
    ensures TotalSize(a + b) == TotalSize(a) + TotalSize(b)
    decreases |b|
  {
    if b == map[] {
      assert a + b == a;
    } else {
      hide TotalSize;
      var key :| key in b;
      assert key !in a;
      SizeOfUnion(a, b - {key});
      UnionWithout(a, b, key);
      SizeWithout(b, key);
      assert key in a + b && (a + b)[key] == b[key];
      SizeWithout(a + b, key);
    }
  }
}
