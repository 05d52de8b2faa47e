/** Counting members of finite sets. */
module Sets {
  lemma SubsetCount<T>(a: set<T>, b: set<T>)
    requires a <= b
    ensures |a| <= |b|
  {
    assert b == a + (b - a);
  }

  lemma Singleton<T>(s: set<T>, x: T)
    requires x in s && |s| < 2
    ensures s == {x}
  {
    assert |s - {x}| == |s| - 1;
  }

  lemma TwoMembers<T>(s: set<T>, x: T, y: T)
    requires x in s && y in s && x != y
    ensures |s| >= 2
  {
    assert |s - {x} - {y}| == |s| - 2;
  }
}
