/** Sizes of finite sets, and the lower limit the scripts put on their counts. */
module Counting {

  /** `max(1, n)` */
  function Max1(n: int): (m: int)
    ensures m >= 1 && m >= n && (m == 1 || m == n)
  {
    if n < 1 then 1 else n
  }

  lemma SubsetSize<T>(a: set<T>, b: set<T>)
    requires a <= b
    ensures |a| <= |b|
  {
    assert b == a + (b - a);
  }

  lemma SameWhenFull<T>(a: set<T>, b: set<T>)
    requires a <= b && |b| <= |a|
    ensures a == b
  {
    assert b == a + (b - a);
    assert |b| == |a| + |b - a|;
  }
}
