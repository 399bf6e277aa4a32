/** What the other modules share: optional values, and sizes of finite sets. */
module Collections {
  datatype Option<T> = None | Some(value: T)

  /** The numbers below `n`. */
  ghost function UpTo(n: nat): (s: set<int>)
    ensures |s| == n && forall x: int :: x in s <==> 0 <= x < n
  {
    if n == 0 then {} else UpTo(n - 1) + {n - 1}
  }

  lemma SubsetCard<T>(a: set<T>, b: set<T>)
    ensures a <= b ==> |a| <= |b|
  {
    if a <= b { assert b == a + (b - a); }
  }
}
