/** What several models share: optional values, and the sizes of sets and lists. */
module Collections {
  datatype Option<+T> = None | Some(value: T)

  function Max(a: int, b: int): int
  {
    if a < b then b else a
  }

  ghost predicate NoRepeat<T>(s: seq<T>)
  {
    forall i, j | 0 <= i < j < |s| :: s[i] != s[j]
  }

  function Elements<T(==,!new)>(s: seq<T>): (r: set<T>)
    ensures forall x :: x in r <==> x in s
  {
    set x | x in s
  }

  lemma {:induction false} SameSize<T(!new)>(s: seq<T>)
    requires NoRepeat(s)
    ensures |Elements(s)| == |s|
  {
    if s != [] {
      var t := s[1..];
      SameSize(t);
      assert s[0] !in t;
      assert Elements(s) == Elements(t) + {s[0]};
    } else {
      assert Elements(s) == {};
    }
  }

  lemma SubsetSize<T>(x: set<T>, y: set<T>)
    requires x <= y
    ensures |x| <= |y| && |y - x| == |y| - |x|
  {
    assert y == x + (y - x);
  }

  lemma ProperSize<T>(x: set<T>, y: set<T>, t: T)
    requires x <= y && t in y && t !in x
    ensures |x| < |y|
  {
    SubsetSize(x, y);
    assert t in y - x;
  }

  lemma SameMap<K, V>(m: map<K, V>, n: map<K, V>)
    requires m.Keys == n.Keys && forall k | k in m :: m[k] == n[k]
    ensures m == n
  {
  }
}
