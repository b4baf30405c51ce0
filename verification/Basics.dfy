/** What several modules share. */
module Basics {

  datatype Option<+T> = None | Some(value: T)

  ghost predicate Distinct(s: seq<int>) {
    forall i, j :: 0 <= i < j < |s| ==> s[i] != s[j]
  }

  lemma SubsetSize(a: set<int>, b: set<int>)
    requires a <= b
    ensures |a| <= |b|
    ensures |a| == |b| ==> a == b
  {
    assert b == a + (b - a);
  }

  function Range(n: nat): (r: set<int>)
    ensures |r| == n && forall i :: i in r <==> 1 <= i <= n
  {
    if n == 0 then {} else Range(n - 1) + {n}
  }

  /** As many images as there are numbers, if no two have the same. */
  lemma {:induction false} ImageSize(ids: set<int>, f: map<int, nat>)
    requires ids <= f.Keys && forall i, j :: i in ids && j in ids && f[i] == f[j] ==> i == j
    ensures |set i | i in ids :: f[i]| == |ids|
  {
    if ids != {} {
      assert (forall i: int :: i !in ids) ==> ids == {};
      var i: int :| i in ids;
      ImageSize(ids - {i}, f);
      assert (set j | j in ids :: f[j]) == (set j | j in ids - {i} :: f[j]) + {f[i]};
    }
  }

  lemma SameLast<T>(a: seq<T>, x: T, b: seq<T>, y: T)
    requires a + [x] == b + [y]
    ensures a == b && x == y
  {
    var n := |a|;
    assert |a + [x]| == n + 1 && |b + [y]| == |b| + 1;
    assert (a + [x])[n] == x && (b + [y])[n] == y;
    assert a == (a + [x])[..n] && b == (b + [y])[..n];
  }
}
