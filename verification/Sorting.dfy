/** The built-in `sorted`, for a set of integers. */
module Sorting {
  ghost predicate Ascending(s: seq<int>) { forall i, j | 0 <= i < j < |s| :: s[i] < s[j] }

  ghost predicate Least(s: set<int>, m: int) { m in s && forall x <- s :: m <= x }

  lemma {:induction false} HasLeast(s: set<int>)
    requires |s| > 0
    ensures exists m :: Least(s, m)
    decreases |s|
  {
    assert (forall x :: x !in s) ==> s == {};
    var x :| x in s;
    var rest := s - {x};
    assert s == rest + {x};
    if rest == {} {
      assert Least(s, x);
    } else {
      HasLeast(rest);
      var m :| Least(rest, m);
      assert Least(s, if x < m then x else m);
    }
  }

  /** By taking the least element away again and again. */
  method Sorted(s: set<int>) returns (r: seq<int>)
    ensures Ascending(r)
    ensures forall x :: x in r <==> x in s
  {
    r := [];
    var rest := s;
    while |rest| > 0
      invariant Ascending(r)
      invariant forall x :: x in s <==> x in r || x in rest
      invariant forall i, y | 0 <= i < |r| && y in rest :: r[i] < y
      decreases |rest|
    {
      HasLeast(rest);
      var m :| m in rest && forall x <- rest :: m <= x;
      r, rest := r + [m], rest - {m};
    }
  }
}
