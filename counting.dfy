/** Cardinality facts used to bound the number of distinct cells and states
    a walk can reach on a finite grid. */
module Counting {

  /** A set of integers drawn from [0, n) has at most n elements. */
  lemma {:induction false} RangeBound(s: set<int>, n: nat)
    requires forall i :: i in s ==> 0 <= i < n
    ensures |s| <= n
    decreases n
  {
    if n == 0 {
      assert forall i :: i !in s;
      assert s == {};
    } else {
      var rest := s - {n - 1};
      RangeBound(rest, n - 1);
      assert s <= rest + {n - 1};
      assert |s| <= |rest + {n - 1}| by {
        var extra := (rest + {n - 1}) - s;
        assert rest + {n - 1} == s + extra;
      }
    }
  }

  /** An injective map sends a set onto a set of the same size. */
  lemma {:induction false} InjectiveImage<T>(s: set<T>, f: T -> int)
    requires forall x, y :: x in s && y in s && f(x) == f(y) ==> x == y
    ensures |set x | x in s :: f(x)| == |s|
    decreases |s|
  {
    if s != {} {
      var x :| x in s;
      var rest := s - {x};
      InjectiveImage(rest, f);
      var image := set y | y in s :: f(y);
      var restImage := set y | y in rest :: f(y);
      assert image == restImage + {f(x)};
      assert f(x) !in restImage;
    } else {
      assert (set y | y in s :: f(y)) == {};
    }
  }

  /** A set that an injective map sends into [0, n) has at most n elements. */
  lemma InjectionBound<T>(s: set<T>, f: T -> int, n: nat)
    requires forall x, y :: x in s && y in s && f(x) == f(y) ==> x == y
    requires forall x :: x in s ==> 0 <= f(x) < n
    ensures |s| <= n
  {
    InjectiveImage(s, f);
    RangeBound(set x | x in s :: f(x), n);
  }

  /** A sequence without repetitions has as many elements as the set of its elements. */
  lemma {:induction false} DistinctElements<T>(q: seq<T>)
    requires forall i, j :: 0 <= i < j < |q| ==> q[i] != q[j]
    ensures |set x | x in q| == |q|
    decreases |q|
  {
    if |q| == 0 {
      assert (set x | x in q) == {};
    } else {
      var init := q[..|q| - 1];
      DistinctElements(init);
      assert (set x | x in q) == (set x | x in init) + {q[|q| - 1]};
      assert q[|q| - 1] !in init;
    }
  }

  /** A subset is no larger than its superset, and a proper subset is smaller. */
  lemma SubsetBound<T>(a: set<T>, b: set<T>)
    requires a <= b
    ensures |a| <= |b|
    ensures a != b ==> |a| < |b|
  {
    var extra := b - a;
    assert b == a + extra;
    assert a * extra == {};
    assert a != b ==> extra != {};
  }
}
