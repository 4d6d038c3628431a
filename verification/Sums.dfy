/**
 Sums over collected values. Lists keep their values in order of arrival and sets give theirs in
 an arbitrary order, so sums are shown not to depend on it.
 */
module Sums {
  import opened Sorting

  function SumOf<T>(f: T -> real, q: seq<T>): real {
    if q == [] then 0.0 else SumOf(f, q[..|q| - 1]) + f(q[|q| - 1])
  }

  lemma {:induction false} SumOfOneMore<T>(f: T -> real, q: seq<T>, x: T)
    ensures SumOf(f, q + [x]) == SumOf(f, q) + f(x)
  {
    assert (q + [x])[..|q|] == q;
  }

  lemma {:induction false} SumOfBoth<T>(f: T -> real, q: seq<T>, p: seq<T>)
    ensures SumOf(f, q + p) == SumOf(f, q) + SumOf(f, p)
    decreases |p|
  {
    if p == [] {
      assert q + p == q;
    } else {
      SumOfBoth(f, q, p[..|p| - 1]);
      assert (q + p)[..|q + p| - 1] == q + p[..|p| - 1];
    }
  }

  lemma {:induction false} SumOfNone<T>(f: T -> real)
    ensures SumOf(f, []) == 0.0
  {
  }

  lemma {:induction false} SumOfFirst<T>(f: T -> real, q: seq<T>)
    requires q != []
    ensures SumOf(f, q) == f(q[0]) + SumOf(f, q[1..])
  {
    assert q == [q[0]] + q[1..] && [q[0]] == [] + [q[0]];
    SumOfBoth(f, [q[0]], q[1..]);
    SumOfOneMore(f, [], q[0]);
  }

  lemma {:induction false} SumIsNonnegative<T>(f: T -> real, q: seq<T>)
    requires forall x :: x in q ==> f(x) >= 0.0
    ensures SumOf(f, q) >= 0.0
  {
    if q != [] {
      SumIsNonnegative(f, q[..|q| - 1]);
    }
  }

  lemma {:induction false} SumWithout<T>(f: T -> real, q: seq<T>, j: nat)
    requires j < |q|
    ensures SumOf(f, q) == SumOf(f, Without(q, j)) + f(q[j])
  {
    assert q == (q[..j] + [q[j]]) + q[j + 1..];
    SumOfBoth(f, q[..j] + [q[j]], q[j + 1..]);
    SumOfOneMore(f, q[..j], q[j]);
    SumOfBoth(f, q[..j], q[j + 1..]);
  }

  lemma {:induction false} SumIgnoresOrder<T>(f: T -> real, q: seq<T>, p: seq<T>)
    requires multiset(q) == multiset(p)
    ensures SumOf(f, q) == SumOf(f, p)
    decreases |q|
  {
    if q == [] {
      assert |multiset(p)| == |p|;
    } else {
      assert q[0] in multiset(p);
      var j :| 0 <= j < |p| && p[j] == q[0];
      RemoveOne(q, 0);
      RemoveOne(p, j);
      SumIgnoresOrder(f, Without(q, 0), Without(p, j));
      SumWithout(f, q, 0);
      SumWithout(f, p, j);
    }
  }

  // ---- Sets

  /** The items of a set in some order. */
  ghost function Listed<T(!new)>(s: set<T>): (q: seq<T>)
    ensures multiset(q) == multiset(s)
  {
    if s == {} then []
    else
      var x :| x in s;
      assert multiset(s) == multiset(s - {x}) + multiset{x};
      Listed(s - {x}) + [x]
  }

  lemma {:induction false} ListedHasAll<T(!new)>(s: set<T>)
    ensures |Listed(s)| == |s| && forall x :: x in Listed(s) <==> x in s
  {
    assert |multiset(Listed(s))| == |Listed(s)|;
    assert |multiset(s)| == |s|;
    forall x ensures x in Listed(s) <==> x in s {
      assert x in Listed(s) <==> x in multiset(Listed(s));
    }
  }

  ghost function SetSum<T(!new)>(f: T -> real, s: set<T>): real {
    SumOf(f, Listed(s))
  }

  /** A loop over the values of a set adds the same sum in whatever order it meets them. */
  lemma {:induction false} SetSumInAnyOrder<T(!new)>(f: T -> real, s: set<T>, q: seq<T>)
    requires multiset(q) == multiset(s)
    ensures SetSum(f, s) == SumOf(f, q)
  {
    SumIgnoresOrder(f, Listed(s), q);
  }

  lemma {:induction false} SetSumOneMore<T(!new)>(f: T -> real, s: set<T>, x: T)
    ensures SetSum(f, s + {x}) == SetSum(f, s) + if x in s then 0.0 else f(x)
  {
    if x in s {
      assert s + {x} == s;
    } else {
      assert multiset(s + {x}) == multiset(s) + multiset{x};
      SetSumInAnyOrder(f, s + {x}, Listed(s) + [x]);
      SumOfOneMore(f, Listed(s), x);
    }
  }

  lemma {:induction false} SetSumBoth<T(!new)>(f: T -> real, s: set<T>, t: set<T>)
    ensures SetSum(f, s + t) == SetSum(f, s) + SetSum(f, t - s)
  {
    assert multiset(s + t) == multiset(s) + multiset(t - s);
    SetSumInAnyOrder(f, s + t, Listed(s) + Listed(t - s));
    SumOfBoth(f, Listed(s), Listed(t - s));
  }
}
