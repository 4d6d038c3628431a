/**
 Ordering of values by a collation function, as used by `sort.Sort(value.NewSorter(..))`
 and by the ordered list of the window value functions. A collation returns a negative,
 zero or positive number; two different values may collate as equal.
 */
module Sorting {

  /** A collation is a total preorder. */
  ghost predicate TotalPreorder<T(!new)>(cmp: (T, T) -> int) {
    && (forall a :: cmp(a, a) == 0)
    && (forall a, b :: cmp(a, b) < 0 <==> cmp(b, a) > 0)
    && (forall a, b, c :: cmp(a, b) <= 0 && cmp(b, c) <= 0 ==> cmp(a, c) <= 0)
  }

  ghost predicate Sorted<T>(cmp: (T, T) -> int, s: seq<T>) {
    forall i, j :: 0 <= i < j < |s| ==> cmp(s[i], s[j]) <= 0
  }

  /** Position by position, the two sequences hold values that collate as equal. */
  ghost predicate SameUpToCollation<T>(cmp: (T, T) -> int, s: seq<T>, t: seq<T>) {
    |s| == |t| && forall i :: 0 <= i < |s| ==> cmp(s[i], t[i]) == 0
  }

  /** Puts `x` just before the first item that collates after it. */
  function Insert<T>(cmp: (T, T) -> int, x: T, s: seq<T>): seq<T> {
    if s == [] then [x]
    else if cmp(x, s[0]) < 0 then [x] + s
    else [s[0]] + Insert(cmp, x, s[1..])
  }

  /** Stable sort: the items are inserted one after the other. */
  function Sort<T>(cmp: (T, T) -> int, s: seq<T>): seq<T> {
    if s == [] then [] else Insert(cmp, s[|s| - 1], Sort(cmp, s[..|s| - 1]))
  }

  lemma {:induction false} InsertIsPermutation<T>(cmp: (T, T) -> int, x: T, s: seq<T>)
    ensures multiset(Insert(cmp, x, s)) == multiset(s) + multiset{x}
    ensures |Insert(cmp, x, s)| == |s| + 1
  {
    if s == [] {
    } else if cmp(x, s[0]) < 0 {
    } else {
      InsertIsPermutation(cmp, x, s[1..]);
      assert s == [s[0]] + s[1..];
    }
  }

  lemma {:induction false} InsertKeepsSorted<T(!new)>(cmp: (T, T) -> int, x: T, s: seq<T>)
    requires TotalPreorder(cmp) && Sorted(cmp, s)
    ensures Sorted(cmp, Insert(cmp, x, s))
  {
    if s == [] {
    } else if cmp(x, s[0]) < 0 {
    } else {
      InsertKeepsSorted(cmp, x, s[1..]);
      InsertIsPermutation(cmp, x, s[1..]);
      var t := Insert(cmp, x, s[1..]);
      forall i | 0 <= i < |t| ensures cmp(s[0], t[i]) <= 0 {
        assert t[i] in multiset(t);
        assert t[i] == x || t[i] in s[1..];
      }
    }
  }

  /** What sorting promises: a sorted rearrangement of the input. */
  lemma {:induction false} SortSorts<T(!new)>(cmp: (T, T) -> int, s: seq<T>)
    requires TotalPreorder(cmp)
    ensures Sorted(cmp, Sort(cmp, s))
    ensures multiset(Sort(cmp, s)) == multiset(s)
    ensures |Sort(cmp, s)| == |s|
  {
    if s != [] {
      var rest := s[..|s| - 1];
      SortSorts(cmp, rest);
      InsertKeepsSorted(cmp, s[|s| - 1], Sort(cmp, rest));
      InsertIsPermutation(cmp, s[|s| - 1], Sort(cmp, rest));
      assert s == rest + [s[|s| - 1]];
    }
  }

  // ---- Counting below a bound: the rank view of a sorted sequence

  predicate Below<T>(cmp: (T, T) -> int, y: T, x: T, strict: bool) {
    cmp(y, x) < 0 || (!strict && cmp(y, x) == 0)
  }

  /** How many items of `s` are below `x` (strictly, or not). */
  function CountBelow<T>(cmp: (T, T) -> int, s: seq<T>, x: T, strict: bool): nat {
    if s == [] then 0
    else CountBelow(cmp, s[..|s| - 1], x, strict) + if Below(cmp, s[|s| - 1], x, strict) then 1 else 0
  }

  lemma {:induction false} CountConcat<T>(cmp: (T, T) -> int, s: seq<T>, t: seq<T>, x: T, strict: bool)
    ensures CountBelow(cmp, s + t, x, strict) == CountBelow(cmp, s, x, strict) + CountBelow(cmp, t, x, strict)
  {
    if t == [] {
      assert s + t == s;
    } else {
      assert (s + t)[..|s + t| - 1] == s + t[..|t| - 1];
      CountConcat(cmp, s, t[..|t| - 1], x, strict);
    }
  }

  function Without<T>(s: seq<T>, j: nat): seq<T>
    requires j < |s|
  {
    s[..j] + s[j + 1..]
  }

  lemma {:induction false} RemoveOne<T>(s: seq<T>, j: nat)
    requires j < |s|
    ensures multiset(Without(s, j)) == multiset(s) - multiset{s[j]}
  {
    assert s == s[..j] + [s[j]] + s[j + 1..];
  }

  lemma {:induction false} CountWithout<T>(cmp: (T, T) -> int, s: seq<T>, j: nat, x: T, strict: bool)
    requires j < |s|
    ensures CountBelow(cmp, s, x, strict)
         == CountBelow(cmp, Without(s, j), x, strict) + if Below(cmp, s[j], x, strict) then 1 else 0
  {
    var front, back := s[..j], s[j + 1..];
    assert s == (front + [s[j]]) + back;
    CountConcat(cmp, front + [s[j]], back, x, strict);
    CountConcat(cmp, front, [s[j]], x, strict);
    CountConcat(cmp, front, back, x, strict);
  }

  lemma {:induction false} CountIsPermutationInvariant<T>(cmp: (T, T) -> int, s: seq<T>, t: seq<T>, x: T, strict: bool)
    requires multiset(s) == multiset(t)
    ensures CountBelow(cmp, s, x, strict) == CountBelow(cmp, t, x, strict)
  {
    if s == [] {
      assert |multiset(t)| == |t|;
    } else {
      assert s[|s| - 1] in multiset(t);
      var j :| 0 <= j < |t| && t[j] == s[|s| - 1];
      RemoveOne(s, |s| - 1);
      RemoveOne(t, j);
      CountIsPermutationInvariant(cmp, Without(s, |s| - 1), Without(t, j), x, strict);
      CountWithout(cmp, s, |s| - 1, x, strict);
      CountWithout(cmp, t, j, x, strict);
    }
  }

  /** In a sorted sequence the items below a bound are exactly a prefix. */
  lemma {:induction false} CountSplitsSorted<T(!new)>(cmp: (T, T) -> int, s: seq<T>, x: T, strict: bool)
    requires TotalPreorder(cmp) && Sorted(cmp, s)
    ensures CountBelow(cmp, s, x, strict) <= |s|
    ensures forall i :: 0 <= i < |s| ==> (Below(cmp, s[i], x, strict) <==> i < CountBelow(cmp, s, x, strict))
  {
    if s != [] {
      CountSplitsSorted(cmp, s[..|s| - 1], x, strict);
    }
  }

  lemma {:induction false} SortedConcat<T>(cmp: (T, T) -> int, s: seq<T>, t: seq<T>)
    requires Sorted(cmp, s) && Sorted(cmp, t)
    requires forall i, j :: 0 <= i < |s| && 0 <= j < |t| ==> cmp(s[i], t[j]) <= 0
    ensures Sorted(cmp, s + t)
  {
  }

  /** Two sorted arrangements of the same items agree, position by position, up to collation. */
  lemma {:induction false} SortedIsUnique<T(!new)>(cmp: (T, T) -> int, s: seq<T>, t: seq<T>)
    requires TotalPreorder(cmp)
    requires Sorted(cmp, s) && Sorted(cmp, t) && multiset(s) == multiset(t)
    ensures SameUpToCollation(cmp, s, t)
  {
    assert |s| == |multiset(s)| == |t|;
    forall i | 0 <= i < |s| ensures cmp(s[i], t[i]) == 0 {
      CountIsPermutationInvariant(cmp, s, t, s[i], false);
      CountSplitsSorted(cmp, s, s[i], false);
      CountSplitsSorted(cmp, t, s[i], false);
      CountIsPermutationInvariant(cmp, s, t, t[i], false);
      CountSplitsSorted(cmp, s, t[i], false);
      CountSplitsSorted(cmp, t, t[i], false);
      assert Below(cmp, s[i], s[i], false) && Below(cmp, t[i], t[i], false);
      assert Below(cmp, t[i], s[i], false) && Below(cmp, s[i], t[i], false);
    }
  }

  /** Sorting forgets the order of its input, up to collation. */
  lemma {:induction false} SortIgnoresOrder<T(!new)>(cmp: (T, T) -> int, s: seq<T>, t: seq<T>)
    requires TotalPreorder(cmp) && multiset(s) == multiset(t)
    ensures SameUpToCollation(cmp, Sort(cmp, s), Sort(cmp, t))
  {
    SortSorts(cmp, s);
    SortSorts(cmp, t);
    SortedIsUnique(cmp, Sort(cmp, s), Sort(cmp, t));
  }
}
