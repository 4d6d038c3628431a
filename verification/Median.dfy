/**
 MEDIAN: selection of the k-th smallest number by medians of groups of five
 (algebra/agg_util.go), and the MEDIAN aggregate on top of it (algebra/agg_median.go).
 Numbers are reals.
 */
module Median {
  import opened Wrappers
  import opened Sorting
  import opened Collation

  /** Length of the groups whose medians give the pivot. */
  const SUB_LENGTH := 5

  lemma {:induction false} NumberCollateIsTotal()
    ensures TotalPreorder(NumberCollate)
  {
  }

  /** The numbers in ascending order. */
  function Ascending(data: seq<real>): (s: seq<real>)
    ensures |s| == |data|
  {
    NumberCollateIsTotal();
    SortSorts(NumberCollate, data);
    Sort(NumberCollate, data)
  }

  /** The k-th smallest number or, when `even`, the mean of the k-th and the next. */
  function Selected(data: seq<real>, k: nat, even: bool): real
    requires 1 <= k <= |data| && (even ==> k + 1 <= |data|)
  {
    var s := Ascending(data);
    if even then (s[k] + s[k - 1]) / 2.0 else s[k - 1]
  }

  // ---- Sorted order around a pivot

  function Smaller(data: seq<real>, p: real): seq<real> {
    if data == [] then []
    else Smaller(data[..|data| - 1], p) + if data[|data| - 1] < p then [data[|data| - 1]] else []
  }

  function Larger(data: seq<real>, p: real): seq<real> {
    if data == [] then []
    else Larger(data[..|data| - 1], p) + if p < data[|data| - 1] then [data[|data| - 1]] else []
  }

  function Same(data: seq<real>, p: real): seq<real> {
    if data == [] then []
    else Same(data[..|data| - 1], p) + if data[|data| - 1] == p then [data[|data| - 1]] else []
  }

  lemma {:induction false} SideLengths(data: seq<real>, p: real)
    ensures |Smaller(data, p)| == CountBelow(NumberCollate, data, p, true)
    ensures |Larger(data, p)| == |data| - CountBelow(NumberCollate, data, p, false)
    ensures CountBelow(NumberCollate, data, p, true) <= CountBelow(NumberCollate, data, p, false) <= |data|
  {
    if data != [] {
      SideLengths(data[..|data| - 1], p);
    }
  }

  /** How many of the numbers equal the pivot. */
  function Ties(data: seq<real>, p: real): nat {
    SideLengths(data, p);
    |data| - |Smaller(data, p)| - |Larger(data, p)|
  }

  lemma {:induction false} SidesAreAPartition(data: seq<real>, p: real)
    ensures multiset(data) == multiset(Smaller(data, p)) + multiset(Same(data, p)) + multiset(Larger(data, p))
    ensures |Same(data, p)| == Ties(data, p)
  {
    if data != [] {
      SidesAreAPartition(data[..|data| - 1], p);
      assert data == data[..|data| - 1] + [data[|data| - 1]];
    }
  }

  lemma {:induction false} SidesAreStrict(data: seq<real>, p: real)
    ensures forall i :: 0 <= i < |Smaller(data, p)| ==> Smaller(data, p)[i] < p
    ensures forall i :: 0 <= i < |Larger(data, p)| ==> p < Larger(data, p)[i]
    ensures forall i :: 0 <= i < |Same(data, p)| ==> Same(data, p)[i] == p
  {
    if data != [] {
      SidesAreStrict(data[..|data| - 1], p);
    }
  }

  /** A sorted arrangement of the numbers is the ascending one. */
  lemma {:induction false} AscendingIsUnique(data: seq<real>, s: seq<real>)
    requires Sorted(NumberCollate, s) && multiset(s) == multiset(data)
    ensures Ascending(data) == s
  {
    NumberCollateIsTotal();
    SortSorts(NumberCollate, data);
    SortedIsUnique(NumberCollate, Ascending(data), s);
  }

  lemma {:induction false} AscendingRearranges(data: seq<real>)
    ensures Sorted(NumberCollate, Ascending(data))
    ensures multiset(Ascending(data)) == multiset(data)
    ensures forall i :: 0 <= i < |data| ==> Ascending(data)[i] in data
  {
    NumberCollateIsTotal();
    SortSorts(NumberCollate, data);
    forall i | 0 <= i < |data| ensures Ascending(data)[i] in data {
      assert Ascending(data)[i] in multiset(Ascending(data));
    }
  }

  lemma {:induction false} SortedAroundPivot(left: seq<real>, p: real, same: seq<real>, right: seq<real>)
    requires forall i :: 0 <= i < |left| ==> left[i] < p
    requires forall i :: 0 <= i < |right| ==> p < right[i]
    requires forall i :: 0 <= i < |same| ==> same[i] == p
    ensures Sorted(NumberCollate, Ascending(left) + same + Ascending(right))
  {
    AscendingRearranges(left);
    AscendingRearranges(right);
    SortedConcat(NumberCollate, Ascending(left), same);
    SortedConcat(NumberCollate, Ascending(left) + same, Ascending(right));
  }

  /** The ascending order is: the smaller numbers, the pivot as often as it occurs, the larger numbers. */
  lemma {:induction false} AscendingAroundPivot(data: seq<real>, p: real)
    ensures |Same(data, p)| == Ties(data, p) && forall i :: 0 <= i < |Same(data, p)| ==> Same(data, p)[i] == p
    ensures Ascending(data) == Ascending(Smaller(data, p)) + Same(data, p) + Ascending(Larger(data, p))
  {
    var left, same, right := Smaller(data, p), Same(data, p), Larger(data, p);
    SidesAreStrict(data, p);
    SortedAroundPivot(left, p, same, right);
    var s := Ascending(left) + same + Ascending(right);
    assert multiset(s) == multiset(data) by {
      SidesAreAPartition(data, p);
      AscendingRearranges(left);
      AscendingRearranges(right);
    }
    AscendingIsUnique(data, s);
    SidesAreAPartition(data, p);
  }

  /** The pivot appended to its smaller side goes last. */
  lemma {:induction false} AscendingWithPivotAbove(left: seq<real>, p: real)
    requires forall i :: 0 <= i < |left| ==> left[i] < p
    ensures Ascending(left + [p]) == Ascending(left) + [p]
  {
    AscendingRearranges(left);
    SortedConcat(NumberCollate, Ascending(left), [p]);
    AscendingIsUnique(left + [p], Ascending(left) + [p]);
  }

  /** The pivot appended to its larger side goes first. */
  lemma {:induction false} AscendingWithPivotBelow(right: seq<real>, p: real)
    requires forall i :: 0 <= i < |right| ==> p < right[i]
    ensures Ascending(right + [p]) == [p] + Ascending(right)
  {
    AscendingRearranges(right);
    SortedConcat(NumberCollate, [p], Ascending(right));
    AscendingIsUnique(right + [p], [p] + Ascending(right));
  }

  // ---- Which side holds the selected numbers

  lemma {:induction false} SelectedAmongTies(data: seq<real>, p: real, k: nat)
    requires |Smaller(data, p)| < k <= |data| - |Larger(data, p)|
    ensures Selected(data, k, false) == p
  {
    AscendingAroundPivot(data, p);
  }

  lemma {:induction false} SelectedBelow(data: seq<real>, p: real, k: nat, even: bool)
    requires 1 <= k <= |Smaller(data, p)| && Ties(data, p) > 0
    ensures Selected(data, k, even) == Selected(Smaller(data, p) + [p], k, even)
  {
    AscendingAroundPivot(data, p);
    SidesAreStrict(data, p);
    AscendingWithPivotAbove(Smaller(data, p), p);
  }

  lemma {:induction false} AscendingTail(data: seq<real>, p: real, k: nat)
    requires |data| - |Larger(data, p)| < k <= |data| && 1 <= k
    ensures Ascending(data)[k - 1] == ([p] + Ascending(Larger(data, p)))[k - (|data| - |Larger(data, p)|)]
  {
    AscendingAroundPivot(data, p);
  }

  lemma {:induction false} SelectedAbove(data: seq<real>, p: real, k: nat, even: bool)
    requires |data| - |Larger(data, p)| < k <= |data| && (even ==> k < |data|) && Ties(data, p) > 0
    ensures Selected(data, k, even)
         == Selected(Larger(data, p) + [p], k - |Smaller(data, p)| - (Ties(data, p) - 1), even)
  {
    SidesAreStrict(data, p);
    AscendingWithPivotBelow(Larger(data, p), p);
    AscendingTail(data, p, k);
    if even {
      AscendingTail(data, p, k + 1);
    }
  }

  lemma {:induction false} SelectedNextAbove(data: seq<real>, p: real, k: nat)
    requires k == |data| - |Larger(data, p)| < |data|
    ensures Selected(data, k + 1, false) == Selected(Larger(data, p), 1, false)
  {
    AscendingAroundPivot(data, p);
  }

  // ---- The pivot is near the middle

  /** Where the k-th smallest number lies tells how many numbers are below a bound. */
  lemma {:induction false} RankOfSelected(data: seq<real>, k: nat, p: real)
    requires 1 <= k <= |data|
    ensures Selected(data, k, false) <= p <==> k <= CountBelow(NumberCollate, data, p, false)
    ensures Selected(data, k, false) < p <==> k <= CountBelow(NumberCollate, data, p, true)
  {
    NumberCollateIsTotal();
    AscendingRearranges(data);
    var s := Ascending(data);
    CountIsPermutationInvariant(NumberCollate, s, data, p, false);
    CountIsPermutationInvariant(NumberCollate, s, data, p, true);
    CountSplitsSorted(NumberCollate, s, p, false);
    CountSplitsSorted(NumberCollate, s, p, true);
    assert Below(NumberCollate, s[k - 1], p, false) <==> s[k - 1] <= p;
    assert Below(NumberCollate, s[k - 1], p, true) <==> s[k - 1] < p;
  }

  function Group(data: seq<real>, i: nat): (g: seq<real>)
    requires 5 * i + 5 <= |data|
    ensures |g| == 5
  {
    data[5 * i..5 * i + 5]
  }

  /** `medians` holds the median of each full group of five. */
  ghost predicate GroupMedians(data: seq<real>, medians: seq<real>) {
    && 5 * |medians| <= |data|
    && forall i :: 0 <= i < |medians| ==> medians[i] == Selected(Group(data, i), 3, false)
  }

  lemma {:induction false} GroupFollowsMedian(group: seq<real>, p: real)
    requires |group| == 5
    ensures Selected(group, 3, false) <= p ==> CountBelow(NumberCollate, group, p, false) >= 3
    ensures Selected(group, 3, false) >= p ==> CountBelow(NumberCollate, group, p, true) <= 2
    ensures CountBelow(NumberCollate, group, p, true) <= 5
  {
    RankOfSelected(group, 3, p);
    SideLengths(group, p);
  }

  /** Each group median on one side of a bound brings three of its group along. */
  lemma {:induction false} GroupsFollowMedians(data: seq<real>, medians: seq<real>, p: real)
    requires GroupMedians(data, medians)
    ensures CountBelow(NumberCollate, data[..5 * |medians|], p, false) >= 3 * CountBelow(NumberCollate, medians, p, false)
    ensures 5 * |medians| - CountBelow(NumberCollate, data[..5 * |medians|], p, true)
         >= 3 * (|medians| - CountBelow(NumberCollate, medians, p, true))
  {
    if medians != [] {
      var m := |medians| - 1;
      var group := Group(data, m);
      GroupsFollowMedians(data, medians[..m], p);
      assert data[..5 * m + 5] == data[..5 * m] + group;
      CountConcat(NumberCollate, data[..5 * m], group, p, false);
      CountConcat(NumberCollate, data[..5 * m], group, p, true);
      GroupFollowsMedian(group, p);
      assert medians[..m] + [medians[m]] == medians;
    }
  }

  /** The pivot leaves out a fixed share of the numbers on either side. */
  lemma {:induction false} PivotIsCentral(data: seq<real>, medians: seq<real>, p: real)
    requires GroupMedians(data, medians) && 1 <= |medians|
    requires p == Selected(medians, (|medians| + 1) / 2, false)
    ensures |Smaller(data, p)| <= |data| - 3 * (|medians| / 2 + 1)
    ensures |Larger(data, p)| <= |data| - 3 * ((|medians| + 1) / 2)
  {
    var m := |medians|;
    GroupsFollowMedians(data, medians, p);
    RankOfSelected(medians, (m + 1) / 2, p);
    CountOfPrefix(data, 5 * m, p);
    SideLengths(data, p);
  }

  lemma {:induction false} CountOfPrefix(data: seq<real>, n: nat, p: real)
    requires n <= |data|
    ensures CountBelow(NumberCollate, data, p, false) >= CountBelow(NumberCollate, data[..n], p, false)
    ensures |data| - CountBelow(NumberCollate, data, p, true) >= n - CountBelow(NumberCollate, data[..n], p, true)
  {
    assert data == data[..n] + data[n..];
    CountConcat(NumberCollate, data[..n], data[n..], p, false);
    CountConcat(NumberCollate, data[..n], data[n..], p, true);
    SideLengths(data[n..], p);
  }

  lemma {:induction false} SelectedOccurs(data: seq<real>, k: nat)
    requires 1 <= k <= |data|
    ensures Selected(data, k, false) in data
  {
    AscendingRearranges(data);
  }

  lemma {:induction false} OccurringHasTies(data: seq<real>, p: real)
    requires p in data
    ensures Ties(data, p) > 0
  {
    SidesAreAPartition(data, p);
    SidesAreStrict(data, p);
    assert multiset(data)[p] > 0;
  }

  lemma {:induction false} PivotOccurs(data: seq<real>, medians: seq<real>, p: real)
    requires GroupMedians(data, medians) && 1 <= |medians|
    requires p == Selected(medians, (|medians| + 1) / 2, false)
    ensures Ties(data, p) > 0
  {
    SelectedOccurs(medians, (|medians| + 1) / 2);
    var i :| 0 <= i < |medians| && medians[i] == p;
    SelectedOccurs(Group(data, i), 3);
    OccurringHasTies(data, p);
  }

  // ---- Cost, in comparisons of two numbers

  /** Comparisons of an insertion sort of `n` numbers, at most. */
  function SortCost(n: nat): nat {
    n * (n - 1) / 2
  }

  ghost function CostBound(n: nat): int {
    if n <= 10 then SortCost(n) else 40 * n - 48
  }

  lemma {:induction false} CostBoundIsLinear(n: nat)
    ensures 0 <= CostBound(n) <= 40 * n
    ensures n <= 10 ==> 2 * CostBound(n) <= 9 * n
  {
    if n <= 10 {
      assert n * (n - 1) <= 9 * n;
    }
  }

  /** One round: the groups, the pivot among the medians, the partition, and the side that is kept. */
  lemma {:induction false} CostOfRound(n: nat, m: nat, side: nat)
    requires n > 10 && m == n / 5
    requires side <= n - 3 * (m / 2 + 1) + 1 || side <= n - 3 * ((m + 1) / 2) + 1
    ensures 10 * m + CostBound(m) + 2 * n + CostBound(side) <= CostBound(n)
  {
    CostBoundIsLinear(m);
    CostBoundIsLinear(side);
  }

  /** The medians of the full groups of five. */
  method MediansOfGroups(data: seq<real>) returns (medians: seq<real>, ghost cost: nat)
    requires |data| > 2 * SUB_LENGTH
    ensures |medians| == |data| / SUB_LENGTH && GroupMedians(data, medians)
    ensures cost <= 10 * |medians|
    decreases |data|, 0
  {
    var n := |data|;
    var m := n / SUB_LENGTH;
    medians, cost := [], 0;
    for i := 0 to m
      invariant |medians| == i && GroupMedians(data, medians)
      invariant cost <= 10 * i
    {
      var j := i * SUB_LENGTH + SUB_LENGTH;
      var arr := if j >= n then data[i * SUB_LENGTH..] else data[i * SUB_LENGTH..j];
      assert arr == Group(data, i);
      var v, c := MedianOfMedian(arr, (|arr| + 1) / 2, false);
      medians := medians + [v];
      cost := cost + c;
    }
  }

  method Partition(data: seq<real>, pivot: real) returns (left: seq<real>, right: seq<real>)
    ensures left == Smaller(data, pivot) && right == Larger(data, pivot)
  {
    left, right := [], [];
    for i := 0 to |data|
      invariant left == Smaller(data[..i], pivot) && right == Larger(data[..i], pivot)
    {
      assert data[..i + 1][..i] == data[..i];
      if pivot < data[i] {
        right := right + [data[i]];
      } else if pivot > data[i] {
        left := left + [data[i]];
      }
    }
    assert data[..|data|] == data;
  }

  /** A short list is sorted. */
  method SelectSorted(data: seq<real>, k: nat, even: bool) returns (r: real, ghost cost: nat)
    requires 1 <= k <= |data| <= 2 * SUB_LENGTH && (even ==> k + 1 <= |data|)
    ensures r == Selected(data, k, even)
    ensures cost <= CostBound(|data|)
  {
    var sorted := Ascending(data);
    cost := SortCost(|data|);
    if even {
      return (sorted[k] + sorted[k - 1]) / 2.0, cost;
    }
    return sorted[k - 1], cost;
  }

  /**
   The k-th smallest number, or the mean of the k-th and the next, of an unsorted list.
   Recursion on a side with the pivot appended makes progress only because the pivot is
   itself a correct median of the group medians.
   */
  method MedianOfMedian(data: seq<real>, k: nat, even: bool) returns (r: real, ghost cost: nat)
    requires 1 <= k <= |data| && (even ==> k + 1 <= |data|)
    ensures r == Selected(data, k, even)
    ensures cost <= CostBound(|data|) <= 40 * |data|
    decreases |data|, 1
  {
    hide Ascending, SortCost, Smaller, Larger, GroupMedians;
    var n := |data|;
    CostBoundIsLinear(n);
    if n <= 2 * SUB_LENGTH {
      r, cost := SelectSorted(data, k, even);
      return;
    }

    var medians, groupsCost := MediansOfGroups(data);
    var m := n / SUB_LENGTH;
    var pivot, pivotCost := MedianOfMedian(medians, (m + 1) / 2, false);
    var left, right := Partition(data, pivot);
    PivotIsCentral(data, medians, pivot);
    PivotOccurs(data, medians, pivot);
    ghost var side := 0;
    ghost var sideCost: nat := 0;
    var t := n - |left| - |right|;
    if k > |left| && k <= n - |right| {
      SelectedAmongTies(data, pivot, k);
      if !even || k + 1 <= n - |right| {
        if even {
          SelectedAmongTies(data, pivot, k + 1);
        }
        r := pivot;
      } else {
        var second;
        second, sideCost := MedianOfMedian(right, 1, false);
        SelectedNextAbove(data, pivot, k);
        side := |right|;
        r := (pivot + second) / 2.0;
      }
    } else if k <= |left| {
      SelectedBelow(data, pivot, k, even);
      if t > 0 {
        left := left + [pivot];
      }
      side := |left|;
      r, sideCost := MedianOfMedian(left, k, even);
    } else {
      SelectedAbove(data, pivot, k, even);
      if t > 0 {
        right := right + [pivot];
        t := t - 1;
      }
      side := |right|;
      r, sideCost := MedianOfMedian(right, k - |left| - t, even);
    }
    CostOfRound(n, m, side);
    cost := groupsCost + pivotCost + 2 * n + sideCost;
  }

  // ---- The aggregate

  /**
   What MEDIAN means: of an odd number of values the middle one in ascending order, of an
   even number the mean of the middle two, of no values NULL.
   */
  function MiddleOf(vals: seq<real>): Option<real> {
    if vals == [] then None
    else
      var s, n := Ascending(vals), |vals|;
      if n % 2 == 1 then Some(s[n / 2]) else Some((s[n / 2 - 1] + s[n / 2]) / 2.0)
  }

  /** `Median.ComputeFinal` over the collected numbers: a list, or a set in any order. */
  method ComputeFinal(vals: seq<real>) returns (r: Option<real>)
    ensures r == MiddleOf(vals)
  {
    var length := |vals|;
    if length == 0 {
      return None;
    }
    var m, _ := MedianOfMedian(vals, (length + 1) / 2, length % 2 == 0);
    r := Some(m);
  }

  /** The order in which rows, or the values of a set, arrive does not matter. */
  lemma {:induction false} MedianIgnoresOrder(vals: seq<real>, other: seq<real>)
    requires multiset(vals) == multiset(other)
    ensures MiddleOf(vals) == MiddleOf(other)
  {
    AscendingRearranges(vals);
    AscendingIsUnique(other, Ascending(vals));
    assert |vals| == |multiset(vals)| == |other|;
  }

  /** No more than half of the values are below the median, and no more than half are above it. */
  lemma {:induction false} MedianBalances(vals: seq<real>)
    requires vals != []
    ensures 2 * CountBelow(NumberCollate, vals, MiddleOf(vals).value, true) <= |vals|
    ensures 2 * CountBelow(NumberCollate, vals, MiddleOf(vals).value, false) >= |vals|
  {
    MiddleIsBetween(vals);
    BetweenSelected(vals, (|vals| + 1) / 2, MiddleOf(vals).value, |vals| / 2 + 1);
  }

  function Positions(vals: seq<real>, holds: real -> bool): set<int> {
    set i | 0 <= i < |vals| && holds(vals[i])
  }

  lemma {:induction false} OneMorePosition(vals: seq<real>, holds: real -> bool)
    requires vals != []
    ensures |Positions(vals, holds)| == |Positions(vals[..|vals| - 1], holds)| + if holds(vals[|vals| - 1]) then 1 else 0
  {
    var n := |vals| - 1;
    var before := Positions(vals[..n], holds);
    assert Positions(vals, holds) == before + if holds(vals[n]) then {n} else {};
  }

  /** The numbers below a bound, counted by position. */
  lemma {:induction false} PositionsBelow(vals: seq<real>, x: real)
    ensures CountBelow(NumberCollate, vals, x, true) == |Positions(vals, v => v < x)|
    ensures CountBelow(NumberCollate, vals, x, false) == |Positions(vals, v => v <= x)|
  {
    if vals != [] {
      hide Positions;
      PositionsBelow(vals[..|vals| - 1], x);
      OneMorePosition(vals, v => v < x);
      OneMorePosition(vals, v => v <= x);
    } else {
      assert Positions(vals, v => v < x) == {} && Positions(vals, v => v <= x) == {};
    }
  }

  /** A member of the list with at most `k` members below it and more than `k` not above it. */
  ghost predicate HasRank(vals: seq<real>, k: nat, x: real) {
    && x in vals
    && |set i | 0 <= i < |vals| && vals[i] < x| <= k
    && |set i | 0 <= i < |vals| && vals[i] <= x| > k
  }

  lemma {:induction false} SelectedHasRank(vals: seq<real>, k: nat)
    requires 1 <= k <= |vals|
    ensures HasRank(vals, k - 1, Selected(vals, k, false))
  {
    var x := Selected(vals, k, false);
    SelectedOccurs(vals, k);
    RankOfSelected(vals, k, x);
    PositionsBelow(vals, x);
    assert Positions(vals, v => v < x) == set i | 0 <= i < |vals| && vals[i] < x;
    assert Positions(vals, v => v <= x) == set i | 0 <= i < |vals| && vals[i] <= x;
  }

  /** Only one number has a given rank. */
  lemma {:induction false} RankIsUnique(vals: seq<real>, k: nat, x: real, y: real)
    requires HasRank(vals, k, x) && HasRank(vals, k, y)
    ensures x == y
  {
    if x < y {
      SubsetSize(set i | 0 <= i < |vals| && vals[i] <= x, set i | 0 <= i < |vals| && vals[i] < y);
    } else if y < x {
      SubsetSize(set i | 0 <= i < |vals| && vals[i] <= y, set i | 0 <= i < |vals| && vals[i] < x);
    }
  }

  lemma {:induction false} SubsetSize(a: set<int>, b: set<int>)
    requires a <= b
    ensures |a| <= |b|
  {
    assert b == a + (b - a);
  }

  /** The median is half the sum of the two members whose ranks are nearest to the middle, which are one and the same for an odd number of values. */
  lemma {:induction false} MedianExactly(vals: seq<real>, lo: real, hi: real)
    requires vals != [] && HasRank(vals, (|vals| - 1) / 2, lo) && HasRank(vals, |vals| / 2, hi)
    ensures MiddleOf(vals) == Some((lo + hi) / 2.0)
  {
    SelectedHasRank(vals, (|vals| - 1) / 2 + 1);
    SelectedHasRank(vals, |vals| / 2 + 1);
    RankIsUnique(vals, (|vals| - 1) / 2, lo, Selected(vals, (|vals| - 1) / 2 + 1, false));
    RankIsUnique(vals, |vals| / 2, hi, Selected(vals, |vals| / 2 + 1, false));
  }

  /** There are such members, and no median without values. */
  lemma {:induction false} MedianExists(vals: seq<real>) returns (lo: real, hi: real)
    ensures vals == [] ==> MiddleOf(vals) == None
    ensures vals != [] ==> HasRank(vals, (|vals| - 1) / 2, lo) && HasRank(vals, |vals| / 2, hi)
    ensures vals != [] ==> MiddleOf(vals) == Some((lo + hi) / 2.0)
  {
    lo, hi := 0.0, 0.0;
    if vals != [] {
      lo, hi := Selected(vals, (|vals| - 1) / 2 + 1, false), Selected(vals, |vals| / 2 + 1, false);
      SelectedHasRank(vals, (|vals| - 1) / 2 + 1);
      SelectedHasRank(vals, |vals| / 2 + 1);
      MedianExactly(vals, lo, hi);
    }
  }

  lemma {:induction false} MiddleIsBetween(vals: seq<real>)
    requires vals != []
    ensures Selected(vals, (|vals| + 1) / 2, false) <= MiddleOf(vals).value <= Selected(vals, |vals| / 2 + 1, false)
  {
    var s, h := Ascending(vals), |vals| / 2;
    if |vals| % 2 == 0 {
      AscendingRearranges(vals);
      assert NumberCollate(s[h - 1], s[h]) <= 0;
    }
  }

  lemma {:induction false} BetweenSelected(vals: seq<real>, k: nat, x: real, j: nat)
    requires 1 <= k <= |vals| && 1 <= j <= |vals|
    requires Selected(vals, k, false) <= x <= Selected(vals, j, false)
    ensures CountBelow(NumberCollate, vals, x, true) < j
    ensures CountBelow(NumberCollate, vals, x, false) >= k
  {
    RankOfSelected(vals, k, x);
    RankOfSelected(vals, j, x);
  }
}
