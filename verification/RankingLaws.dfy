/**
 What FIRST_VALUE, LAST_VALUE, NTH_VALUE, LAG and LEAD give, said by counting rows of the frame: how many rows that
 count come before the row whose value is given. The laws name none of the lists and groups by which it is computed.
 */
module RankingLaws {
  import opened Sorting
  import opened Collation
  import opened PeerRanking
  import opened NthValue

  // ---- Counting positions

  function HowMany(lo: int, hi: int, holds: int -> bool): nat {
    |set i | lo <= i < hi && holds(i)|
  }

  lemma {:induction false} HowManyLast(lo: int, hi: int, holds: int -> bool)
    requires lo < hi
    ensures HowMany(lo, hi, holds) == HowMany(lo, hi - 1, holds) + if holds(hi - 1) then 1 else 0
  {
    var before := set i | lo <= i < hi - 1 && holds(i);
    assert (set i | lo <= i < hi && holds(i)) == before + if holds(hi - 1) then {hi - 1} else {};
  }

  lemma {:induction false} HowManyNone(lo: int, hi: int, holds: int -> bool)
    requires forall i :: lo <= i < hi ==> !holds(i)
    ensures HowMany(lo, hi, holds) == 0
  {
    assert (set i | lo <= i < hi && holds(i)) == {};
  }

  lemma {:induction false} HowManySplit(lo: int, mid: int, hi: int, holds: int -> bool)
    requires lo <= mid <= hi
    ensures HowMany(lo, hi, holds) == HowMany(lo, mid, holds) + HowMany(mid, hi, holds)
    decreases hi - mid
  {
    hide HowMany;
    if mid == hi {
      HowManyNone(mid, hi, holds);
    } else {
      HowManySplit(lo, mid, hi - 1, holds);
      HowManyLast(lo, hi, holds);
      HowManyLast(mid, hi, holds);
    }
  }

  /** The same number at shifted positions. */
  lemma {:induction false} HowManyShifted(lo: int, hi: int, d: int, holds: int -> bool, other: int -> bool)
    requires forall i :: lo <= i < hi ==> (holds(i) <==> other(i - d))
    ensures HowMany(lo, hi, holds) == HowMany(lo - d, hi - d, other)
    decreases hi - lo
  {
    hide HowMany;
    if lo < hi {
      HowManyShifted(lo, hi - 1, d, holds, other);
      HowManyLast(lo, hi, holds);
      HowManyLast(lo - d, hi - d, other);
    } else {
      HowManyNone(lo, hi, holds);
      HowManyNone(lo - d, hi - d, other);
    }
  }

  /** The same number at mirrored positions. */
  lemma {:induction false} HowManyMirrored(lo: int, hi: int, t: int, holds: int -> bool, other: int -> bool)
    requires lo <= hi && forall i :: lo <= i < hi ==> (holds(i) <==> other(t - i))
    ensures HowMany(lo, hi, holds) == HowMany(t - hi + 1, t - lo + 1, other)
    decreases hi - lo
  {
    hide HowMany;
    if lo < hi {
      HowManyMirrored(lo, hi - 1, t, holds, other);
      HowManyLast(lo, hi, holds);
      HowManySplit(t - hi + 1, t - hi + 2, t - lo + 1, other);
      HowManyLast(t - hi + 1, t - hi + 2, other);
      HowManyNone(t - hi + 1, t - hi + 1, other);
      assert holds(hi - 1) <==> other(t - (hi - 1));
    } else {
      HowManyNone(lo, hi, holds);
      HowManyNone(t - hi + 1, t - lo + 1, other);
    }
  }

  // ---- Places among the visited rows

  /** Two rows with nothing but peers from one to the other. */
  ghost predicate Together(peer: (Row, Row) -> bool, v: seq<Row>, i: int, j: int) {
    forall k :: 0 < k < |v| && (i < k <= j || j < k <= i) ==> peer(v[k], v[k - 1])
  }

  /** The rows that count and come before row `j` (strictly, or not). */
  ghost function Ahead(cmp: (Value, Value) -> int, peer: (Row, Row) -> bool, v: seq<Row>, ignoreNulls: bool, j: nat, strict: bool): int -> bool
    requires j < |v|
  {
    i => 0 <= i < |v| && Counts(v[i], ignoreNulls) && if Together(peer, v, i, j) then Below(cmp, v[i].val, v[j].val, strict) else i < j
  }

  ghost predicate HasPlace(cmp: (Value, Value) -> int, peer: (Row, Row) -> bool, v: seq<Row>, ignoreNulls: bool, n: nat, j: nat) {
    && j < |v| && Counts(v[j], ignoreNulls)
    && HowMany(0, |v|, Ahead(cmp, peer, v, ignoreNulls, j, true)) < n <= HowMany(0, |v|, Ahead(cmp, peer, v, ignoreNulls, j, false))
  }

  lemma {:induction false} CountInGroup(cmp: (Value, Value) -> int, v: seq<Row>, ignoreNulls: bool, m: nat, x: Value, strict: bool, holds: int -> bool)
    requires m <= |v| && forall i :: 0 <= i < m ==> (holds(i) <==> Counts(v[i], ignoreNulls) && Below(cmp, v[i].val, x, strict))
    ensures HowMany(0, m, holds) == CountBelow(cmp, Kept(v[..m], ignoreNulls), x, strict)
  {
    hide HowMany, Counts, Kept;
    if m == 0 {
      HowManyNone(0, 0, holds);
      KeptOfNone(v[..0], ignoreNulls);
    } else {
      CountInGroup(cmp, v, ignoreNulls, m - 1, x, strict, holds);
      HowManyLast(0, m, holds);
      KeptOneMore(v, ignoreNulls, 0, m - 1);
      assert v[0..m] == v[..m] && v[0..m - 1] == v[..m - 1];
      CountConcat(cmp, Kept(v[..m - 1], ignoreNulls), if Counts(v[m - 1], ignoreNulls) then [v[m - 1].val] else [], x, strict);
    }
  }

  lemma {:induction false} CountKept(v: seq<Row>, ignoreNulls: bool, m: nat, holds: int -> bool)
    requires m <= |v| && forall i :: 0 <= i < m ==> (holds(i) <==> Counts(v[i], ignoreNulls))
    ensures HowMany(0, m, holds) == |Kept(v[..m], ignoreNulls)|
  {
    hide HowMany, Counts, Kept;
    if m == 0 {
      HowManyNone(0, 0, holds);
      KeptOfNone(v[..0], ignoreNulls);
    } else {
      CountKept(v, ignoreNulls, m - 1, holds);
      HowManyLast(0, m, holds);
      KeptOneMore(v, ignoreNulls, 0, m - 1);
      assert v[0..m] == v[..m] && v[0..m - 1] == v[..m - 1];
    }
  }

  /** The first group is together, and nothing after it is together with it. */
  lemma {:induction false} FirstGroupTogether(peer: (Row, Row) -> bool, v: seq<Row>)
    requires IsPeerTest(peer) && v != []
    ensures
      var m := FirstGroup(peer, v, 1);
      && (forall i, j :: 0 <= i < m && 0 <= j < m ==> Together(peer, v, i, j))
      && (forall i, j :: 0 <= i < m <= j < |v| ==> !Together(peer, v, i, j) && !Together(peer, v, j, i))
  {
    FirstGroupEnds(peer, v, 1);
    var m := FirstGroup(peer, v, 1);
    forall k | 0 < k < m ensures peer(v[k], v[k - 1]) {
      assert k > 1 ==> peer(v[k - 1], v[0]);
    }
    if m < |v| {
      assert m > 1 ==> peer(v[m - 1], v[0]);
      assert !peer(v[m], v[m - 1]);
    }
  }

  lemma {:induction false} TogetherInRest(peer: (Row, Row) -> bool, v: seq<Row>, m: nat, i: int, j: int)
    requires m <= i < |v| && m <= j < |v|
    ensures Together(peer, v, i, j) <==> Together(peer, v[m..], i - m, j - m)
  {
    var rest := v[m..];
    if Together(peer, v, i, j) {
      forall k | 0 < k < |rest| && (i - m < k <= j - m || j - m < k <= i - m) ensures peer(rest[k], rest[k - 1]) {
        assert peer(v[k + m], v[k + m - 1]);
      }
    }
    if Together(peer, rest, i - m, j - m) {
      forall k | 0 < k < |v| && (i < k <= j || j < k <= i) ensures peer(v[k], v[k - 1]) {
        assert peer(rest[k - m], rest[k - m - 1]);
      }
    }
  }

  /** In the first group the rows ahead are the smaller values of the group. */
  lemma {:induction false} AheadInFirst(cmp: (Value, Value) -> int, peer: (Row, Row) -> bool, v: seq<Row>, ignoreNulls: bool, j: nat, strict: bool)
    requires IsPeerTest(peer) && v != [] && j < FirstGroup(peer, v, 1)
    ensures HowMany(0, |v|, Ahead(cmp, peer, v, ignoreNulls, j, strict))
         == CountBelow(cmp, Kept(v[..FirstGroup(peer, v, 1)], ignoreNulls), v[j].val, strict)
  {
    hide HowMany, Counts, Kept, Together;
    var m, ahead := FirstGroup(peer, v, 1), Ahead(cmp, peer, v, ignoreNulls, j, strict);
    FirstGroupTogether(peer, v);
    HowManySplit(0, m, |v|, ahead);
    HowManyNone(m, |v|, ahead);
    CountInGroup(cmp, v, ignoreNulls, m, v[j].val, strict, ahead);
  }

  /** Past the first group all of its rows are ahead. */
  lemma {:induction false} AheadInRest(cmp: (Value, Value) -> int, peer: (Row, Row) -> bool, v: seq<Row>, ignoreNulls: bool, j: nat, strict: bool)
    requires IsPeerTest(peer) && v != [] && FirstGroup(peer, v, 1) <= j < |v|
    ensures
      var m := FirstGroup(peer, v, 1);
      HowMany(0, |v|, Ahead(cmp, peer, v, ignoreNulls, j, strict))
      == |Kept(v[..m], ignoreNulls)| + HowMany(0, |v| - m, Ahead(cmp, peer, v[m..], ignoreNulls, j - m, strict))
  {
    hide HowMany, Counts, Kept, Together;
    var m, ahead := FirstGroup(peer, v, 1), Ahead(cmp, peer, v, ignoreNulls, j, strict);
    var later := Ahead(cmp, peer, v[m..], ignoreNulls, j - m, strict);
    FirstGroupTogether(peer, v);
    HowManySplit(0, m, |v|, ahead);
    CountKept(v, ignoreNulls, m, ahead);
    forall i | m <= i < |v| ensures ahead(i) <==> later(i - m) {
      TogetherInRest(peer, v, m, i, j);
    }
    HowManyShifted(m, |v|, m, ahead, later);
  }

  lemma {:induction false} RankedUnfolds(cmp: (Value, Value) -> int, peer: (Row, Row) -> bool, v: seq<Row>, ignoreNulls: bool)
    requires v != []
    ensures
      var m := FirstGroup(peer, v, 1);
      Ranked(cmp, peer, v, ignoreNulls) == Sort(cmp, Kept(v[..m], ignoreNulls)) + Ranked(cmp, peer, v[m..], ignoreNulls)
  {
    hide Kept, Sort, FirstGroup;
    var m, groups := FirstGroup(peer, v, 1), GroupValues(peer, v, ignoreNulls);
    assert groups[1..] == GroupValues(peer, v[m..], ignoreNulls);
  }

  /** In sorted order the value with a rank is at its position. */
  lemma {:induction false} SortedPlace(cmp: (Value, Value) -> int, s: seq<Value>, n: nat, x: Value)
    requires TotalPreorder(cmp) && CountBelow(cmp, s, x, true) < n <= CountBelow(cmp, s, x, false)
    ensures n <= |s| == |Sort(cmp, s)| && cmp(Sort(cmp, s)[n - 1], x) == 0
  {
    hide CountBelow;
    var t := Sort(cmp, s);
    SortSorts(cmp, s);
    CountIsPermutationInvariant(cmp, s, t, x, true);
    CountIsPermutationInvariant(cmp, s, t, x, false);
    CountSplitsSorted(cmp, t, x, true);
    CountSplitsSorted(cmp, t, x, false);
    assert Below(cmp, t[n - 1], x, false) && !Below(cmp, t[n - 1], x, true);
  }

  lemma {:induction false} PlaceOfSorted(cmp: (Value, Value) -> int, s: seq<Value>, n: nat)
    requires TotalPreorder(cmp) && 1 <= n <= |s|
    ensures |Sort(cmp, s)| == |s| && Sort(cmp, s)[n - 1] in s
    ensures CountBelow(cmp, s, Sort(cmp, s)[n - 1], true) < n <= CountBelow(cmp, s, Sort(cmp, s)[n - 1], false)
  {
    hide CountBelow;
    var t := Sort(cmp, s);
    SortSorts(cmp, s);
    var x := t[n - 1];
    CountIsPermutationInvariant(cmp, s, t, x, true);
    CountIsPermutationInvariant(cmp, s, t, x, false);
    CountSplitsSorted(cmp, t, x, true);
    CountSplitsSorted(cmp, t, x, false);
    assert !Below(cmp, t[n - 1], x, true) && Below(cmp, t[n - 1], x, false);
    assert x in multiset(t);
  }

  /** The row with a place has the value at that place of the ranking. */
  lemma {:induction false} PlaceIsValue(cmp: (Value, Value) -> int, peer: (Row, Row) -> bool, v: seq<Row>, ignoreNulls: bool, n: nat, j: nat)
    requires TotalPreorder(cmp) && IsPeerTest(peer) && HasPlace(cmp, peer, v, ignoreNulls, n, j)
    ensures n <= |Ranked(cmp, peer, v, ignoreNulls)| && cmp(Ranked(cmp, peer, v, ignoreNulls)[n - 1], v[j].val) == 0
    decreases |v|
  {
    hide HowMany, Counts, Kept, Ahead, CountBelow, Sort, Ranked, TotalPreorder, IsPeerTest;
    var m := FirstGroup(peer, v, 1);
    var first := Kept(v[..m], ignoreNulls);
    RankedUnfolds(cmp, peer, v, ignoreNulls);
    if j < m {
      AheadInFirst(cmp, peer, v, ignoreNulls, j, true);
      AheadInFirst(cmp, peer, v, ignoreNulls, j, false);
      SortedPlace(cmp, first, n, v[j].val);
    } else {
      AheadInRest(cmp, peer, v, ignoreNulls, j, true);
      AheadInRest(cmp, peer, v, ignoreNulls, j, false);
      SortSorts(cmp, first);
      PlaceIsValue(cmp, peer, v[m..], ignoreNulls, n - |first|, j - m);
    }
  }

  lemma {:induction false} KeptOccurs(v: seq<Row>, ignoreNulls: bool, m: nat, x: Value) returns (j: nat)
    requires m <= |v| && x in Kept(v[..m], ignoreNulls)
    ensures j < m && Counts(v[j], ignoreNulls) && v[j].val == x
    decreases m
  {
    hide Kept, Counts;
    j := 0;
    if m == 0 {
      KeptOfNone(v[..0], ignoreNulls);
    } else {
      KeptOneMore(v, ignoreNulls, 0, m - 1);
      assert v[0..m] == v[..m] && v[0..m - 1] == v[..m - 1];
      if Counts(v[m - 1], ignoreNulls) && v[m - 1].val == x {
        j := m - 1;
      } else {
        j := KeptOccurs(v, ignoreNulls, m - 1, x);
      }
    }
  }

  /** Every place of the ranking is that of a row. */
  lemma {:induction false} ValueHasPlace(cmp: (Value, Value) -> int, peer: (Row, Row) -> bool, v: seq<Row>, ignoreNulls: bool, n: nat) returns (j: nat)
    requires TotalPreorder(cmp) && IsPeerTest(peer) && 1 <= n <= |Ranked(cmp, peer, v, ignoreNulls)|
    ensures HasPlace(cmp, peer, v, ignoreNulls, n, j) && v[j].val == Ranked(cmp, peer, v, ignoreNulls)[n - 1]
    decreases |v|
  {
    hide HowMany, Counts, Kept, Ahead, CountBelow, Sort, TotalPreorder, IsPeerTest, Ranked;
    j := 0;
    RankedOfNone(cmp, peer, v, ignoreNulls);
    var m := FirstGroup(peer, v, 1);
    var first := Kept(v[..m], ignoreNulls);
    RankedUnfolds(cmp, peer, v, ignoreNulls);
    SortSorts(cmp, first);
    if n <= |first| {
      PlaceOfSorted(cmp, first, n);
      j := KeptOccurs(v, ignoreNulls, m, Sort(cmp, first)[n - 1]);
      AheadInFirst(cmp, peer, v, ignoreNulls, j, true);
      AheadInFirst(cmp, peer, v, ignoreNulls, j, false);
    } else {
      j := ValueHasPlace(cmp, peer, v[m..], ignoreNulls, n - |first|);
      j := j + m;
      AheadInRest(cmp, peer, v, ignoreNulls, j, true);
      AheadInRest(cmp, peer, v, ignoreNulls, j, false);
    }
  }

  lemma {:induction false} RankedSize(cmp: (Value, Value) -> int, peer: (Row, Row) -> bool, v: seq<Row>, ignoreNulls: bool, holds: int -> bool)
    requires TotalPreorder(cmp) && forall i :: 0 <= i < |v| ==> (holds(i) <==> Counts(v[i], ignoreNulls))
    ensures |Ranked(cmp, peer, v, ignoreNulls)| == HowMany(0, |v|, holds)
  {
    hide HowMany, Counts;
    CountKept(v, ignoreNulls, |v|, holds);
    assert v[..|v|] == v;
    RankedHasAll(cmp, peer, v, ignoreNulls);
  }

  lemma {:induction false} RankedHasAll(cmp: (Value, Value) -> int, peer: (Row, Row) -> bool, v: seq<Row>, ignoreNulls: bool)
    requires TotalPreorder(cmp)
    ensures |Ranked(cmp, peer, v, ignoreNulls)| == |Kept(v, ignoreNulls)|
    decreases |v|
  {
    hide Kept, Sort, FirstGroup, Ranked, TotalPreorder;
    if v == [] {
      RankedOfNone(cmp, peer, v, ignoreNulls);
    } else {
      var m := FirstGroup(peer, v, 1);
      RankedUnfolds(cmp, peer, v, ignoreNulls);
      SortSorts(cmp, Kept(v[..m], ignoreNulls));
      RankedHasAll(cmp, peer, v[m..], ignoreNulls);
      KeptOfBoth(v[..m], v[m..], ignoreNulls);
      assert v[..m] + v[m..] == v;
    }
  }

  lemma {:induction false} RankedOfNone(cmp: (Value, Value) -> int, peer: (Row, Row) -> bool, v: seq<Row>, ignoreNulls: bool)
    ensures v == [] ==> Ranked(cmp, peer, v, ignoreNulls) == [] && Kept(v, ignoreNulls) == []
  {
  }

  // ---- The rows of a frame

  /** A row that counts: not excluded, and neither NULL nor MISSING if these are ignored. */
  predicate Counting(row: Row, ignoreNulls: bool) {
    !row.excluded && (ignoreNulls ==> row.val != Null && row.val != Missing)
  }

  /** Rows `i` and `j` are one row, or where peers count as duplicates no ORDER BY key changes from one to the other. */
  ghost predicate Tied(rows: seq<Row>, duplicates: bool, i: int, j: int) {
    || i == j
    || (duplicates && forall k :: 0 < k < |rows| && (i < k <= j || j < k <= i) ==>
          && |rows[k].keys| == |rows[k - 1].keys|
          && forall c :: 0 <= c < |rows[k].keys| ==> Collate(rows[k].keys[c], rows[k - 1].keys[c]) == 0)
  }

  /** Row `i` comes before row `j`, seen from the first or from the last row; tied rows by value, and level ones only if not strict. */
  ghost predicate Before(rows: seq<Row>, fromLast: bool, duplicates: bool, i: int, j: int, strict: bool)
    requires 0 <= i < |rows| && 0 <= j < |rows|
  {
    if Tied(rows, duplicates, i, j) then
      var c := Collate(rows[i].val, rows[j].val);
      (if fromLast then c > 0 else c < 0) || (!strict && c == 0)
    else if fromLast then j < i
    else i < j
  }

  /** Fewer than `n` rows that count come before row `j`, but `n` do with those level with it. */
  ghost predicate IsNth(rows: seq<Row>, lo: nat, hi: int, n: nat, fromLast: bool, ignoreNulls: bool, duplicates: bool, j: int)
    requires hi < |rows|
  {
    && lo <= j <= hi && Counting(rows[j], ignoreNulls)
    && |set i | lo <= i <= hi && Counting(rows[i], ignoreNulls) && Before(rows, fromLast, duplicates, i, j, true)| < n
    && n <= |set i | lo <= i <= hi && Counting(rows[i], ignoreNulls) && Before(rows, fromLast, duplicates, i, j, false)|
  }

  /** Where a row is visited. */
  function Turn(lo: nat, hi: int, fromLast: bool, i: int): int {
    if fromLast then hi - i else i - lo
  }

  lemma {:induction false} VisitedAt(rows: seq<Row>, lo: nat, hi: int, fromLast: bool, i: int)
    requires lo <= i <= hi < |rows|
    ensures 0 <= Turn(lo, hi, fromLast, i) < |Visited(rows, lo, hi, DirectionOf(fromLast))| == hi + 1 - lo
    ensures Visited(rows, lo, hi, DirectionOf(fromLast))[Turn(lo, hi, fromLast, i)] == rows[i]
  {
  }

  lemma {:induction false} TiedIsTogether(rows: seq<Row>, duplicates: bool, i: int, j: int)
    requires 0 <= i < |rows| && 0 <= j < |rows|
    ensures Tied(rows, duplicates, i, j) <==> Together(PeerTest(duplicates), rows, i, j)
  {
    hide Collate;
    if !duplicates && i != j {
      var k := if i < j then j else i;
      assert !NoPeers(rows[k], rows[k - 1]);
    }
  }

  /** Rows are together exactly if they are when visited. */
  lemma {:induction false} TogetherWhenVisited(peer: (Row, Row) -> bool, rows: seq<Row>, lo: nat, hi: int, fromLast: bool, i: int, j: int)
    requires IsPeerTest(peer) && lo <= i <= hi < |rows| && lo <= j <= hi
    ensures Together(peer, rows, i, j)
       <==> Together(peer, Visited(rows, lo, hi, DirectionOf(fromLast)), Turn(lo, hi, fromLast, i), Turn(lo, hi, fromLast, j))
  {
    hide Visited;
    var v, a, b := Visited(rows, lo, hi, DirectionOf(fromLast)), Turn(lo, hi, fromLast, i), Turn(lo, hi, fromLast, j);
    VisitedAt(rows, lo, hi, fromLast, i);
    if Together(peer, rows, i, j) {
      forall k | 0 < k < |v| && (a < k <= b || b < k <= a) ensures peer(v[k], v[k - 1]) {
        VisitedAt(rows, lo, hi, fromLast, if fromLast then hi - k else k + lo);
        VisitedAt(rows, lo, hi, fromLast, if fromLast then hi - k + 1 else k + lo - 1);
        assert if fromLast then peer(rows[hi - k + 1], rows[hi - k]) else peer(rows[k + lo], rows[k + lo - 1]);
      }
    }
    if Together(peer, v, a, b) {
      forall k | 0 < k < |rows| && (i < k <= j || j < k <= i) ensures peer(rows[k], rows[k - 1]) {
        VisitedAt(rows, lo, hi, fromLast, k);
        VisitedAt(rows, lo, hi, fromLast, k - 1);
        assert if fromLast then peer(v[hi - k + 1], v[hi - k]) else peer(v[k - lo], v[k - lo - 1]);
      }
    }
  }

  /** Counting rows of the frame is counting the visited rows. */
  lemma {:induction false} CountVisited(rows: seq<Row>, lo: nat, hi: int, fromLast: bool, holds: int -> bool, other: int -> bool)
    requires lo <= hi + 1 <= |rows|
    requires forall i :: lo <= i < hi + 1 ==> (holds(i) <==> other(Turn(lo, hi, fromLast, i)))
    ensures HowMany(lo, hi + 1, holds) == HowMany(0, hi + 1 - lo, other)
  {
    hide HowMany;
    if fromLast {
      HowManyMirrored(lo, hi + 1, hi, holds, other);
    } else {
      HowManyShifted(lo, hi + 1, lo, holds, other);
    }
  }

  lemma {:induction false} BeforeIsAhead(rows: seq<Row>, lo: nat, hi: int, fromLast: bool, ignoreNulls: bool, duplicates: bool, i: int, j: int, strict: bool)
    requires lo <= i <= hi < |rows| && lo <= j <= hi
    ensures 0 <= Turn(lo, hi, fromLast, j) < |Visited(rows, lo, hi, DirectionOf(fromLast))|
    ensures
      var d := DirectionOf(fromLast);
      Counting(rows[i], ignoreNulls) && Before(rows, fromLast, duplicates, i, j, strict)
      <==> Ahead(Toward(Collate, d), PeerTest(duplicates), Visited(rows, lo, hi, d), ignoreNulls, Turn(lo, hi, fromLast, j), strict)(Turn(lo, hi, fromLast, i))
  {
    hide Collate, Tied, Together, Visited, PeerTest, IsPeerTest;
    VisitedAt(rows, lo, hi, fromLast, i);
    VisitedAt(rows, lo, hi, fromLast, j);
    PeerTestIs(duplicates);
    TiedIsTogether(rows, duplicates, i, j);
    TogetherWhenVisited(PeerTest(duplicates), rows, lo, hi, fromLast, i, j);
  }

  lemma {:induction false} CountBefore(rows: seq<Row>, lo: nat, hi: int, fromLast: bool, ignoreNulls: bool, duplicates: bool, j: int, strict: bool)
    requires lo <= j <= hi < |rows|
    ensures
      var d := DirectionOf(fromLast);
      var v := Visited(rows, lo, hi, d);
      && 0 <= Turn(lo, hi, fromLast, j) < |v|
      && |set i | lo <= i <= hi && Counting(rows[i], ignoreNulls) && Before(rows, fromLast, duplicates, i, j, strict)|
         == HowMany(0, |v|, Ahead(Toward(Collate, d), PeerTest(duplicates), v, ignoreNulls, Turn(lo, hi, fromLast, j), strict))
  {
    hide HowMany, Before, Ahead, Visited, Counting, Turn, Toward, PeerTest;
    var d := DirectionOf(fromLast);
    var v := Visited(rows, lo, hi, d);
    VisitedAt(rows, lo, hi, fromLast, j);
    var before := i => lo <= i <= hi && Counting(rows[i], ignoreNulls) && Before(rows, fromLast, duplicates, i, j, strict);
    var ahead := Ahead(Toward(Collate, d), PeerTest(duplicates), v, ignoreNulls, Turn(lo, hi, fromLast, j), strict);
    forall i | lo <= i < hi + 1 ensures before(i) <==> ahead(Turn(lo, hi, fromLast, i)) {
      BeforeIsAhead(rows, lo, hi, fromLast, ignoreNulls, duplicates, i, j, strict);
    }
    CountVisited(rows, lo, hi, fromLast, before, ahead);
    AsSet(lo, hi, before);
    assert (set i | lo <= i <= hi && before(i))
        == set i | lo <= i <= hi && Counting(rows[i], ignoreNulls) && Before(rows, fromLast, duplicates, i, j, strict);
  }

  lemma {:induction false} AsSet(lo: int, hi: int, holds: int -> bool)
    ensures HowMany(lo, hi + 1, holds) == |set i | lo <= i <= hi && holds(i)|
  {
    assert (set i | lo <= i < hi + 1 && holds(i)) == set i | lo <= i <= hi && holds(i);
  }

  /** The n-th value is that of any row with n - 1 rows before it. */
  lemma {:induction false} NthByCounting(rows: seq<Row>, lo: nat, hi: int, n: nat, fromLast: bool, ignoreNulls: bool, duplicates: bool, j: int)
    requires n >= 1 && lo <= hi + 1 <= |rows| && IsNth(rows, lo, hi, n, fromLast, ignoreNulls, duplicates, j)
    ensures Collate(NthOf(rows, lo, hi, n, fromLast, ignoreNulls, duplicates), rows[j].val) == 0
  {
    hide HowMany, Collate, Before, Ranked, Ahead, TotalPreorder, IsPeerTest, Visited, PeerTest;
    var d := DirectionOf(fromLast);
    var v := Visited(rows, lo, hi, d);
    VisitedAt(rows, lo, hi, fromLast, j);
    CountBefore(rows, lo, hi, fromLast, ignoreNulls, duplicates, j, true);
    CountBefore(rows, lo, hi, fromLast, ignoreNulls, duplicates, j, false);
    CollateIsTotal();
    TowardIsTotal(Collate, d);
    PeerTestIs(duplicates);
    PlaceIsValue(Toward(Collate, d), PeerTest(duplicates), v, ignoreNulls, n, Turn(lo, hi, fromLast, j));
  }

  lemma {:induction false} CountingRows(rows: seq<Row>, lo: nat, hi: int, fromLast: bool, ignoreNulls: bool, cmp: (Value, Value) -> int, peer: (Row, Row) -> bool)
    requires lo <= hi + 1 <= |rows| && TotalPreorder(cmp)
    ensures |Ranked(cmp, peer, Visited(rows, lo, hi, DirectionOf(fromLast)), ignoreNulls)|
         == |set i | lo <= i <= hi && Counting(rows[i], ignoreNulls)|
  {
    hide HowMany, Ranked, TotalPreorder, Turn, Visited;
    var v := Visited(rows, lo, hi, DirectionOf(fromLast));
    var counting, visited := i => lo <= i <= hi && Counting(rows[i], ignoreNulls), i => 0 <= i < |v| && Counts(v[i], ignoreNulls);
    VisitedSize(rows, lo, hi, DirectionOf(fromLast));
    forall i | lo <= i < hi + 1 ensures counting(i) <==> visited(Turn(lo, hi, fromLast, i)) {
      VisitedAt(rows, lo, hi, fromLast, i);
    }
    CountVisited(rows, lo, hi, fromLast, counting, visited);
    AsSet(lo, hi, counting);
    assert (set i | lo <= i <= hi && counting(i)) == set i | lo <= i <= hi && Counting(rows[i], ignoreNulls);
    RankedSize(cmp, peer, v, ignoreNulls, visited);
  }

  lemma {:induction false} VisitedSize(rows: seq<Row>, lo: nat, hi: int, d: int)
    requires lo <= hi + 1 <= |rows|
    ensures |Visited(rows, lo, hi, d)| == hi + 1 - lo
  {
  }

  /** There is such a row whose value it is if n rows of the frame count, and otherwise the n-th value is NULL. */
  lemma {:induction false} NthIsARow(rows: seq<Row>, lo: nat, hi: int, n: nat, fromLast: bool, ignoreNulls: bool, duplicates: bool) returns (j: int)
    requires n >= 1 && lo <= hi + 1 <= |rows|
    ensures
      var counting := |set i | lo <= i <= hi && Counting(rows[i], ignoreNulls)|;
      if n <= counting
      then IsNth(rows, lo, hi, n, fromLast, ignoreNulls, duplicates, j) && NthOf(rows, lo, hi, n, fromLast, ignoreNulls, duplicates) == rows[j].val
      else NthOf(rows, lo, hi, n, fromLast, ignoreNulls, duplicates) == Null
  {
    hide HowMany, Collate, Before, Ranked, Ahead, TotalPreorder, IsPeerTest, Visited, PeerTest, Toward;
    j := 0;
    var d := DirectionOf(fromLast);
    var v, cmp, peer := Visited(rows, lo, hi, d), Toward(Collate, d), PeerTest(duplicates);
    CollateIsTotal();
    TowardIsTotal(Collate, d);
    PeerTestIs(duplicates);
    CountingRows(rows, lo, hi, fromLast, ignoreNulls, cmp, peer);
    VisitedSize(rows, lo, hi, d);
    if n <= |Ranked(cmp, peer, v, ignoreNulls)| {
      var k := ValueHasPlace(cmp, peer, v, ignoreNulls, n);
      j := if fromLast then hi - k else k + lo;
      VisitedAt(rows, lo, hi, fromLast, j);
      CountBefore(rows, lo, hi, fromLast, ignoreNulls, duplicates, j, true);
      CountBefore(rows, lo, hi, fromLast, ignoreNulls, duplicates, j, false);
    }
  }

  // ---- Rows whose neighbours have other keys

  lemma {:induction false} SeparateRowsKeepOrder(cmp: (Value, Value) -> int, peer: (Row, Row) -> bool, v: seq<Row>, ignoreNulls: bool)
    requires forall k :: 0 < k < |v| ==> !peer(v[k], v[k - 1])
    ensures Ranked(cmp, peer, v, ignoreNulls) == Kept(v, ignoreNulls)
    decreases |v|
  {
    hide Kept, Ranked;
    if v == [] {
      RankedOfNone(cmp, peer, v, ignoreNulls);
    } else {
      assert FirstGroup(peer, v, 1) == 1;
      RankedUnfolds(cmp, peer, v, ignoreNulls);
      var rest := v[1..];
      forall k | 0 < k < |rest| ensures !peer(rest[k], rest[k - 1]) {
        assert !peer(v[k + 1], v[k]);
      }
      SeparateRowsKeepOrder(cmp, peer, rest, ignoreNulls);
      KeptFromFront(v, ignoreNulls);
      SortOfAtMostOne(cmp, v[0], ignoreNulls);
      assert v[..1] == [v[0]];
    }
  }

  lemma {:induction false} SortOfAtMostOne(cmp: (Value, Value) -> int, row: Row, ignoreNulls: bool)
    ensures Sort(cmp, Kept([row], ignoreNulls)) == Kept([row], ignoreNulls)
  {
    assert [row][..0] == [];
  }

  /** Some ORDER BY key of the two rows differs. */
  ghost predicate KeysDiffer(a: Row, b: Row) {
    |a.keys| == |b.keys| && exists c :: 0 <= c < |a.keys| && Collate(a.keys[c], b.keys[c]) != 0
  }

  /** Where every row of the frame differs from the next in some key, the rows are ranked in their own order. */
  lemma {:induction false} DifferentKeysKeepOrder(rows: seq<Row>, lo: nat, hi: int, n: nat, fromLast: bool, ignoreNulls: bool)
    requires n >= 1 && lo <= hi + 1 <= |rows| && forall k :: lo < k <= hi ==> KeysDiffer(rows[k], rows[k - 1])
    ensures NthOf(rows, lo, hi, n, fromLast, ignoreNulls, true) == NthOf(rows, lo, hi, n, fromLast, ignoreNulls, false)
  {
    hide Collate, Ranked, Visited, KeysDiffer, SameKeys;
    var d := DirectionOf(fromLast);
    var v := Visited(rows, lo, hi, d);
    VisitedSize(rows, lo, hi, d);
    forall k | 0 < k < |v| ensures !SameKeys(v[k], v[k - 1]) {
      var i := if fromLast then hi - k else k + lo;
      VisitedAt(rows, lo, hi, fromLast, i);
      VisitedAt(rows, lo, hi, fromLast, if fromLast then i + 1 else i - 1);
      NotSameKeys(rows[if fromLast then i + 1 else i], rows[if fromLast then i else i - 1]);
    }
    SeparateRowsKeepOrder(Toward(Collate, d), SameKeys, v, ignoreNulls);
    SinglesAreKept(Toward(Collate, d), v, ignoreNulls);
  }

  lemma {:induction false} NotSameKeys(a: Row, b: Row)
    requires KeysDiffer(a, b)
    ensures !SameKeys(a, b) && !SameKeys(b, a)
  {
    hide Collate;
    SameKeysIsEquivalence(a, b, a);
    SameKeysIsEquivalence(b, a, b);
  }

  // ---- LAG and LEAD

  lemma {:induction false} KeptAt(v: seq<Row>, ignoreNulls: bool, k: nat, holds: int -> bool)
    requires k < |v| && Counts(v[k], ignoreNulls) && forall i :: 0 <= i < k ==> (holds(i) <==> Counts(v[i], ignoreNulls))
    ensures HowMany(0, k, holds) < |Kept(v, ignoreNulls)| && Kept(v, ignoreNulls)[HowMany(0, k, holds)] == v[k].val
  {
    hide HowMany, Kept, Counts;
    CountKept(v, ignoreNulls, k, holds);
    KeptOneMore(v, ignoreNulls, 0, k);
    assert v[0..k] == v[..k] && v[0..k + 1] + v[k + 1..] == v;
    KeptOfBoth(v[0..k + 1], v[k + 1..], ignoreNulls);
  }

  ghost function CountingAt(rows: seq<Row>, ignoreNulls: bool): int -> bool {
    i => 0 <= i < |rows| && Counting(rows[i], ignoreNulls)
  }

  lemma {:induction false} CountingSet(rows: seq<Row>, ignoreNulls: bool, a: int, b: int)
    requires 0 <= a && b <= |rows|
    ensures HowMany(a, b, CountingAt(rows, ignoreNulls)) == |set i | a <= i < b && Counting(rows[i], ignoreNulls)|
  {
    assert (set i | a <= i < b && CountingAt(rows, ignoreNulls)(i)) == set i | a <= i < b && Counting(rows[i], ignoreNulls);
  }

  /** Walking back from row `c` over the rows before it, row `j` is met after those between. */
  lemma {:induction false} WalkedBack(rows: seq<Row>, c: nat, ignoreNulls: bool, j: int)
    requires -1 <= j < c <= |rows|
    ensures HowMany(0, c - 1 - j, CountingAt(Reversed(rows[..c]), ignoreNulls)) == |set i | j + 1 <= i < c && Counting(rows[i], ignoreNulls)|
  {
    hide HowMany, Counting;
    CountingSet(rows, ignoreNulls, j + 1, c);
    HowManyMirrored(j + 1, c, c - 1, CountingAt(rows, ignoreNulls), CountingAt(Reversed(rows[..c]), ignoreNulls));
  }

  lemma {:induction false} WalkedAhead(rows: seq<Row>, c: nat, ignoreNulls: bool, j: int)
    requires c <= j <= |rows|
    ensures HowMany(0, j - c, CountingAt(rows[c..], ignoreNulls)) == |set i | c <= i < j && Counting(rows[i], ignoreNulls)|
  {
    hide HowMany, Counting;
    CountingSet(rows, ignoreNulls, c, j);
    HowManyShifted(c, j, c, CountingAt(rows, ignoreNulls), CountingAt(rows[c..], ignoreNulls));
  }

  /** LAG meets row `j` after all rows that count between it and the current row, and so does LEAD. */
  lemma {:induction false} OffsetByCounting(rows: seq<Row>, cItem: nat, lag: bool, ignoreNulls: bool, j: int)
    requires cItem < |rows| && (if lag then 0 <= j < cItem else cItem < j < |rows|) && Counting(rows[j], ignoreNulls)
    ensures
      var a, b := if lag then j + 1 else cItem + 1, if lag then cItem else j;
      var between := |set i | a <= i < b && Counting(rows[i], ignoreNulls)|;
      between < |Walked(rows, cItem, lag, ignoreNulls)| && Walked(rows, cItem, lag, ignoreNulls)[between] == rows[j].val
  {
    hide HowMany, Kept;
    if lag {
      var v := Reversed(rows[..cItem]);
      WalkedBack(rows, cItem, ignoreNulls, j);
      KeptAt(v, ignoreNulls, cItem - 1 - j, CountingAt(v, ignoreNulls));
    } else {
      var v := rows[cItem + 1..];
      WalkedAhead(rows, cItem + 1, ignoreNulls, j);
      KeptAt(v, ignoreNulls, j - cItem - 1, CountingAt(v, ignoreNulls));
    }
  }

  /** As many values are met as rows on that side count. */
  lemma {:induction false} OffsetReaches(rows: seq<Row>, cItem: nat, lag: bool, ignoreNulls: bool)
    requires cItem < |rows|
    ensures
      var a, b := if lag then 0 else cItem + 1, if lag then cItem else |rows|;
      |Walked(rows, cItem, lag, ignoreNulls)| == |set i | a <= i < b && Counting(rows[i], ignoreNulls)|
  {
    hide HowMany, Kept;
    var v := if lag then Reversed(rows[..cItem]) else rows[cItem + 1..];
    CountKept(v, ignoreNulls, |v|, CountingAt(v, ignoreNulls));
    assert v[..|v|] == v;
    if lag {
      WalkedBack(rows, cItem, ignoreNulls, -1);
    } else {
      WalkedAhead(rows, cItem + 1, ignoreNulls, |rows|);
    }
  }
}
