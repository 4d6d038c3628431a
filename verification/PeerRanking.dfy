/**
 What the window value functions mean: the rows of a frame are cut into peer groups, each
 group is sorted, the groups are concatenated, and the first n values are kept. This module
 defines that ranking and shows how a list of at most n values can be kept up to date row by row.
 */
module PeerRanking {
  import opened Sorting
  import opened Collation

  /** A row of the partition: its ORDER BY keys, the evaluated operand, and whether the frame excludes it. */
  datatype Row = Row(keys: seq<Value>, val: Value, excluded: bool)

  /** Excluded rows do not count, and with IGNORE NULLS neither do NULL and MISSING. */
  predicate Counts(r: Row, ignoreNulls: bool) {
    !r.excluded && !(ignoreNulls && TypeOf(r.val) <= NULL)
  }

  function Take<T>(n: nat, s: seq<T>): seq<T> {
    if |s| <= n then s else s[..n]
  }

  /** The values of the rows that count. */
  function Kept(rows: seq<Row>, ignoreNulls: bool): seq<Value> {
    if rows == [] then []
    else
      var r := rows[|rows| - 1];
      Kept(rows[..|rows| - 1], ignoreNulls) + if Counts(r, ignoreNulls) then [r.val] else []
  }

  /** Length of the peer group of the first row, of which `n` rows are known. */
  function FirstGroup(peer: (Row, Row) -> bool, rows: seq<Row>, n: nat): (m: nat)
    requires 1 <= n <= |rows|
    ensures n <= m <= |rows|
    decreases |rows| - n
  {
    if n < |rows| && peer(rows[n], rows[0]) then FirstGroup(peer, rows, n + 1) else n
  }

  /** The values of each peer group in turn. */
  function GroupValues(peer: (Row, Row) -> bool, rows: seq<Row>, ignoreNulls: bool): seq<seq<Value>> {
    if rows == [] then []
    else
      var m := FirstGroup(peer, rows, 1);
      [Kept(rows[..m], ignoreNulls)] + GroupValues(peer, rows[m..], ignoreNulls)
  }

  /** Each group sorted, the groups one after the other. */
  function SortedGroups(cmp: (Value, Value) -> int, groups: seq<seq<Value>>): seq<Value> {
    if groups == [] then [] else Sort(cmp, groups[0]) + SortedGroups(cmp, groups[1..])
  }

  /** The whole ranking of a frame. */
  function Ranked(cmp: (Value, Value) -> int, peer: (Row, Row) -> bool, rows: seq<Row>, ignoreNulls: bool): seq<Value> {
    SortedGroups(cmp, GroupValues(peer, rows, ignoreNulls))
  }

  /** The order of the rows inside a peer group does not matter, up to collation. */
  lemma {:induction false} RankingIgnoresOrderInGroups(cmp: (Value, Value) -> int, groups: seq<seq<Value>>, other: seq<seq<Value>>)
    requires TotalPreorder(cmp)
    requires |groups| == |other| && forall i :: 0 <= i < |groups| ==> multiset(groups[i]) == multiset(other[i])
    ensures SameUpToCollation(cmp, SortedGroups(cmp, groups), SortedGroups(cmp, other))
  {
    if groups != [] {
      SortIgnoresOrder(cmp, groups[0], other[0]);
      RankingIgnoresOrderInGroups(cmp, groups[1..], other[1..]);
    }
  }

  // ---- Bounded insertion

  lemma {:induction false} TakeOfMore<T>(n: nat, x: T, s: seq<T>)
    requires n > 0
    ensures Take(n, [x] + s) == [x] + Take(n - 1, s)
  {
  }

  /** Inserting into a truncated list and truncating again loses nothing that is wanted. */
  lemma {:induction false} InsertIntoTruncated(cmp: (Value, Value) -> int, x: Value, s: seq<Value>, n: nat)
    ensures Take(n, Insert(cmp, x, Take(n, s))) == Take(n, Insert(cmp, x, s))
  {
    if n > 0 && |s| > n && cmp(x, s[0]) >= 0 {
      var t := Take(n, s);
      assert t[1..] == Take(n - 1, s[1..]);
      InsertIntoTruncated(cmp, x, s[1..], n - 1);
      assert Insert(cmp, x, s) == [s[0]] + Insert(cmp, x, s[1..]) && Insert(cmp, x, t) == [s[0]] + Insert(cmp, x, t[1..]);
      TakeOfMore(n, s[0], Insert(cmp, x, s[1..]));
      TakeOfMore(n, s[0], Insert(cmp, x, t[1..]));
    }
  }

  /** Insertion happens at the first position whose item collates after the new one. */
  lemma {:induction false} InsertAt(cmp: (Value, Value) -> int, x: Value, s: seq<Value>, j: nat)
    requires j <= |s| && (forall i :: 0 <= i < j ==> cmp(x, s[i]) >= 0)
    requires j < |s| ==> cmp(x, s[j]) < 0
    ensures Insert(cmp, x, s) == s[..j] + [x] + s[j..]
  {
    if j > 0 {
      InsertAt(cmp, x, s[1..], j - 1);
    }
  }

  /** What one new value does to a list whose first `start` items are final. */
  function Offer(cmp: (Value, Value) -> int, list: seq<Value>, start: nat, n: nat, x: Value): seq<Value>
    requires start <= |list| && start <= n
  {
    list[..start] + Take(n - start, Insert(cmp, x, list[start..]))
  }

  lemma {:induction false} OfferAt(cmp: (Value, Value) -> int, list: seq<Value>, start: nat, n: nat, x: Value, c: nat)
    requires start <= c <= |list| <= n
    requires forall i :: start <= i < c ==> cmp(x, list[i]) >= 0
    requires c < |list| ==> cmp(x, list[c]) < 0
    ensures Offer(cmp, list, start, n, x) == Take(n, list[..c] + [x] + list[c..])
  {
    InsertAt(cmp, x, list[start..], c - start);
    TakeOfConcat(n, list[..start], Insert(cmp, x, list[start..]));
    SplitAround(list, start, c, x);
  }

  lemma {:induction false} OfferToFull(cmp: (Value, Value) -> int, list: seq<Value>, n: nat, x: Value)
    requires |list| == n
    ensures Offer(cmp, list, n, n, x) == list
  {
  }

  lemma {:induction false} TakeOfConcat<T>(n: nat, s: seq<T>, t: seq<T>)
    requires |s| <= n
    ensures Take(n, s + t) == s + Take(n - |s|, t)
  {
  }

  lemma {:induction false} SplitAround<T>(s: seq<T>, i: nat, j: nat, x: T)
    requires i <= j <= |s|
    ensures s[..i] + (s[i..][..j - i] + [x] + s[i..][j - i..]) == s[..j] + [x] + s[j..]
  {
    assert s[i..][j - i..] == s[j..];
    assert s[..i] + s[i..][..j - i] == s[..j];
  }

  /** The final items followed by the best of the current group, as far as there is room. */
  function Best(cmp: (Value, Value) -> int, final: seq<Value>, n: nat, group: seq<Value>): seq<Value>
    requires |final| <= n
  {
    final + Take(n - |final|, Sort(cmp, group))
  }

  /** A list that holds the best of the group so far holds the best of the group with one more value. */
  lemma {:induction false} OfferKeepsBest(cmp: (Value, Value) -> int, final: seq<Value>, n: nat, group: seq<Value>, x: Value)
    requires |final| <= n
    ensures Offer(cmp, Best(cmp, final, n, group), |final|, n, x) == Best(cmp, final, n, group + [x])
  {
    var s := Sort(cmp, group);
    var list := final + Take(n - |final|, s);
    assert list[|final|..] == Take(n - |final|, s);
    assert (group + [x])[..|group|] == group;
    InsertIntoTruncated(cmp, x, s, n - |final|);
  }

  /** Appending is enough for a group of a single value. */
  lemma {:induction false} AppendKeepsBest(cmp: (Value, Value) -> int, final: seq<Value>, n: nat, x: Value)
    requires |final| <= n
    ensures Take(n, Best(cmp, final, n, []) + [x]) == Best(cmp, final, n, [x])
  {
    assert [x][..0] == [];
  }

  // ---- Peer groups among the visited rows

  lemma {:induction false} FirstGroupIs(peer: (Row, Row) -> bool, rows: seq<Row>, n: nat, m: nat)
    requires 1 <= n <= m <= |rows|
    requires forall j :: n <= j < m ==> peer(rows[j], rows[0])
    requires m < |rows| ==> !peer(rows[m], rows[0])
    ensures FirstGroup(peer, rows, n) == m
    decreases m - n
  {
    if n < m {
      FirstGroupIs(peer, rows, n + 1, m);
    }
  }

  /** The group that starts at row `g` ends before row `m`, which may lie beyond the visited rows. */
  ghost predicate GroupEnds(peer: (Row, Row) -> bool, v: seq<Row>, g: nat, m: nat) {
    && g < m && g < |v|
    && (forall j :: g < j < m && j < |v| ==> peer(v[j], v[g]))
    && (m < |v| ==> !peer(v[m], v[g]))
  }

  lemma {:induction false} RankedFromGroup(cmp: (Value, Value) -> int, peer: (Row, Row) -> bool,
                                           v: seq<Row>, ignoreNulls: bool, g: nat, m: nat)
    requires GroupEnds(peer, v, g, m)
    ensures var e := if m <= |v| then m else |v|;
      Ranked(cmp, peer, v[g..], ignoreNulls)
      == Sort(cmp, Kept(v[g..e], ignoreNulls)) + Ranked(cmp, peer, v[e..], ignoreNulls)
  {
    var rest, e := v[g..], if m <= |v| then m else |v|;
    FirstGroupIs(peer, rest, 1, e - g);
    assert rest[..e - g] == v[g..e] && rest[e - g..] == v[e..];
    var groups := GroupValues(peer, rest, ignoreNulls);
    assert groups[0] == Kept(v[g..e], ignoreNulls) && groups[1..] == GroupValues(peer, v[e..], ignoreNulls);
  }

  /**
   Progress of a row loop at row `k`: groups before row `g` are final and make `final`; of the
   group from `g` the rows before `k` are in the list as far as there is room.
   */
  ghost predicate Progress(cmp: (Value, Value) -> int, peer: (Row, Row) -> bool, v: seq<Row>, ignoreNulls: bool,
                           n: nat, list: seq<Value>, final: seq<Value>, g: nat, k: nat)
  {
    && g <= k <= |v| && |final| < n
    && list == Best(cmp, final, n, Kept(v[g..k], ignoreNulls))
    && Ranked(cmp, peer, v, ignoreNulls) == final + Ranked(cmp, peer, v[g..], ignoreNulls)
  }

  lemma {:induction false} ProgressStarts(cmp: (Value, Value) -> int, peer: (Row, Row) -> bool, v: seq<Row>, ignoreNulls: bool, n: nat)
    requires n > 0
    ensures Progress(cmp, peer, v, ignoreNulls, n, [], [], 0, 0)
  {
    assert v[0..0] == [] && v[0..] == v;
  }

  /** When the rows run out, the list holds the first n of the ranking. */
  lemma {:induction false} ProgressEnds(cmp: (Value, Value) -> int, peer: (Row, Row) -> bool, v: seq<Row>, ignoreNulls: bool,
                                        n: nat, list: seq<Value>, final: seq<Value>, g: nat, m: nat)
    requires Progress(cmp, peer, v, ignoreNulls, n, list, final, g, |v|)
    requires g == |v| || (m >= |v| && GroupEnds(peer, v, g, m))
    ensures list == Take(n, Ranked(cmp, peer, v, ignoreNulls))
  {
    if g < |v| {
      RankedFromGroup(cmp, peer, v, ignoreNulls, g, m);
    }
    assert v[|v|..] == [];
    TakeOfConcat(n, final, Ranked(cmp, peer, v[g..], ignoreNulls));
  }

  /** A complete group either fills the list for good or becomes final. */
  lemma {:induction false} GroupCloses(cmp: (Value, Value) -> int, peer: (Row, Row) -> bool, v: seq<Row>, ignoreNulls: bool,
                                       n: nat, list: seq<Value>, final: seq<Value>, g: nat, k: nat)
    requires Progress(cmp, peer, v, ignoreNulls, n, list, final, g, k) && GroupEnds(peer, v, g, k)
    ensures |list| == n ==> list == Take(n, Ranked(cmp, peer, v, ignoreNulls))
    ensures |list| < n ==> Progress(cmp, peer, v, ignoreNulls, n, list, list, k, k)
  {
    RankedFromGroup(cmp, peer, v, ignoreNulls, g, k);
    FullOrWhole(n, final, Sort(cmp, Kept(v[g..k], ignoreNulls)), Ranked(cmp, peer, v[k..], ignoreNulls));
    assert v[k..k] == [];
  }

  lemma {:induction false} FullOrWhole<T>(n: nat, final: seq<T>, group: seq<T>, rest: seq<T>)
    requires |final| < n
    ensures
      var list := final + Take(n - |final|, group);
      && (|list| == n ==> list == Take(n, final + (group + rest)))
      && (|list| < n ==> list == final + group && final + (group + rest) == list + rest)
  {
    assert final + (group + rest) == (final + group) + rest;
  }

  /** One more row of the group, counted or not, leaves the best of the group in the list. */
  lemma {:induction false} RowAdds(cmp: (Value, Value) -> int, peer: (Row, Row) -> bool, v: seq<Row>, ignoreNulls: bool,
                                   n: nat, list: seq<Value>, final: seq<Value>, g: nat, k: nat, list': seq<Value>)
    requires Progress(cmp, peer, v, ignoreNulls, n, list, final, g, k) && k < |v|
    requires
      || (!Counts(v[k], ignoreNulls) && list' == list)
      || (Counts(v[k], ignoreNulls) && list' == Offer(cmp, list, |final|, n, v[k].val))
      || (Counts(v[k], ignoreNulls) && g == k && list' == Take(n, list + [v[k].val]))
    ensures Progress(cmp, peer, v, ignoreNulls, n, list', final, g, k + 1)
  {
    hide Ranked, Best, Offer, Kept;
    var group, x := Kept(v[g..k], ignoreNulls), v[k].val;
    KeptOneMore(v, ignoreNulls, g, k);
    if Counts(v[k], ignoreNulls) {
      OfferKeepsBest(cmp, final, n, group, x);
      if g == k {
        KeptOfNone(v[g..k], ignoreNulls);
        assert group + [x] == [x];
        AppendKeepsBest(cmp, final, n, x);
      }
    } else {
      assert group + [] == group;
    }
  }

  lemma {:induction false} KeptOneMore(v: seq<Row>, ignoreNulls: bool, g: nat, k: nat)
    requires g <= k < |v|
    ensures Kept(v[g..k + 1], ignoreNulls) == Kept(v[g..k], ignoreNulls) + if Counts(v[k], ignoreNulls) then [v[k].val] else []
  {
    assert v[g..k + 1][..k - g] == v[g..k];
  }

  lemma {:induction false} KeptOfNone(rows: seq<Row>, ignoreNulls: bool)
    requires rows == []
    ensures Kept(rows, ignoreNulls) == []
  {
  }
}
