/**
 The window value functions FIRST_VALUE, LAST_VALUE, NTH_VALUE, LAG and LEAD: the bounded
 ordered list of algebra/agg_util.go and value/list.go, the aggregates that use it, and the
 row loop of the window operator that feeds it (execution/window.go).
 */
module NthValue {
  import opened Wrappers
  import opened Sorting
  import opened Collation
  import opened PeerRanking

  /** A collation in the direction of the function: 1 is FROM FIRST, -1 is FROM LAST. */
  function Toward(collate: (Value, Value) -> int, direction: int): (Value, Value) -> int {
    if direction > 0 then collate else (a, b) => -collate(a, b)
  }

  lemma {:induction false} TowardIsTotal(collate: (Value, Value) -> int, direction: int)
    requires TotalPreorder(collate)
    ensures TotalPreorder(Toward(collate, direction))
  {
  }

  /** Rows with equal ORDER BY keys. */
  predicate SameKeys(a: Row, b: Row) {
    |a.keys| == |b.keys| && forall i :: 0 <= i < |a.keys| ==> Collate(a.keys[i], b.keys[i]) == 0
  }

  /** With ROWS frames, and for LAG and LEAD, every row is a group of its own. */
  predicate NoPeers(a: Row, b: Row) {
    false
  }

  lemma {:induction false} SameKeysIsEquivalence(a: Row, b: Row, c: Row)
    ensures SameKeys(a, a)
    ensures SameKeys(a, b) ==> SameKeys(b, a)
    ensures SameKeys(a, b) && SameKeys(b, c) ==> SameKeys(a, c)
  {
    CollateIsTotal();
  }

  /** A positive whole number. */
  predicate IsCount(v: Value) {
    v.Number? && v.n > 0.0 && v.n == v.n.Floor as real
  }

  /** The numbers 1, 2, 3 and so on, and nothing else. */
  lemma {:induction false} CountExactly(v: Value, n: nat)
    ensures n >= 1 && v == Number(n as real) ==> IsCount(v) && v.n.Floor == n
    ensures IsCount(v) ==> v.n.Floor >= 1 && v == Number(v.n.Floor as real)
  {
  }

  /** A value function with its list attachment and its count of finalized items. */
  class ValueFunction {
    var nthItem: nat
    var direction: int
    const ignoreNulls: bool
    const collate: (Value, Value) -> int
    var list: seq<Value>
    var startpos: nat
    var default: Value

    ghost predicate Valid()
      reads this
    {
      nthItem >= 1 && (direction == 1 || direction == -1) && startpos <= |list| <= nthItem
    }

    constructor (ignoreNulls: bool, collate: (Value, Value) -> int)
      ensures Valid() && this.ignoreNulls == ignoreNulls && this.collate == collate && list == [] && nthItem == 1 && direction == 1
    {
      this.ignoreNulls, this.collate := ignoreNulls, collate;
      nthItem, direction := 1, 1;
      list, startpos, default := [], 0, Null;
    }

    /** Starts a frame; the second argument must be a positive integer, or the old count stays. */
    method Default(nval: Value, fromLast: bool) returns (ok: bool)
      requires Valid()
      modifies this
      ensures Valid() && list == [] && startpos == 0 && default == Null
      ensures ok <==> IsCount(nval)
      ensures nthItem == if ok then nval.n.Floor else old(nthItem)
      ensures direction == if fromLast then -1 else 1
    {
      ok := nval.Number? && !(nval.n <= 0.0) && nval.n == nval.n.Floor as real;
      if ok {
        nthItem := nval.n.Floor;
      }
      direction := if fromLast then -1 else 1;
      list, startpos, default := [], 0, Null;
    }

    /** Starts the walk of LAG and LEAD: without second argument the offset is 1, without third the default is NULL. */
    method DefaultOfOffset(nval: Option<Value>, third: Option<Value>) returns (ok: bool)
      requires Valid()
      modifies this
      ensures ok <==> nval.None? || IsCount(nval.value)
      ensures ok ==> Valid() && list == [] && startpos == 0
      ensures ok ==> nthItem == (if nval.None? then 1 else nval.value.n.Floor) && default == if third.None? then Null else third.value
    {
      default, nthItem, startpos := Null, 1, 0;
      if third.Some? {
        default := third.value;
      }
      if nval.Some? {
        if !nval.value.Number? || nval.value.n <= 0.0 || nval.value.n != nval.value.n.Floor as real {
          return false;
        }
        nthItem := nval.value.n.Floor;
      }
      list := [];
      ok := true;
    }

    /** `List.Insert`: opens a gap at `pos`; a full list loses its last item. */
    method Insert(pos: nat, nlen: nat, item: Value)
      requires pos < |list| && |list| <= nlen
      modifies this`list
      ensures list == Take(nlen, old(list)[..pos] + [item] + old(list)[pos..])
    {
      var l := |list|;
      if nlen != 0 && l == nlen {
        list := list[..pos + 1] + list[pos..l - 1];
        list := list[pos := item];
      } else {
        list := list + [item];
        list := list[..pos + 1] + list[pos..l];
        list := list[pos := item];
      }
    }

    /** The first position from `start` on whose item collates after `part`, or the end. */
    method Slot(part: Value, start: nat) returns (c: nat)
      requires Valid() && start <= nthItem
      ensures start <= c && (start <= |list| ==> c <= |list|) && (start > |list| ==> c == start)
      ensures forall i :: start <= i < c && i < |list| ==> Toward(collate, direction)(part, list[i]) >= 0
      ensures c < |list| ==> Toward(collate, direction)(part, list[c]) < 0
    {
      c := start;
      while c < |list| && c < nthItem
        invariant start <= c && (start <= |list| ==> c <= |list|) && (start > |list| ==> c == start)
        invariant forall i :: start <= i < c && i < |list| ==> Toward(collate, direction)(part, list[i]) >= 0
      {
        var cc := collate(part, list[c]);
        if cc * direction < 0 {
          return;
        }
        c := c + 1;
      }
    }

    /** `compute_nth_value` for one evaluated operand. LAG and LEAD only append. */
    method ComputeNthValue(part: Value, valfunc: bool)
      requires Valid()
      modifies this`list
      ensures Valid()
      ensures list ==
        if ignoreNulls && TypeOf(part) <= NULL then old(list)
        else if valfunc then Offer(Toward(collate, direction), old(list), startpos, nthItem, part)
        else Take(nthItem, old(list) + [part])
    {
      hide Offer, Toward;
      var start := if valfunc then startpos else nthItem;
      if |list| < nthItem || start < nthItem {
        if !ignoreNulls || TypeOf(part) > NULL {
          var c := Slot(part, start);
          if valfunc {
            OfferAt(Toward(collate, direction), list, start, nthItem, part, c);
          }
          if c < |list| && c < nthItem {
            Insert(c, nthItem, part);
          } else if |list| < nthItem {
            list := list + [part];
          }
        }
      } else if valfunc {
        OfferToFull(Toward(collate, direction), list, nthItem, part);
      }
    }

    /** The n-th value, or the default when there are fewer. */
    method ComputeFinal() returns (r: Value)
      requires Valid()
      ensures r == if |list| == nthItem then list[nthItem - 1] else default
    {
      if |list| != nthItem {
        return default;
      }
      return list[nthItem - 1];
    }

    /** Called when a peer group is complete: what is in the list is final. */
    method IsCumulateDone(valfunc: bool) returns (done: bool)
      requires Valid()
      modifies this`startpos
      ensures Valid() && startpos == (if valfunc then |list| else old(startpos))
      ensures done <==> |list| == nthItem
    {
      if valfunc {
        startpos := |list|;
      }
      done := |list| == nthItem;
    }
  }

  // ---- The row loop of the window operator

  /** The rows of a frame in the order in which they are visited. */
  function Visited(rows: seq<Row>, lo: nat, hi: int, direction: int): seq<Row>
    requires lo <= hi + 1 <= |rows|
  {
    if direction > 0 then rows[lo..hi + 1] else Reversed(rows[lo..hi + 1])
  }

  function Reversed<T>(s: seq<T>): (r: seq<T>)
    ensures |r| == |s| && forall i :: 0 <= i < |s| ==> r[i] == s[|s| - 1 - i]
  {
    if s == [] then [] else [s[|s| - 1]] + Reversed(s[..|s| - 1])
  }

  /** The row `j` steps away in the direction. */
  function Step(c: int, direction: int, j: int): int {
    if direction > 0 then c + j else c - j
  }

  /** `windowOrderDuplicatesDirection`: how many rows after row `c`, in the direction, are its peers. */
  method DuplicatesDirection(peer: (Row, Row) -> bool, rows: seq<Row>, c: nat, direction: int) returns (dups: nat)
    requires c < |rows| && (direction == 1 || direction == -1)
    ensures 0 <= Step(c, direction, dups) < |rows|
    ensures forall j :: 0 < j <= dups ==> peer(rows[Step(c, direction, j)], rows[c])
    ensures var next := Step(c, direction, dups + 1); 0 <= next < |rows| ==> !peer(rows[next], rows[c])
  {
    dups := 0;
    var pos := c + direction;
    while 0 <= pos < |rows|
      invariant pos == Step(c, direction, dups + 1)
      invariant 0 <= Step(c, direction, dups) < |rows|
      invariant forall j :: 0 < j <= dups ==> peer(rows[Step(c, direction, j)], rows[c])
      decreases |rows| - dups
    {
      if !peer(rows[pos], rows[c]) {
        return;
      }
      dups := dups + 1;
      pos := pos + direction;
    }
  }

  /** The number of rows, from visited row `k` on, that its peer group has in the partition. */
  method GroupSize(peer: (Row, Row) -> bool, rows: seq<Row>, lo: nat, hi: int, direction: int, duplicates: bool,
                   ghost k: nat, c: nat) returns (repeats: nat)
    requires lo <= hi + 1 <= |rows| && (direction == 1 || direction == -1)
    requires duplicates || forall a, b :: !peer(a, b)
    requires k < hi + 1 - lo && c == Step(if direction > 0 then lo else hi, direction, k)
    ensures repeats >= 1 && (!duplicates ==> repeats == 1)
    ensures GroupEnds(peer, Visited(rows, lo, hi, direction), k, k + repeats)
  {
    if !duplicates {
      return 1;
    }
    repeats := DuplicatesDirection(peer, rows, c, direction);
    repeats := repeats + 1;
    PeersAreVisited(peer, rows, lo, hi, direction, k, repeats);
  }

  /** Peers counted in the partition are peers among the visited rows, as far as these go. */
  lemma {:induction false} PeersAreVisited(peer: (Row, Row) -> bool, rows: seq<Row>, lo: nat, hi: int, direction: int,
                                           k: nat, repeats: nat)
    requires lo <= hi + 1 <= |rows| && (direction == 1 || direction == -1) && k < hi + 1 - lo && repeats >= 1
    requires var c := Step(if direction > 0 then lo else hi, direction, k);
      && 0 <= Step(c, direction, repeats - 1) < |rows|
      && (forall j :: 0 < j <= repeats - 1 ==> peer(rows[Step(c, direction, j)], rows[c]))
      && (0 <= Step(c, direction, repeats) < |rows| ==> !peer(rows[Step(c, direction, repeats)], rows[c]))
    ensures GroupEnds(peer, Visited(rows, lo, hi, direction), k, k + repeats)
  {
    var v, c := Visited(rows, lo, hi, direction), Step(if direction > 0 then lo else hi, direction, k);
    forall j | k <= j < |v| ensures v[j] == rows[Step(c, direction, j - k)] {}
  }

  /** One row of the frame goes to the aggregate. */
  method FeedRow(f: ValueFunction, row: Row, valfunc: bool, ghost peer: (Row, Row) -> bool, ghost v: seq<Row>,
                 ghost final: seq<Value>, ghost g: nat, ghost k: nat)
    requires f.Valid() && k < |v| && v[k] == row
    requires if valfunc then f.startpos == |final| else f.startpos == 0 && g == k
    requires Progress(Toward(f.collate, f.direction), peer, v, f.ignoreNulls, f.nthItem, f.list, final, g, k)
    modifies f`list
    ensures f.Valid()
    ensures Progress(Toward(f.collate, f.direction), peer, v, f.ignoreNulls, f.nthItem, f.list, final, g, k + 1)
  {
    ghost var before := f.list;
    if !row.excluded {
      f.ComputeNthValue(row.val, valfunc);
    }
    RowAdds(Toward(f.collate, f.direction), peer, v, f.ignoreNulls, f.nthItem, before, final, g, k, f.list);
  }

  /** The aggregate learns that a peer group is complete. */
  method CloseGroup(f: ValueFunction, valfunc: bool, ghost peer: (Row, Row) -> bool, ghost v: seq<Row>,
                    ghost final: seq<Value>, ghost g: nat, ghost k: nat) returns (done: bool)
    requires f.Valid() && GroupEnds(peer, v, g, k)
    requires Progress(Toward(f.collate, f.direction), peer, v, f.ignoreNulls, f.nthItem, f.list, final, g, k)
    modifies f`startpos
    ensures f.Valid() && f.startpos == (if valfunc then |f.list| else old(f.startpos))
    ensures done ==> f.list == Take(f.nthItem, Ranked(Toward(f.collate, f.direction), peer, v, f.ignoreNulls))
    ensures !done ==> Progress(Toward(f.collate, f.direction), peer, v, f.ignoreNulls, f.nthItem, f.list, f.list, k, k)
  {
    GroupCloses(Toward(f.collate, f.direction), peer, v, f.ignoreNulls, f.nthItem, f.list, final, g, k);
    done := f.IsCumulateDone(valfunc);
  }

  /** Between two rows: `repeats` rows of the group from row `g` are still to come. */
  ghost predicate BetweenRows(f: ValueFunction, peer: (Row, Row) -> bool, v: seq<Row>, valfunc: bool,
                              final: seq<Value>, g: nat, k: nat, repeats: nat)
    reads f
  {
    && f.Valid() && f.startpos == (if valfunc then |final| else 0)
    && Progress(Toward(f.collate, f.direction), peer, v, f.ignoreNulls, f.nthItem, f.list, final, g, k)
    && g <= k <= |v|
    && if repeats == 0 then g == k else valfunc && g < k && GroupEnds(peer, v, g, k + repeats)
  }

  /** The k-th row to be visited, of a group with `size` rows still to come. */
  method ProcessRow(f: ValueFunction, row: Row, valfunc: bool, size: nat, ghost peer: (Row, Row) -> bool, ghost v: seq<Row>,
                    ghost final: seq<Value>, ghost g: nat, ghost k: nat)
    returns (repeats: nat, done: bool, ghost final': seq<Value>, ghost g': nat)
    requires f.Valid() && g <= k < |v| && v[k] == row
    requires if valfunc then f.startpos == |final| else f.startpos == 0 && g == k && size == 1
    requires Progress(Toward(f.collate, f.direction), peer, v, f.ignoreNulls, f.nthItem, f.list, final, g, k)
    requires size >= 1 && GroupEnds(peer, v, g, k + size)
    modifies f`list, f`startpos
    ensures repeats == size - 1
    ensures !done ==> BetweenRows(f, peer, v, valfunc, final', g', k + 1, repeats)
    ensures done ==> f.Valid() && f.list == Take(f.nthItem, Ranked(Toward(f.collate, f.direction), peer, v, f.ignoreNulls))
  {
    hide Progress;
    final', g', done := final, g, false;
    FeedRow(f, row, valfunc, peer, v, final, g, k);
    repeats := size - 1;
    if repeats == 0 {
      done := CloseGroup(f, valfunc, peer, v, final, g, k + 1);
      final', g' := f.list, k + 1;
    }
  }

  /**
   `evaluateValueFuncs`: feeds the rows of the frame, group by group, and stops early when the
   list is full. FIRST_VALUE, LAST_VALUE and NTH_VALUE finalize whole peer groups; LAG and LEAD
   only append. The list ends up as the first n values of the ranking of the frame.
   */
  method EvaluateValueFuncs(f: ValueFunction, rows: seq<Row>, lo: nat, hi: int, direction: int,
                            peer: (Row, Row) -> bool, duplicates: bool, valfunc: bool)
    requires f.Valid() && f.list == [] && f.startpos == 0
    requires lo <= hi + 1 <= |rows| && (direction == 1 || direction == -1)
    requires (duplicates ==> valfunc) && (duplicates || forall a, b :: !peer(a, b))
    modifies f`list, f`startpos
    ensures f.Valid()
    ensures f.list == Take(f.nthItem, Ranked(Toward(f.collate, f.direction), peer, Visited(rows, lo, hi, direction), f.ignoreNulls))
  {
    hide Progress, Ranked, GroupEnds;
    ghost var v := Visited(rows, lo, hi, direction);
    ghost var final: seq<Value>, g, k := [], 0, 0;
    var repeats: nat, done := 0, false;
    var c := if direction > 0 then lo else hi;
    ProgressStarts(Toward(f.collate, f.direction), peer, v, f.ignoreNulls, f.nthItem);
    while (direction > 0 && c <= hi) || (direction < 0 && c >= lo)
      invariant 0 <= k <= |v| && c == Step(if direction > 0 then lo else hi, direction, k)
      invariant BetweenRows(f, peer, v, valfunc, final, g, k, repeats) && (repeats > 0 ==> duplicates)
      decreases |v| - k
    {
      if repeats == 0 {
        repeats := GroupSize(peer, rows, lo, hi, direction, duplicates, k, c);
      }
      repeats, done, final, g := ProcessRow(f, rows[c], valfunc, repeats, peer, v, final, g, k);
      if done {
        return;
      }
      k := k + 1;
      c := c + direction;
    }
    ProgressEnds(Toward(f.collate, f.direction), peer, v, f.ignoreNulls, f.nthItem, f.list, final, g, k + repeats);
  }

  // ---- The functions a query sees

  /** The rows that share a place in the ranking. */
  function PeerTest(duplicates: bool): (Row, Row) -> bool {
    if duplicates then SameKeys else NoPeers
  }

  function DirectionOf(fromLast: bool): int {
    if fromLast then -1 else 1
  }

  /** The n-th value of the ranked frame, or NULL. FIRST_VALUE and LAST_VALUE are the case n = 1. */
  function NthOf(rows: seq<Row>, lo: nat, hi: int, n: nat, fromLast: bool, ignoreNulls: bool, duplicates: bool): Value
    requires lo <= hi + 1 <= |rows| && n >= 1
  {
    var d := DirectionOf(fromLast);
    var ranked := Ranked(Toward(Collate, d), PeerTest(duplicates), Visited(rows, lo, hi, d), ignoreNulls);
    if |ranked| >= n then ranked[n - 1] else Null
  }

  method EvaluateNthValue(rows: seq<Row>, lo: nat, hi: int, nval: Value, fromLast: bool, ignoreNulls: bool, duplicates: bool)
    returns (ok: bool, r: Value)
    requires lo <= hi + 1 <= |rows|
    ensures ok <==> IsCount(nval)
    ensures ok ==> r == NthOf(rows, lo, hi, nval.n.Floor, fromLast, ignoreNulls, duplicates)
  {
    hide Ranked, Collate;
    var f := new ValueFunction(ignoreNulls, Collate);
    ok := f.Default(nval, fromLast);
    r := Null;
    if ok {
      EvaluateValueFuncs(f, rows, lo, hi, f.direction, PeerTest(duplicates), duplicates, true);
      r := f.ComputeFinal();
    }
  }

  // ---- Rows permuted inside their peer groups

  /** A group ends before row `i` and another begins, or there are no rows on one side. */
  predicate Boundary(peer: (Row, Row) -> bool, rows: seq<Row>, i: int) {
    0 <= i <= |rows| && (i == 0 || i == |rows| || !peer(rows[i], rows[i - 1]))
  }

  /** Up to every boundary the rows are the same but for their order. */
  ghost predicate PermutesInGroups(peer: (Row, Row) -> bool, rows: seq<Row>, other: seq<Row>) {
    |rows| == |other| && forall i :: Boundary(peer, rows, i) ==> multiset(rows[..i]) == multiset(other[..i])
  }

  ghost predicate IsPeerTest(peer: (Row, Row) -> bool) {
    && (forall a, b :: peer(a, b) ==> peer(b, a))
    && (forall a, b, c :: peer(a, b) && peer(b, c) ==> peer(a, c))
  }

  lemma {:induction false} PeerTestIs(duplicates: bool)
    ensures IsPeerTest(PeerTest(duplicates))
  {
    hide SameKeys;
    forall a, b, c ensures SameKeys(a, b) ==> SameKeys(b, a)
      ensures SameKeys(a, b) && SameKeys(b, c) ==> SameKeys(a, c)
    {
      SameKeysIsEquivalence(a, b, c);
    }
  }

  lemma {:induction false} FirstGroupEnds(peer: (Row, Row) -> bool, rows: seq<Row>, n: nat)
    requires 1 <= n <= |rows| && forall j :: 1 <= j < n ==> peer(rows[j], rows[0])
    ensures
      var m := FirstGroup(peer, rows, n);
      (forall j :: 1 <= j < m ==> peer(rows[j], rows[0])) && (m < |rows| ==> !peer(rows[m], rows[0]))
    decreases |rows| - n
  {
    if n < |rows| && peer(rows[n], rows[0]) {
      FirstGroupEnds(peer, rows, n + 1);
    }
  }

  lemma {:induction false} FirstGroupIsBoundary(peer: (Row, Row) -> bool, rows: seq<Row>)
    requires IsPeerTest(peer) && rows != []
    ensures Boundary(peer, rows, FirstGroup(peer, rows, 1))
  {
    FirstGroupEnds(peer, rows, 1);
    var m := FirstGroup(peer, rows, 1);
    assert m > 1 ==> peer(rows[m - 1], rows[0]);
  }

  /** A row of a group is its first row or a peer of it. */
  lemma {:induction false} InFirstGroup(peer: (Row, Row) -> bool, rows: seq<Row>, m: nat, x: Row)
    requires 1 <= m <= |rows| && (forall j :: 1 <= j < m ==> peer(rows[j], rows[0])) && x in multiset(rows[..m])
    ensures x == rows[0] || peer(x, rows[0])
  {
    var j :| 0 <= j < m && rows[..m][j] == x;
  }

  lemma {:induction false} SuffixesAgree(rows: seq<Row>, other: seq<Row>, m: nat, k: nat)
    requires m <= k <= |rows| == |other| && multiset(rows[..m]) == multiset(other[..m]) && multiset(rows[..k]) == multiset(other[..k])
    ensures multiset(rows[m..k]) == multiset(other[m..k])
  {
    assert rows[..k] == rows[..m] + rows[m..k] && other[..k] == other[..m] + other[m..k];
    assert multiset(rows[m..k]) == multiset(rows[..k]) - multiset(rows[..m]);
    assert multiset(other[m..k]) == multiset(other[..k]) - multiset(other[..m]);
  }

  lemma {:induction false} LaterBoundary(peer: (Row, Row) -> bool, rows: seq<Row>, m: nat, i: nat)
    requires m <= |rows| && Boundary(peer, rows, m) && Boundary(peer, rows[m..], i)
    ensures Boundary(peer, rows, m + i)
  {
  }

  /** The rest after the first group is permuted inside its groups as well. */
  lemma {:induction false} RestPermutes(peer: (Row, Row) -> bool, rows: seq<Row>, other: seq<Row>, m: nat)
    requires PermutesInGroups(peer, rows, other) && m <= |rows| && Boundary(peer, rows, m)
    ensures PermutesInGroups(peer, rows[m..], other[m..])
  {
    forall i | Boundary(peer, rows[m..], i) ensures multiset(rows[m..][..i]) == multiset(other[m..][..i]) {
      LaterBoundary(peer, rows, m, i);
      SuffixesAgree(rows, other, m, m + i);
      assert rows[m..][..i] == rows[m..m + i] && other[m..][..i] == other[m..m + i];
    }
  }

  lemma {:induction false} PeersInside(peer: (Row, Row) -> bool, rows: seq<Row>, other: seq<Row>, m: nat, j: nat)
    requires IsPeerTest(peer) && 1 <= j < m <= |rows| == |other| && multiset(rows[..m]) == multiset(other[..m])
    requires forall k :: 1 <= k < m ==> peer(rows[k], rows[0])
    ensures peer(other[j], other[0])
  {
    assert other[..m][j] in multiset(other[..m]) && other[..m][0] in multiset(other[..m]);
    InFirstGroup(peer, rows, m, other[j]);
    InFirstGroup(peer, rows, m, other[0]);
    assert peer(rows[1], rows[0]) && peer(rows[0], rows[1]);
    assert peer(rows[0], rows[0]);
  }

  lemma {:induction false} StrangerOutside(peer: (Row, Row) -> bool, rows: seq<Row>, other: seq<Row>, m: nat)
    requires IsPeerTest(peer) && PermutesInGroups(peer, rows, other) && rows != []
    requires m == FirstGroup(peer, rows, 1) < |rows|
    ensures !peer(other[m], other[0])
  {
    FirstGroupEnds(peer, rows, 1);
    FirstGroupIsBoundary(peer, rows);
    var rest := rows[m..];
    FirstGroupEnds(peer, rest, 1);
    FirstGroupIsBoundary(peer, rest);
    var k := FirstGroup(peer, rest, 1);
    RestPermutes(peer, rows, other, m);
    assert multiset(rest[..k]) == multiset(other[m..][..k]);
    assert other[m..][..k][0] == other[m] && other[..m][0] == other[0];
    assert other[m] in multiset(other[m..][..k]) && other[0] in multiset(other[..m]);
    InFirstGroup(peer, rest, k, other[m]);
    InFirstGroup(peer, rows, m, other[0]);
    Strangers(peer, rows[0], rows[m], other[0], other[m]);
  }

  lemma {:induction false} Strangers(peer: (Row, Row) -> bool, a: Row, b: Row, x: Row, y: Row)
    requires IsPeerTest(peer) && !peer(b, a) && (x == a || peer(x, a)) && (y == b || peer(y, b))
    ensures !peer(y, x)
  {
  }

  lemma {:induction false} SameFirstGroup(peer: (Row, Row) -> bool, rows: seq<Row>, other: seq<Row>)
    requires IsPeerTest(peer) && PermutesInGroups(peer, rows, other) && rows != []
    ensures FirstGroup(peer, other, 1) == FirstGroup(peer, rows, 1)
  {
    var m := FirstGroup(peer, rows, 1);
    FirstGroupEnds(peer, rows, 1);
    FirstGroupIsBoundary(peer, rows);
    forall j | 1 <= j < m ensures peer(other[j], other[0]) {
      PeersInside(peer, rows, other, m, j);
    }
    if m < |rows| {
      StrangerOutside(peer, rows, other, m);
    }
    FirstGroupIs(peer, other, 1, m);
  }

  lemma {:induction false} KeptOfBoth(rows: seq<Row>, more: seq<Row>, ignoreNulls: bool)
    ensures Kept(rows + more, ignoreNulls) == Kept(rows, ignoreNulls) + Kept(more, ignoreNulls)
    decreases |more|
  {
    if more == [] {
      assert rows + more == rows;
    } else {
      KeptOfBoth(rows, more[..|more| - 1], ignoreNulls);
      assert (rows + more)[..|rows + more| - 1] == rows + more[..|more| - 1];
    }
  }

  lemma {:induction false} KeptWithout(rows: seq<Row>, j: nat, ignoreNulls: bool)
    requires j < |rows|
    ensures multiset(Kept(rows, ignoreNulls)) == multiset(Kept(Without(rows, j), ignoreNulls)) + multiset(Kept([rows[j]], ignoreNulls))
  {
    hide Kept;
    assert rows == rows[..j] + ([rows[j]] + rows[j + 1..]);
    KeptOfBoth(rows[..j], [rows[j]] + rows[j + 1..], ignoreNulls);
    KeptOfBoth([rows[j]], rows[j + 1..], ignoreNulls);
    KeptOfBoth(rows[..j], rows[j + 1..], ignoreNulls);
  }

  lemma {:induction false} KeptIgnoresOrder(rows: seq<Row>, other: seq<Row>, ignoreNulls: bool)
    requires multiset(rows) == multiset(other)
    ensures multiset(Kept(rows, ignoreNulls)) == multiset(Kept(other, ignoreNulls))
    decreases |rows|
  {
    if rows == [] {
      assert |multiset(other)| == |other|;
    } else {
      assert rows[0] in multiset(other);
      var j :| 0 <= j < |other| && other[j] == rows[0];
      RemoveOne(rows, 0);
      RemoveOne(other, j);
      KeptIgnoresOrder(Without(rows, 0), Without(other, j), ignoreNulls);
      KeptWithout(rows, 0, ignoreNulls);
      KeptWithout(other, j, ignoreNulls);
    }
  }

  lemma {:induction false} GroupsPermute(peer: (Row, Row) -> bool, rows: seq<Row>, other: seq<Row>, ignoreNulls: bool)
    requires IsPeerTest(peer) && PermutesInGroups(peer, rows, other)
    ensures
      var groups, groups' := GroupValues(peer, rows, ignoreNulls), GroupValues(peer, other, ignoreNulls);
      |groups| == |groups'| && forall i :: 0 <= i < |groups| ==> multiset(groups[i]) == multiset(groups'[i])
    decreases |rows|
  {
    if rows != [] {
      var m := FirstGroup(peer, rows, 1);
      SameFirstGroup(peer, rows, other);
      FirstGroupIsBoundary(peer, rows);
      RestPermutes(peer, rows, other, m);
      hide Boundary, PermutesInGroups, IsPeerTest, Kept;
      GroupsPermute(peer, rows[m..], other[m..], ignoreNulls);
      FirstGroupPermutes(peer, rows, other, m);
      KeptIgnoresOrder(rows[..m], other[..m], ignoreNulls);
    }
  }

  lemma {:induction false} FirstGroupPermutes(peer: (Row, Row) -> bool, rows: seq<Row>, other: seq<Row>, m: nat)
    requires PermutesInGroups(peer, rows, other) && m <= |rows| && Boundary(peer, rows, m)
    ensures multiset(rows[..m]) == multiset(other[..m])
  {
  }

  lemma {:induction false} ReversedIsPermutation(rows: seq<Row>)
    ensures multiset(Reversed(rows)) == multiset(rows)
  {
    if rows != [] {
      ReversedIsPermutation(rows[..|rows| - 1]);
      assert rows == rows[..|rows| - 1] + [rows[|rows| - 1]];
    }
  }

  /** Rows that are permuted inside their groups are so in either direction. */
  lemma {:induction false} ReversedPermutes(peer: (Row, Row) -> bool, rows: seq<Row>, other: seq<Row>)
    requires IsPeerTest(peer) && PermutesInGroups(peer, rows, other)
    ensures PermutesInGroups(peer, Reversed(rows), Reversed(other))
  {
    var v, w: seq<Row> := Reversed(rows), Reversed(other);
    forall i | Boundary(peer, v, i) ensures multiset(v[..i]) == multiset(w[..i]) {
      var k := |rows| - i;
      assert Boundary(peer, rows, k);
      assert Boundary(peer, rows, |rows|);
      SuffixesAgree(rows, other, k, |rows|);
      assert v[..i] == Reversed(rows[k..|rows|]) && w[..i] == Reversed(other[k..|rows|]);
      ReversedIsPermutation(rows[k..|rows|]);
      ReversedIsPermutation(other[k..|rows|]);
    }
  }

  /** Permuting rows inside their peer groups changes the n-th value, from either end, only up to collation. */
  lemma {:induction false} NthIgnoresOrderInGroups(rows: seq<Row>, other: seq<Row>, n: nat, fromLast: bool, ignoreNulls: bool, duplicates: bool)
    requires n >= 1 && PermutesInGroups(PeerTest(duplicates), rows, other)
    ensures Collate(NthOf(rows, 0, |rows| - 1, n, fromLast, ignoreNulls, duplicates),
                    NthOf(other, 0, |other| - 1, n, fromLast, ignoreNulls, duplicates)) == 0
  {
    hide Collate, GroupValues, SortedGroups, Boundary;
    var d, peer := DirectionOf(fromLast), PeerTest(duplicates);
    var v, w := Visited(rows, 0, |rows| - 1, d), Visited(other, 0, |other| - 1, d);
    assert rows[0..|rows|] == rows && other[0..|other|] == other;
    PeerTestIs(duplicates);
    ReversedPermutes(peer, rows, other);
    GroupsPermute(peer, v, w, ignoreNulls);
    CollateIsTotal();
    TowardIsTotal(Collate, d);
    RankingIgnoresOrderInGroups(Toward(Collate, d), GroupValues(peer, v, ignoreNulls), GroupValues(peer, w, ignoreNulls));
  }

  /** The values that LAG or LEAD walks over from row `cItem`. */
  function Walked(rows: seq<Row>, cItem: nat, lag: bool, ignoreNulls: bool): seq<Value>
    requires cItem < |rows|
  {
    if lag then Kept(Reversed(rows[..cItem]), ignoreNulls) else Kept(rows[cItem + 1..], ignoreNulls)
  }

  /** LAG and LEAD: the n-th row that counts, walking away from the current row, or the default. */
  method EvaluateLagLead(rows: seq<Row>, cItem: nat, nval: Option<Value>, third: Option<Value>, lag: bool, ignoreNulls: bool)
    returns (ok: bool, r: Value)
    requires cItem < |rows|
    ensures ok <==> nval.None? || IsCount(nval.value)
    ensures ok ==>
      var n := if nval.None? then 1 else nval.value.n.Floor;
      var walked := Walked(rows, cItem, lag, ignoreNulls);
      r == if |walked| >= n then walked[n - 1] else if third.None? then Null else third.value
  {
    hide Ranked, Kept, Collate;
    var f := new ValueFunction(ignoreNulls, Collate);
    ok := f.DefaultOfOffset(nval, third);
    r := Null;
    if ok {
      var lo, hi, direction := 0, cItem - 1, -1;
      if !lag {
        lo, hi, direction := cItem + 1, |rows| - 1, 1;
      }
      EvaluateValueFuncs(f, rows, lo, hi, direction, NoPeers, false, false);
      SinglesAreKept(Toward(f.collate, f.direction), Visited(rows, lo, hi, direction), ignoreNulls);
      assert lag ==> rows[lo..hi + 1] == rows[..cItem];
      assert !lag ==> rows[lo..hi + 1] == rows[cItem + 1..];
      r := f.ComputeFinal();
    }
  }

  /** With every row its own group the ranking is the order of the rows. */
  lemma {:induction false} SinglesAreKept(cmp: (Value, Value) -> int, v: seq<Row>, ignoreNulls: bool)
    ensures Ranked(cmp, NoPeers, v, ignoreNulls) == Kept(v, ignoreNulls)
  {
    if v != [] {
      SinglesAreKept(cmp, v[1..], ignoreNulls);
      KeptFromFront(v, ignoreNulls);
      var groups := GroupValues(NoPeers, v, ignoreNulls);
      var first := Kept(v[..1], ignoreNulls);
      assert v[..1][..0] == [];
      assert groups[0] == first && groups[1..] == GroupValues(NoPeers, v[1..], ignoreNulls);
      assert Sort(cmp, first) == first;
    }
  }

  lemma {:induction false} KeptFromFront(v: seq<Row>, ignoreNulls: bool)
    requires v != []
    ensures Kept(v, ignoreNulls) == Kept(v[..1], ignoreNulls) + Kept(v[1..], ignoreNulls)
  {
    assert v == v[..1] + v[1..];
    KeptOfBoth(v[..1], v[1..], ignoreNulls);
  }
}
