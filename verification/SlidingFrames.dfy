/**
 Incremental evaluation of SUM, AVG, COUNT and COUNTN over window frames: rows that enter the frame are
 added and rows that leave it are removed again (`evaluate`, `windowFramePositions` and
 `processWindowAggregates` in execution/window.go, `CumulateRemove` in algebra/agg_*.go). Every row has
 to get what a fresh aggregation of its frame gives. There is no FILTER clause and no DISTINCT.
 */
module SlidingFrames {
  import opened Wrappers
  import opened Collation
  import opened Sums
  import opened Accumulators
  import opened Aggregates
  import opened ParallelAggregation
  import PeerRanking
  import NthValue
  import opened MergeTrees

  /** `CumulateRemove`. */
  function Remove(fn: Fn, v: Value, c: Cumulative): Outcome<Cumulative>
    requires Incremental(fn)
  {
    if !FitsIn(fn, v) then Ok(c)
    else
      match fn
      case Sum => if IsNumber(c) then Ok(Plain(Number(c.value.n - Num(v)))) else Fault("Invalid SUM.CumulateRemove()")
      case Avg =>
        if HasNumber(c, "sum") && HasNumber(c, "count") then
          var f := c.value.fields;
          Ok(Plain(Object(f["sum" := Number(f["sum"].n - Num(v))]["count" := Number(f["count"].n - 1.0)])))
        else Fault("Invalid AVG.CumulateRemove()")
      case _ =>
        if IsNumber(c) && c.value.n > 0.0 then Ok(Plain(Number(c.value.n - 1.0)))
        else Fault("Invalid COUNT.CumulateRemove()")
  }

  // ---- The cumulative value of a frame

  /** A frame holding `q`; once an operand has been added, SUM and AVG stay numbers. */
  function Sliding(fn: Fn, used: bool, q: seq<Value>): Cumulative
    requires Incremental(fn)
  {
    match fn
    case Sum => if used then Plain(Number(SumOf(Num, q))) else Plain(Null)
    case Avg => if used then SumAndCount(SumOf(Num, q), |q| as real) else Plain(Null)
    case _ => Plain(Number(|q| as real))
  }

  lemma {:induction false} SlidingAdds(fn: Fn, used: bool, q: seq<Value>, v: Value)
    requires Incremental(fn) && (q == [] || used) && FitsIn(fn, v)
    ensures AddOperand(fn, false, v, Sliding(fn, used, q)) == Ok(Sliding(fn, true, q + [v]))
  {
    hide SumOf;
    FirstOperand(q, v);
    if fn.Avg? {
      assert Plain(Object(map["sum" := v, "count" := Number(1.0)])) == SumAndCount(Num(v), 1.0);
      AveragesAdd(Num(v), 1.0, SumOf(Num, q), |q| as real);
    }
  }

  lemma {:induction false} SlidingRemoves(fn: Fn, q: seq<Value>, v: Value)
    requires Incremental(fn) && FitsIn(fn, v)
    ensures Remove(fn, v, Sliding(fn, true, [v] + q)) == Ok(Sliding(fn, true, q))
  {
    hide SumOf;
    SumOfBoth(Num, [v], q);
    FirstOperand([], v);
    assert [] + [v] == [v];
    if fn.Avg? {
      AveragesRemove(Num(v), SumOf(Num, q), |q| as real);
    }
  }

  lemma {:induction false} AveragesRemove(x: real, sum: real, n: real)
    ensures
      var f := map["sum" := Number(x + sum), "count" := Number(1.0 + n)];
      f["sum" := Number(x + sum - x)]["count" := Number(1.0 + n - 1.0)] == map["sum" := Number(sum), "count" := Number(n)]
  {
    assert "sum"[0] == 's' && "count"[0] == 'c';
  }

  /** What a frame with the operands `q` evaluates to, when `seen` have been added to it so far. */
  ghost function Slid(fn: Fn, seen: seq<Value>, q: seq<Value>): Value
    requires Incremental(fn)
  {
    if fn.Sum? && q == [] && seen != [] then Number(0.0) else Meaning(fn, false, q)
  }

  lemma {:induction false} FinalOfSliding(fn: Fn, seen: seq<Value>, q: seq<Value>)
    requires Incremental(fn) && (q == [] || seen != []) && Fit(fn, q)
    ensures Final(fn, false, Sliding(fn, seen != [], q)) == Ok(Slid(fn, seen, q))
  {
    if q == [] {
      assert SumOf(Num, q) == 0.0;
    } else {
      hide SumOf;
      FinalMeans(fn, false, q);
    }
  }

  // ---- One evaluation

  /** The rows from `a` up to `b` as the aggregate meets them. */
  function FrameRows(rows: seq<PeerRanking.Row>, a: nat, b: nat): seq<Input>
    requires a <= b <= |rows|
  {
    seq(b - a, i requires 0 <= i < b - a => Input(true, rows[a + i].val))
  }

  ghost function Q(fn: Fn, rows: seq<PeerRanking.Row>, a: nat, b: nat): seq<Value>
    requires a <= b <= |rows|
  {
    Qualifying(Fits(fn), FrameRows(rows, a, b))
  }

  /** The cumulative value stands for the rows from `lo` up to `hi`, and rows from `from` on have been added. */
  ghost predicate Holds(fn: Fn, rows: seq<PeerRanking.Row>, c: Cumulative, from: nat, lo: nat, hi: nat) {
    && Incremental(fn) && from <= lo <= hi <= |rows|
    && c == Sliding(fn, Q(fn, rows, from, hi) != [], Q(fn, rows, lo, hi))
    && (Q(fn, rows, lo, hi) != [] ==> Q(fn, rows, from, hi) != [])
  }

  lemma {:induction false} QualifyingOfOne(fn: Fn, v: Value)
    ensures Qualifying(Fits(fn), [Input(true, v)]) == if FitsIn(fn, v) then [v] else []
  {
    assert [Input(true, v)][..0] == [];
  }

  lemma {:induction false} OneRowEnters(fn: Fn, rows: seq<PeerRanking.Row>, a: nat, b: nat)
    requires a <= b < |rows|
    ensures Q(fn, rows, a, b + 1) == Q(fn, rows, a, b) + if FitsIn(fn, rows[b].val) then [rows[b].val] else []
  {
    hide Qualifying;
    QualifyingOfBoth(Fits(fn), FrameRows(rows, a, b), [Input(true, rows[b].val)]);
    QualifyingOfOne(fn, rows[b].val);
    assert FrameRows(rows, a, b + 1) == FrameRows(rows, a, b) + [Input(true, rows[b].val)];
  }

  lemma {:induction false} OneRowLeaves(fn: Fn, rows: seq<PeerRanking.Row>, a: nat, b: nat)
    requires a < b <= |rows|
    ensures Q(fn, rows, a, b) == (if FitsIn(fn, rows[a].val) then [rows[a].val] else []) + Q(fn, rows, a + 1, b)
  {
    hide Qualifying;
    QualifyingOfBoth(Fits(fn), [Input(true, rows[a].val)], FrameRows(rows, a + 1, b));
    QualifyingOfOne(fn, rows[a].val);
    assert FrameRows(rows, a, b) == [Input(true, rows[a].val)] + FrameRows(rows, a + 1, b);
  }

  lemma {:induction false} HoldsAfterAdding(fn: Fn, rows: seq<PeerRanking.Row>, c: Cumulative, from: nat, lo: nat, hi: nat)
    requires Holds(fn, rows, c, from, lo, hi) && hi < |rows|
    ensures
      var r := Initial(fn, false, Input(true, rows[hi].val), c);
      r.Ok? && Holds(fn, rows, r.value, from, lo, hi + 1)
  {
    hide Q, Sliding, AddOperand;
    OneRowEnters(fn, rows, lo, hi);
    OneRowEnters(fn, rows, from, hi);
    if FitsIn(fn, rows[hi].val) {
      SlidingAdds(fn, Q(fn, rows, from, hi) != [], Q(fn, rows, lo, hi), rows[hi].val);
    } else {
      assert Q(fn, rows, lo, hi) + [] == Q(fn, rows, lo, hi);
      assert Q(fn, rows, from, hi) + [] == Q(fn, rows, from, hi);
    }
  }

  /** Removing the row that leaves the frame never fails. */
  lemma {:induction false} HoldsAfterRemoving(fn: Fn, rows: seq<PeerRanking.Row>, c: Cumulative, from: nat, lo: nat, hi: nat)
    requires Holds(fn, rows, c, from, lo, hi) && lo < hi
    ensures
      var r := Remove(fn, rows[lo].val, c);
      r.Ok? && Holds(fn, rows, r.value, from, lo + 1, hi)
  {
    hide Q, Sliding;
    OneRowLeaves(fn, rows, lo, hi);
    if FitsIn(fn, rows[lo].val) {
      SlidingRemoves(fn, Q(fn, rows, lo + 1, hi), rows[lo].val);
    } else {
      assert [] + Q(fn, rows, lo + 1, hi) == Q(fn, rows, lo + 1, hi);
    }
  }

  lemma {:induction false} NothingHeld(fn: Fn, rows: seq<PeerRanking.Row>, from: nat)
    requires Incremental(fn) && from <= |rows|
    ensures Holds(fn, rows, Default(fn), from, from, from)
  {
    assert FrameRows(rows, from, from) == [];
  }

  function AtLeastZero(a: int): nat {
    if a < 0 then 0 else a
  }

  function Lesser(a: int, b: int): int {
    if a < b then a else b
  }

  /** What was held before, for the positions of the next evaluation: one row may leave on the left, rows enter on the right. */
  predicate Precedes(n: nat, lo: nat, hi: nat, sIndex: int, cIndex: nat, eIndex: int, dups: nat) {
    && dups <= eIndex
    && if cIndex == 0 then lo == hi == AtLeastZero(sIndex)
       else hi == Lesser(eIndex - dups, n) && if sIndex > 0 then lo == sIndex - 1 < hi else lo == 0
  }

  /** The value of a row whose frame is from `s` to `e`. */
  ghost function Expected(fn: Fn, rows: seq<PeerRanking.Row>, from: nat, s: nat, e: int): Value
    requires Incremental(fn) && (s <= e ==> from <= s && e < |rows|)
  {
    if s <= e then Slid(fn, Q(fn, rows, from, e + 1), Q(fn, rows, s, e + 1)) else Meaning(fn, false, [])
  }

  class AggregateInfo {
    const fn: Fn
    var val: Value
    var cumVal: Cumulative
    var dupsFollowing: nat

    constructor (fn: Fn)
      ensures this.fn == fn && cumVal == Default(fn) && dupsFollowing == 0
    {
      this.fn, val, cumVal, dupsFollowing := fn, Null, Default(fn), 0;
    }

    /** The rows from `s1` to `e1` enter. */
    method AddRows(rows: seq<PeerRanking.Row>, start: Cumulative, s1: int, e1: int, ghost from: nat, ghost s: nat) returns (c: Cumulative)
      requires 0 <= s1 <= e1 + 1 && Holds(fn, rows, start, from, s, Lesser(s1, |rows|))
      ensures Holds(fn, rows, c, from, s, Lesser(e1 + 1, |rows|))
    {
      hide Holds, Initial;
      c := start;
      var i := s1;
      while i <= e1 && i < |rows|
        invariant s1 <= i <= e1 + 1 && Holds(fn, rows, c, from, s, Lesser(i, |rows|))
        decreases e1 - i
      {
        HoldsAfterAdding(fn, rows, c, from, s, i);
        var added := Initial(fn, false, Input(true, rows[i].val), c);
        c := added.value;
        i := i + 1;
      }
      assert Lesser(i, |rows|) == Lesser(e1 + 1, |rows|);
    }

    /** `evaluate` for an incremental aggregate; no step fails. */
    method Evaluate(rows: seq<PeerRanking.Row>, sIndex: int, cIndex: nat, eIndex: int, ghost from: nat, ghost lo: nat, ghost hi: nat)
      requires Incremental(fn)
      requires AtLeastZero(sIndex) <= Lesser(eIndex, |rows| - 1) ==>
        Holds(fn, rows, cumVal, from, lo, hi) && Precedes(|rows|, lo, hi, sIndex, cIndex, eIndex, dupsFollowing)
      modifies this`val, this`cumVal
      ensures AtLeastZero(sIndex) <= Lesser(eIndex, |rows| - 1) ==> Holds(fn, rows, cumVal, from, AtLeastZero(sIndex), Lesser(eIndex, |rows| - 1) + 1)
      ensures AtLeastZero(sIndex) > Lesser(eIndex, |rows| - 1) ==> cumVal == old(cumVal)
      ensures val == Expected(fn, rows, from, AtLeastZero(sIndex), Lesser(eIndex, |rows| - 1))
    {
      hide Holds, Remove, PlainFinal;
      var s, e := AtLeastZero(sIndex), Lesser(eIndex, |rows| - 1);
      if s <= e {
        var c := cumVal;
        if cIndex > 0 {
          if (cIndex >= sIndex && sIndex > 0) || (cIndex < sIndex && sIndex < |rows|) {
            HoldsAfterRemoving(fn, rows, c, from, sIndex - 1, hi);
            var removed := Remove(fn, rows[sIndex - 1].val, c);
            c := removed.value;
          }
        }
        var s1 := eIndex - dupsFollowing;
        if cIndex < eIndex && cIndex == 0 {
          s1 := s;
        }
        c := AddRows(rows, c, s1, eIndex, from, s);
        cumVal := c;
        FinalOfHeld(fn, rows, c, from, s, e + 1);
        var final := PlainFinal(fn, c);
        val := final.value;
      } else {
        FinalOfNothing(fn);
        var final := PlainFinal(fn, Default(fn));
        val := final.value;
      }
    }
  }

  lemma {:induction false} FinalOfHeld(fn: Fn, rows: seq<PeerRanking.Row>, c: Cumulative, from: nat, lo: nat, hi: nat)
    requires Holds(fn, rows, c, from, lo, hi)
    ensures PlainFinal(fn, c) == Ok(Slid(fn, Q(fn, rows, from, hi), Q(fn, rows, lo, hi)))
  {
    hide Sliding, Slid, PlainFinal;
    QualifyingFit(Fits(fn), FrameRows(rows, lo, hi));
    FinalOfSliding(fn, Q(fn, rows, from, hi), Q(fn, rows, lo, hi));
  }

  lemma {:induction false} FinalOfNothing(fn: Fn)
    requires Incremental(fn)
    ensures PlainFinal(fn, Default(fn)) == Ok(Meaning(fn, false, []))
  {
    FinalMeans(fn, false, []);
  }

  /** A row gets the value of a fresh aggregation of its frame, except that SUM gives 0 where the frame holds no number but an earlier frame did. */
  lemma {:induction false} ExpectedExactly(fn: Fn, rows: seq<PeerRanking.Row>, from: nat, s: nat, e: int)
    requires Incremental(fn) && (s <= e ==> from <= s && e < |rows|)
    ensures
      Result(Of(fn, false), Stream(if s <= e then FrameRows(rows, s, e + 1) else [])) == Ok(Expected(fn, rows, from, s, e))
      <==> !(fn.Sum? && s <= e && Q(fn, rows, s, e + 1) == [] && Q(fn, rows, from, e + 1) != [])
  {
    hide Result, Qualifying;
    var frame := if s <= e then FrameRows(rows, s, e + 1) else [];
    ParallelExactly(fn, false, Stream(frame));
    assert Rows(Stream(frame)) == frame;
    QualifyingNothing(fn);
  }

  /** SUM over 1 PRECEDING to CURRENT ROW of a number, NULL and NULL: the last frame holds no number, and its sum is 0 and not NULL. */
  lemma {:induction false} EmptiedSumIsZero(n: real)
    ensures
      var row := v => PeerRanking.Row([], v, false);
      var rows := [row(Number(n)), row(Null), row(Null)];
      && Expected(Sum, rows, 0, 1, 2) == Number(0.0)
      && Result(Of(Sum, false), Stream(FrameRows(rows, 1, 3))) == Ok(Null)
  {
    hide Result, Qualifying;
    var row := v => PeerRanking.Row([], v, false);
    var rows := [row(Number(n)), row(Null), row(Null)];
    ParallelExactly(Sum, false, Stream(FrameRows(rows, 1, 3)));
    NothingFits(rows);
  }

  lemma {:induction false} NothingFits(rows: seq<PeerRanking.Row>)
    requires |rows| == 3 && rows[0].val.Number? && rows[1].val == Null && rows[2].val == Null
    ensures Q(Sum, rows, 1, 3) == [] && Q(Sum, rows, 0, 3) != []
  {
    hide Q;
    OneRowEnters(Sum, rows, 1, 1);
    OneRowEnters(Sum, rows, 1, 2);
    OneRowLeaves(Sum, rows, 0, 3);
    NoRows(Sum, rows, 1);
  }

  lemma {:induction false} NoRows(fn: Fn, rows: seq<PeerRanking.Row>, a: nat)
    requires a <= |rows|
    ensures Q(fn, rows, a, a) == []
  {
    assert FrameRows(rows, a, a) == [];
  }

  lemma {:induction false} QualifyingNothing(fn: Fn)
    ensures Qualifying(Fits(fn), []) == []
  {
  }

  // ---- All rows of a partition

  /** A bound of a ROWS frame: unbounded, or an offset that is negative for PRECEDING and 0 for CURRENT ROW. */
  datatype Bound = Unbounded | Offset(k: int)

  function SIndex(start: Bound, c: int): int {
    if start.Unbounded? then 0 else c + start.k
  }

  function EIndex(end: Bound, n: nat, c: int): int {
    if end.Unbounded? then n else c + end.k
  }

  /** The first and last row of the frame of row `c`; the frame is empty if the first comes after the last. */
  function First(start: Bound, c: int): nat {
    AtLeastZero(SIndex(start, c))
  }

  function Last(end: Bound, n: nat, c: int): int {
    Lesser(EIndex(end, n, c), n - 1)
  }

  /** The frame of row `c` follows that of row `c - 1`. */
  lemma {:induction false} FrameSlides(start: Bound, end: Bound, n: nat, c: nat)
    requires 0 < c < n && First(start, c) <= Last(end, n, c)
    ensures
      if First(start, c - 1) <= Last(end, n, c - 1)
      then Precedes(n, First(start, c - 1), Last(end, n, c - 1) + 1, SIndex(start, c), c, EIndex(end, n, c), 0)
      else end.Offset? && c + end.k == 0 && Precedes(n, 0, 0, SIndex(start, c), c, EIndex(end, n, c), 0)
    ensures First(start, 0) <= First(start, c - 1) <= First(start, c)
  {
  }

  // ---- Which rows a frame has

  /** Row `j` is in the frame of row `c`: not before the start and not after the end, counted from `c`. */
  predicate InFrame(start: Bound, end: Bound, c: int, j: int) {
    (start.Offset? ==> start.k <= j - c) && (end.Offset? ==> j - c <= end.k)
  }

  /** The rows of the partition, those of the frame of row `c` passing. */
  function Framed(rows: seq<PeerRanking.Row>, start: Bound, end: Bound, c: int): seq<Input> {
    seq(|rows|, j requires 0 <= j < |rows| => Input(InFrame(start, end, c, j), rows[j].val))
  }

  /** A frame that has rows but no number, when a number was in the frame of an earlier row. */
  ghost predicate Emptied(rows: seq<PeerRanking.Row>, start: Bound, end: Bound, c: int) {
    && (exists j :: 0 <= j < |rows| && InFrame(start, end, c, j))
    && (forall j :: 0 <= j < |rows| && InFrame(start, end, c, j) ==> !rows[j].val.Number?)
    && (exists i, j :: 0 <= i < c && 0 <= j < |rows| && InFrame(start, end, i, j) && rows[j].val.Number?)
  }

  lemma {:induction false} QualifyingNone(fits: Value -> bool, rows: seq<Input>)
    requires forall i :: 0 <= i < |rows| ==> !(rows[i].passes && fits(rows[i].operand))
    ensures Qualifying(fits, rows) == []
  {
    if rows != [] {
      QualifyingNone(fits, rows[..|rows| - 1]);
    }
  }

  lemma {:induction false} QualifyingFramed(fn: Fn, rows: seq<PeerRanking.Row>, start: Bound, end: Bound, c: nat)
    requires c < |rows|
    ensures
      var s, e := First(start, c), Last(end, |rows|, c);
      Qualifying(Fits(fn), Framed(rows, start, end, c)) == if s <= e then Q(fn, rows, s, e + 1) else []
  {
    hide Qualifying, FitsIn;
    var s, e, framed := First(start, c), Last(end, |rows|, c), Framed(rows, start, end, c);
    if s <= e {
      assert framed[s..e + 1] == FrameRows(rows, s, e + 1);
      QualifyingMiddle(Fits(fn), framed, s, e + 1);
    } else {
      QualifyingNone(Fits(fn), framed);
    }
  }

  lemma {:induction false} QualifyingMiddle(fits: Value -> bool, rows: seq<Input>, a: nat, b: nat)
    requires a <= b <= |rows| && forall i :: 0 <= i < |rows| && !(a <= i < b) ==> !rows[i].passes
    ensures Qualifying(fits, rows) == Qualifying(fits, rows[a..b])
  {
    hide Qualifying;
    QualifyingNone(fits, rows[..a]);
    QualifyingNone(fits, rows[b..]);
    QualifyingOfBoth(fits, rows[..a], rows[a..b]);
    QualifyingOfBoth(fits, rows[..b], rows[b..]);
    assert rows[..a] + rows[a..b] == rows[..b] && rows[..b] + rows[b..] == rows;
  }

  lemma {:induction false} NoOperand(fn: Fn, rows: seq<PeerRanking.Row>, a: nat, b: nat)
    requires a <= b <= |rows|
    ensures Q(fn, rows, a, b) == [] <==> forall j :: a <= j < b ==> !FitsIn(fn, rows[j].val)
    decreases b - a
  {
    hide Q, FitsIn;
    if a == b {
      NoRows(fn, rows, a);
    } else {
      OneRowEnters(fn, rows, a, b - 1);
      NoOperand(fn, rows, a, b - 1);
    }
  }

  lemma {:induction false} EmptiedExactly(rows: seq<PeerRanking.Row>, start: Bound, end: Bound, c: nat)
    requires c < |rows|
    ensures
      var from, s, e := First(start, 0), First(start, c), Last(end, |rows|, c);
      Emptied(rows, start, end, c) <==> s <= e && Q(Sum, rows, s, e + 1) == [] && Q(Sum, rows, from, e + 1) != []
  {
    hide Q;
    var from, s, e := First(start, 0), First(start, c), Last(end, |rows|, c);
    if s <= e {
      NoOperand(Sum, rows, s, e + 1);
      NoOperand(Sum, rows, from, e + 1);
      assert InFrame(start, end, c, e);
      if Q(Sum, rows, s, e + 1) == [] {
        forall j | 0 <= j < |rows| && InFrame(start, end, c, j) ensures !rows[j].val.Number? {
          assert s <= j < e + 1;
        }
        if Q(Sum, rows, from, e + 1) != [] {
          var j :| from <= j < e + 1 && FitsIn(Sum, rows[j].val);
          EarlierFrame(start, end, |rows|, c, j);
        }
        if i, j :| 0 <= i < c && 0 <= j < |rows| && InFrame(start, end, i, j) && rows[j].val.Number? {
          assert from <= j < e + 1 && FitsIn(Sum, rows[j].val);
        }
      } else {
        var j :| s <= j < e + 1 && FitsIn(Sum, rows[j].val);
        assert InFrame(start, end, c, j);
      }
    }
  }

  /** A row passed over on the way to the frame of row `c` was in the frame of an earlier row. */
  lemma {:induction false} EarlierFrame(start: Bound, end: Bound, n: nat, c: nat, j: nat)
    requires c < n && First(start, 0) <= j < First(start, c) <= Last(end, n, c)
    ensures exists i :: 0 <= i < c && InFrame(start, end, i, j)
  {
    var i := j - start.k;
    assert InFrame(start, end, i, j);
  }

  /** The positions of a frame are those of the rows that are in it. */
  lemma {:induction false} FrameExactly(start: Bound, end: Bound, n: nat, c: nat, j: nat)
    requires c < n && j < n
    ensures First(start, c) <= j <= Last(end, n, c) <==> InFrame(start, end, c, j)
  {
  }

  /** What a row gets, said over the rows that are in its frame. */
  lemma {:induction false} ExpectedOfFrame(fn: Fn, rows: seq<PeerRanking.Row>, start: Bound, end: Bound, c: nat)
    requires Incremental(fn) && c < |rows|
    ensures
      var value := Expected(fn, rows, First(start, 0), First(start, c), Last(end, |rows|, c));
      if fn.Sum? && Emptied(rows, start, end, c) then value == Number(0.0)
      else Result(Of(fn, false), Stream(Framed(rows, start, end, c))) == Ok(value)
  {
    hide Result, Qualifying, Emptied, Q;
    QualifyingFramed(fn, rows, start, end, c);
    EmptiedExactly(rows, start, end, c);
    ParallelExactly(fn, false, Stream(Framed(rows, start, end, c)));
    assert Rows(Stream(Framed(rows, start, end, c))) == Framed(rows, start, end, c);
  }

  /** `processWindowAggregates` over a partition, for a ROWS frame. */
  method SlideRows(fn: Fn, rows: seq<PeerRanking.Row>, start: Bound, end: Bound) returns (values: seq<Value>)
    requires Incremental(fn)
    ensures |values| == |rows|
    ensures forall c :: 0 <= c < |rows| ==>
      values[c] == Expected(fn, rows, First(start, 0), First(start, c), Last(end, |rows|, c))
    ensures forall c :: 0 <= c < |rows| ==>
      if fn.Sum? && Emptied(rows, start, end, c) then values[c] == Number(0.0)
      else Result(Of(fn, false), Stream(Framed(rows, start, end, c))) == Ok(values[c])
  {
    hide Holds, Expected, Precedes, Emptied, Result, Framed;
    values := [];
    var info := new AggregateInfo(fn);
    ghost var from, n := First(start, 0), |rows|;
    for c := 0 to |rows|
      invariant info.fn == fn && info.dupsFollowing == 0 && |values| == c
      invariant c == 0 || (end.Offset? && c + end.k <= 0) ==> info.cumVal == Default(fn)
      invariant c > 0 && First(start, c - 1) <= Last(end, n, c - 1) ==>
        Holds(fn, rows, info.cumVal, from, First(start, c - 1), Last(end, n, c - 1) + 1)
      invariant forall i :: 0 <= i < c ==> values[i] == Expected(fn, rows, from, First(start, i), Last(end, n, i))
    {
      ghost var lo, hi := 0, 0;
      if First(start, c) <= Last(end, n, c) {
        lo, hi := Held(fn, rows, start, end, c, info.cumVal);
      }
      info.Evaluate(rows, SIndex(start, c), c, EIndex(end, |rows|, c), from, lo, hi);
      values := values + [info.val];
    }
    forall c | 0 <= c < |rows|
      ensures
        if fn.Sum? && Emptied(rows, start, end, c) then values[c] == Number(0.0)
        else Result(Of(fn, false), Stream(Framed(rows, start, end, c))) == Ok(values[c])
    {
      ExpectedOfFrame(fn, rows, start, end, c);
    }
  }

  /** The rows that the cumulative value stands for before row `c` is evaluated. */
  lemma {:induction false} Held(fn: Fn, rows: seq<PeerRanking.Row>, start: Bound, end: Bound, c: nat, cumVal: Cumulative) returns (lo: nat, hi: nat)
    requires Incremental(fn) && c < |rows| && First(start, c) <= Last(end, |rows|, c)
    requires c == 0 || (end.Offset? && c + end.k <= 0) ==> cumVal == Default(fn)
    requires c > 0 && First(start, c - 1) <= Last(end, |rows|, c - 1) ==>
      Holds(fn, rows, cumVal, First(start, 0), First(start, c - 1), Last(end, |rows|, c - 1) + 1)
    ensures Holds(fn, rows, cumVal, First(start, 0), lo, hi)
    ensures Precedes(|rows|, lo, hi, SIndex(start, c), c, EIndex(end, |rows|, c), 0)
  {
    hide Holds;
    lo, hi := First(start, 0), First(start, 0);
    if c == 0 {
      NothingHeld(fn, rows, lo);
    } else {
      FrameSlides(start, end, |rows|, c);
      if First(start, c - 1) <= Last(end, |rows|, c - 1) {
        lo, hi := First(start, c - 1), Last(end, |rows|, c - 1) + 1;
      } else {
        lo, hi := 0, 0;
        NothingHeld(fn, rows, 0);
      }
    }
  }

  // ---- From the start of the partition to the peers of the current row

  /** The last row that is a peer of row `c`. */
  ghost predicate IsLastPeer(rows: seq<PeerRanking.Row>, c: nat, k: int) {
    && c <= k < |rows|
    && (forall j :: c <= j <= k ==> NthValue.SameKeys(rows[j], rows[c]))
    && (k + 1 < |rows| ==> !NthValue.SameKeys(rows[k + 1], rows[c]))
  }

  lemma {:induction false} LastPeerIsShared(rows: seq<PeerRanking.Row>, first: nat, k: int, c: nat, l: int)
    requires IsLastPeer(rows, first, k) && first <= c <= k && IsLastPeer(rows, c, l)
    ensures l == k
  {
    hide NthValue.SameKeys;
    if l < k {
      NthValue.SameKeysIsEquivalence(rows[l + 1], rows[first], rows[c]);
      NthValue.SameKeysIsEquivalence(rows[c], rows[first], rows[c]);
    } else if k < l {
      NthValue.SameKeysIsEquivalence(rows[k + 1], rows[c], rows[first]);
    }
  }

  /** `processWindowAggregates` over a partition, for the default frame and RANGE or GROUPS from UNBOUNDED PRECEDING to CURRENT ROW: peers are evaluated once. */
  method SlidePeers(fn: Fn, rows: seq<PeerRanking.Row>) returns (values: seq<Value>)
    requires Incremental(fn)
    ensures |values| == |rows|
    ensures forall c, k :: 0 <= c < |rows| && IsLastPeer(rows, c, k) ==>
      values[c] == Expected(fn, rows, 0, 0, k) && Result(Of(fn, false), Stream(FrameRows(rows, 0, k + 1))) == Ok(values[c])
  {
    hide Holds, Expected, NthValue.SameKeys, Result, FrameRows;
    values := [];
    var info := new AggregateInfo(fn);
    ghost var first := 0;
    NothingHeld(fn, rows, 0);
    for c := 0 to |rows|
      invariant info.fn == fn && |values| == c && c + info.dupsFollowing <= |rows|
      invariant Holds(fn, rows, info.cumVal, 0, 0, c + info.dupsFollowing)
      invariant info.dupsFollowing > 0 ==> first < c && IsLastPeer(rows, first, c + info.dupsFollowing - 1)
      invariant info.dupsFollowing > 0 ==> info.val == Expected(fn, rows, 0, 0, c + info.dupsFollowing - 1)
      invariant forall i, k :: 0 <= i < c && IsLastPeer(rows, i, k) ==> values[i] == Expected(fn, rows, 0, 0, k)
    {
      if c == 0 || info.dupsFollowing == 0 {
        var dups := NthValue.DuplicatesDirection(NthValue.SameKeys, rows, c, 1);
        first := c;
        info.dupsFollowing := dups;
        GroupFound(rows, c, dups);
        info.Evaluate(rows, 0, c, c + dups, 0, 0, c);
      } else {
        info.dupsFollowing := info.dupsFollowing - 1;
      }
      forall k | IsLastPeer(rows, c, k) ensures info.val == Expected(fn, rows, 0, 0, k) {
        LastPeerIsShared(rows, first, c + info.dupsFollowing, c, k);
      }
      values := values + [info.val];
    }
    forall c, k | 0 <= c < |rows| && IsLastPeer(rows, c, k)
      ensures values[c] == Expected(fn, rows, 0, 0, k) && Result(Of(fn, false), Stream(FrameRows(rows, 0, k + 1))) == Ok(values[c])
    {
      ExpectedExactly(fn, rows, 0, 0, k);
    }
  }

  /** A row is the last of its peers exactly if no row follows or some ORDER BY key of the next row differs. */
  lemma {:induction false} OwnGroupExactly(rows: seq<PeerRanking.Row>, c: nat)
    requires c < |rows|
    ensures IsLastPeer(rows, c, c)
       <==> c + 1 == |rows| || |rows[c + 1].keys| != |rows[c].keys|
            || exists i :: 0 <= i < |rows[c].keys| && Collate(rows[c + 1].keys[i], rows[c].keys[i]) != 0
  {
    hide Collate;
    NthValue.SameKeysIsEquivalence(rows[c], rows[c], rows[c]);
  }

  lemma {:induction false} GroupFound(rows: seq<PeerRanking.Row>, c: nat, dups: nat)
    requires c + dups < |rows|
    requires forall j :: 0 < j <= dups ==> NthValue.SameKeys(rows[NthValue.Step(c, 1, j)], rows[c])
    requires c + dups + 1 < |rows| ==> !NthValue.SameKeys(rows[c + dups + 1], rows[c])
    ensures IsLastPeer(rows, c, c + dups)
  {
    forall j | c <= j <= c + dups ensures NthValue.SameKeys(rows[j], rows[c]) {
      NthValue.SameKeysIsEquivalence(rows[c], rows[c], rows[c]);
      assert j > c ==> NthValue.SameKeys(rows[NthValue.Step(c, 1, j - c)], rows[c]);
    }
  }
}
