/**
 What each aggregate function gives, said on the rows alone: how one more row changes the result, and what the
 result is among the values of the rows. These laws determine every function and use none of its definitions.
 */
module AggregateLaws {
  import opened Wrappers
  import opened Sorting
  import opened Collation
  import opened CollationLaws
  import opened Sums
  import opened Moments
  import opened Accumulators
  import opened MergeTrees
  import opened Aggregates
  import opened ParallelAggregation
  import Med = Median

  /** The result of a function over the rows of a group. */
  ghost function Answer(fn: Fn, distinct: bool, rows: seq<Input>): Value
    requires Valid(fn)
  {
    ParallelExactly(fn, distinct, Stream(rows));
    Result(Of(fn, distinct), Stream(rows)).value
  }

  ghost function Counted(fn: Fn, rows: seq<Input>): seq<Value> {
    Qualifying(Fits(fn), rows)
  }

  lemma {:induction false} AnswerMeans(fn: Fn, distinct: bool, rows: seq<Input>)
    requires Valid(fn)
    ensures Result(Of(fn, distinct), Stream(rows)) == Ok(Answer(fn, distinct, rows))
    ensures Answer(fn, distinct, rows) == Meaning(fn, distinct, Counted(fn, rows))
  {
    hide Result, Meaning, Qualifying;
    ParallelExactly(fn, distinct, Stream(rows));
    assert Rows(Stream(rows)) == rows;
  }

  lemma {:induction false} OneMoreRow(fn: Fn, rows: seq<Input>, row: Input)
    ensures Counted(fn, rows + [row]) == Counted(fn, rows) + if row.passes && FitsIn(fn, row.operand) then [row.operand] else []
  {
    assert (rows + [row])[..|rows|] == rows;
  }

  lemma {:induction false} NoRows(fn: Fn)
    ensures Counted(fn, []) == []
  {
  }

  // ---- Rows that do not count

  /** A row that does not pass the filter changes no result. */
  lemma {:induction false} FilteredRow(fn: Fn, distinct: bool, rows: seq<Input>, v: Value)
    requires Valid(fn)
    ensures Answer(fn, distinct, rows + [Input(false, v)]) == Answer(fn, distinct, rows)
  {
    Skipped(fn, distinct, rows, Input(false, v));
  }

  lemma {:induction false} Skipped(fn: Fn, distinct: bool, rows: seq<Input>, row: Input)
    requires Valid(fn) && !(row.passes && FitsIn(fn, row.operand))
    ensures Answer(fn, distinct, rows + [row]) == Answer(fn, distinct, rows)
  {
    hide Answer, Meaning, Counted;
    AnswerMeans(fn, distinct, rows);
    AnswerMeans(fn, distinct, rows + [row]);
    OneMoreRow(fn, rows, row);
    assert Counted(fn, rows) + [] == Counted(fn, rows);
  }

  /** MISSING changes no result but that of COUNT(*), and NULL moreover none but that of ARRAY_AGG. */
  lemma {:induction false} AbsentValue(fn: Fn, distinct: bool, rows: seq<Input>, v: Value)
    requires Valid(fn) && fn != Count(true) && (v == Missing || (v == Null && fn != ArrayAgg))
    ensures Answer(fn, distinct, rows + [Input(true, v)]) == Answer(fn, distinct, rows)
  {
    Skipped(fn, distinct, rows, Input(true, v));
  }

  /** What is no number changes none of SUM, AVG, COUNTN, MEDIAN and the variances, and a binary not ARRAY_AGG. */
  lemma {:induction false} OtherValue(fn: Fn, distinct: bool, rows: seq<Input>, v: Value)
    requires Valid(fn)
    requires if fn.Sum? || fn.Avg? || fn.CountN? || fn.Median? || fn.Variance? then !v.Number? else fn.ArrayAgg? && v.Binary?
    ensures Answer(fn, distinct, rows + [Input(true, v)]) == Answer(fn, distinct, rows)
  {
    Skipped(fn, distinct, rows, Input(true, v));
  }

  // ---- Counts, sums and means

  /** Without rows a count is 0 and everything else is NULL. */
  lemma {:induction false} NothingToAggregate(fn: Fn, distinct: bool)
    requires Valid(fn)
    ensures Answer(fn, distinct, []) == if fn.Count? || fn.CountN? then Number(0.0) else Null
  {
    hide Qualifying;
    AnswerMeans(fn, distinct, []);
    NoRows(fn);
    hide Answer, Aggregates.Extreme, Sort;
    OperandsOf(distinct, []);
    MedianOfNone();
  }

  /** Every row raises COUNT(*) by one, every value but NULL and MISSING raises COUNT, and every number COUNTN. */
  lemma {:induction false} CountsOne(fn: Fn, rows: seq<Input>, v: Value)
    requires (fn.Count? && (fn.star || (v != Missing && v != Null))) || (fn.CountN? && v.Number?)
    ensures Answer(fn, false, rows).Number?
    ensures Answer(fn, false, rows + [Input(true, v)]) == Number(Answer(fn, false, rows).n + 1.0)
  {
    hide Answer, Counted;
    AnswerMeans(fn, false, rows);
    AnswerMeans(fn, false, rows + [Input(true, v)]);
    OneMoreRow(fn, rows, Input(true, v));
  }

  /** A number is added to the sum. */
  lemma {:induction false} SumsUp(rows: seq<Input>, n: real)
    ensures
      var before := Answer(Sum, false, rows);
      (before == Null || before.Number?) && Answer(Sum, false, rows + [Input(true, Number(n))]) == Number(if before == Null then n else before.n + n)
  {
    hide Answer, Counted, SumOf;
    AnswerMeans(Sum, false, rows);
    AnswerMeans(Sum, false, rows + [Input(true, Number(n))]);
    OneMoreRow(Sum, rows, Input(true, Number(n)));
    FirstOperand(Counted(Sum, rows), Number(n));
    assert Num(Number(n)) == n;
  }

  lemma {:induction false} SameOperands(fn: Fn, other: Fn, rows: seq<Input>)
    requires forall v :: FitsIn(fn, v) <==> FitsIn(other, v)
    ensures Counted(fn, rows) == Counted(other, rows)
  {
    if rows != [] {
      SameOperands(fn, other, rows[..|rows| - 1]);
      OneMoreRow(fn, rows[..|rows| - 1], rows[|rows| - 1]);
      OneMoreRow(other, rows[..|rows| - 1], rows[|rows| - 1]);
      assert rows[..|rows| - 1] + [rows[|rows| - 1]] == rows;
    }
  }

  /** AVG is SUM over COUNTN, or NULL. */
  lemma {:induction false} MeanIsQuotient(distinct: bool, rows: seq<Input>)
    ensures
      var sum, count := Answer(Sum, distinct, rows), Answer(CountN, distinct, rows);
      && count.Number? && count.n >= 0.0
      && (count.n > 0.0 ==> sum.Number?)
      && Answer(Avg, distinct, rows) == if count.n == 0.0 then Null else Number(sum.n / count.n)
  {
    hide Answer, Counted, SumOf, Operands;
    AnswerMeans(Sum, distinct, rows);
    AnswerMeans(CountN, distinct, rows);
    AnswerMeans(Avg, distinct, rows);
    SameOperands(Sum, CountN, rows);
    SameOperands(Sum, Avg, rows);
    OperandsOf(distinct, Counted(Sum, rows));
  }

  // ---- Least and greatest values, and arrays

  lemma {:induction false} CountedValues(fn: Fn, rows: seq<Input>)
    ensures forall v :: v in Counted(fn, rows) <==> Input(true, v) in rows && FitsIn(fn, v)
  {
    hide Qualifying, FitsIn;
    forall v ensures v in Counted(fn, rows) <==> Input(true, v) in rows && FitsIn(fn, v) {
      QualifyingCount(Fits(fn), rows, v);
      assert v in Counted(fn, rows) <==> v in multiset(Counted(fn, rows));
      assert Input(true, v) in rows <==> Input(true, v) in multiset(rows);
    }
  }

  /** MIN is a value of the rows that comes before all others, MAX one that comes after, and NULL stands for none. */
  lemma {:induction false} ExtremeOfRows(max: bool, distinct: bool, rows: seq<Input>)
    ensures
      var found := Answer(if max then Max else Min, distinct, rows);
      && (found == Null <==> forall v :: Input(true, v) in rows ==> v == Missing || v == Null)
      && (found != Null ==> found != Missing && Input(true, found) in rows)
      && forall v :: Input(true, v) in rows && v != Missing && v != Null ==> if max then Collate(v, found) <= 0 else Collate(found, v) <= 0
  {
    hide Answer, Counted, Collate, Extreme;
    var fn := if max then Max else Min;
    AnswerMeans(fn, distinct, rows);
    CountedValues(fn, rows);
    var q := Counted(fn, rows);
    OrderIsTotal(max);
    if q != [] {
      ExtremeIsFirst(Order(max), q);
      ExtremeOccurs(Order(max), q);
      assert Input(true, q[0]) in rows && TypeOf(q[0]) > NULL by { assert q[0] in q; }
    }
    forall v | Input(true, v) in rows && v != Missing && v != Null
      ensures if max then Collate(v, Answer(fn, distinct, rows)) <= 0 else Collate(Answer(fn, distinct, rows), v) <= 0
    {
      assert v in q;
      CollateIsTotal();
    }
  }

  /** Among numbers MIN is the smallest and MAX the largest. */
  lemma {:induction false} ExtremeNumber(max: bool, distinct: bool, rows: seq<Input>, n: real)
    requires Input(true, Number(n)) in rows
    ensures
      var found := Answer(if max then Max else Min, distinct, rows);
      found.Number? ==> if max then n <= found.n else found.n <= n
  {
    hide Answer, Collate;
    ExtremeOfRows(max, distinct, rows);
    var found := Answer(if max then Max else Min, distinct, rows);
    if found.Number? {
      ScalarsBySize(n, found.n);
      ScalarsBySize(found.n, n);
      assert found != Null;
    }
  }

  ghost function Items(v: Value): seq<Value> {
    if v.Array? then v.items else []
  }

  /** ARRAY_AGG gains each value that is neither MISSING nor binary. */
  lemma {:induction false} ArrayGains(rows: seq<Input>, v: Value)
    requires v != Missing && !v.Binary?
    ensures
      var before, after := Answer(ArrayAgg, false, rows), Answer(ArrayAgg, false, rows + [Input(true, v)]);
      (before == Null || before.Array?) && after.Array? && multiset(after.items) == multiset(Items(before)) + multiset{v}
  {
    hide Answer, Counted, Meaning;
    AnswerMeans(ArrayAgg, false, rows);
    AnswerMeans(ArrayAgg, false, rows + [Input(true, v)]);
    OneMoreRow(ArrayAgg, rows, Input(true, v));
    ArrayHasAll(Counted(ArrayAgg, rows));
    ArrayHasAll(Counted(ArrayAgg, rows) + [v]);
  }

  lemma {:induction false} ArrayHasAll(q: seq<Value>)
    ensures
      var all := Meaning(ArrayAgg, false, q);
      (if q == [] then all == Null else all.Array?) && multiset(Items(all)) == multiset(q)
  {
    hide Collate, Sort;
    CollateIsTotal();
    SortSorts(Collate, q);
  }

  /** The items are in order; with DISTINCT they are the values of the rows, each once. */
  lemma {:induction false} ArrayInOrder(distinct: bool, rows: seq<Input>)
    ensures
      var items := Items(Answer(ArrayAgg, distinct, rows));
      && (forall i, j :: 0 <= i < j < |items| ==> Collate(items[i], items[j]) <= 0)
      && (forall i, j :: 0 <= i < j < |items| && items[i].Number? && items[j].Number? ==> items[i].n <= items[j].n)
      && (forall v :: v in items <==> Input(true, v) in rows && v != Missing && !v.Binary?)
      && (distinct ==> forall v :: multiset(items)[v] <= 1)
  {
    hide Answer, Counted, Collate, Sort, Operands;
    AnswerMeans(ArrayAgg, distinct, rows);
    CountedValues(ArrayAgg, rows);
    var q := Counted(ArrayAgg, rows);
    OperandsOf(distinct, q);
    var e := Operands(distinct, q);
    CollateIsTotal();
    SortSorts(Collate, e);
    var items := Items(Answer(ArrayAgg, distinct, rows));
    assert items == if q == [] then [] else Sort(Collate, e);
    assert multiset(items) == multiset(e);
    SameValues(items, e);
    NumbersAscend(items);
    DistinctOnce(distinct, q);
  }

  lemma {:induction false} SameValues(s: seq<Value>, t: seq<Value>)
    requires multiset(s) == multiset(t)
    ensures forall v :: v in s <==> v in t
  {
    forall v ensures v in s <==> v in t {
      assert v in s <==> v in multiset(s);
      assert v in t <==> v in multiset(t);
    }
  }

  lemma {:induction false} NumbersAscend(items: seq<Value>)
    requires Sorted(Collate, items)
    ensures forall i, j :: 0 <= i < j < |items| && items[i].Number? && items[j].Number? ==> items[i].n <= items[j].n
  {
    hide Collate;
    forall i, j | 0 <= i < j < |items| && items[i].Number? && items[j].Number? ensures items[i].n <= items[j].n {
      ScalarsBySize(items[i].n, items[j].n);
      ScalarsBySize(items[j].n, items[i].n);
      assert Collate(items[i], items[j]) <= 0;
    }
  }

  lemma {:induction false} DistinctOnce(distinct: bool, q: seq<Value>)
    ensures distinct ==> forall v :: multiset(Operands(distinct, q))[v] <= 1
  {
    if distinct {
      assert multiset(Operands(distinct, q)) == multiset(Members(q));
    }
  }

  // ---- DISTINCT

  /** With DISTINCT a value that is there already changes nothing. */
  lemma {:induction false} RepeatedValue(fn: Fn, rows: seq<Input>, v: Value)
    requires Valid(fn) && Input(true, v) in rows
    ensures Answer(fn, true, rows + [Input(true, v)]) == Answer(fn, true, rows)
  {
    hide Answer, Counted, Collate, Extreme, Members, SumOf, MedianOf, TextbookVariance, Sort, Listed;
    if FitsIn(fn, v) {
      AnswerMeans(fn, true, rows);
      AnswerMeans(fn, true, rows + [Input(true, v)]);
      OneMoreRow(fn, rows, Input(true, v));
      CountedValues(fn, rows);
      var q := Counted(fn, rows);
      assert v in q;
      SameMembers(q, v);
      OrderIsTotal(fn.Max?);
      ExtremeIsFirst(Order(fn.Max?), q);
      ExtremeOneMore(Order(fn.Max?), q, v);
    } else {
      Skipped(fn, true, rows, Input(true, v));
    }
  }

  lemma {:induction false} SameMembers(q: seq<Value>, v: Value)
    requires v in q
    ensures Members(q + [v]) == Members(q)
  {
  }

  /** Without repeated values DISTINCT makes no difference. */
  lemma {:induction false} NothingRepeated(fn: Fn, rows: seq<Input>)
    requires Valid(fn) && forall i, j :: 0 <= i < j < |rows| && rows[i].passes && rows[j].passes ==> rows[i].operand != rows[j].operand
    ensures SameResult(fn, Answer(fn, true, rows), Answer(fn, false, rows))
  {
    hide Answer, Counted, Collate, Extreme, Members, SumOf, MedianOf, TextbookVariance, Sort, Listed, SameUpToCollation;
    AnswerMeans(fn, true, rows);
    AnswerMeans(fn, false, rows);
    var q := Counted(fn, rows);
    EachOnce(fn, rows);
    OperandsOf(true, q);
    MeaningIgnoresOrder(fn, false, Operands(true, q), q);
    if fn.Min? || fn.Max? {
      CollateIsReflexive(Answer(fn, true, rows));
    }
  }

  lemma {:induction false} EachOnce(fn: Fn, rows: seq<Input>)
    requires forall i, j :: 0 <= i < j < |rows| && rows[i].passes && rows[j].passes ==> rows[i].operand != rows[j].operand
    ensures multiset(Operands(true, Counted(fn, rows))) == multiset(Counted(fn, rows))
  {
    hide Listed, Qualifying, FitsIn;
    var q := Counted(fn, rows);
    CountedValues(fn, rows);
    forall v ensures multiset(q)[v] == multiset(Members(q))[v] {
      QualifyingCount(Fits(fn), rows, v);
      AtMostOnce(rows, Input(true, v));
      assert v in q <==> v in multiset(q);
    }
  }

  lemma {:induction false} AtMostOnce(rows: seq<Input>, row: Input)
    requires forall i, j :: 0 <= i < j < |rows| && rows[i] == row ==> rows[j] != row
    ensures multiset(rows)[row] <= 1
  {
    if row in rows {
      var i :| 0 <= i < |rows| && rows[i] == row;
      assert rows == rows[..i] + [row] + rows[i + 1..];
      assert row !in rows[..i] && row !in rows[i + 1..];
    } else {
      assert row !in multiset(rows);
    }
  }

  // ---- The median

  /** The rows with a number that has a property. */
  function NumberRows(rows: seq<Input>, holds: real -> bool): set<int> {
    set i | 0 <= i < |rows| && rows[i].passes && rows[i].operand.Number? && holds(rows[i].operand.n)
  }

  lemma {:induction false} NumberRowsCounted(rows: seq<Input>, holds: real -> bool)
    ensures |NumberRows(rows, holds)| == |Med.Positions(Numbers(Counted(Median, rows)), holds)|
  {
    if rows == [] {
      assert NumberRows(rows, holds) == {} && Med.Positions(Numbers(Counted(Median, rows)), holds) == {};
    } else {
      var init, last := rows[..|rows| - 1], rows[|rows| - 1];
      NumberRowsCounted(init, holds);
      assert init + [last] == rows;
      OneMoreRow(Median, init, last);
      OneMoreNumberRow(init, last, holds);
      OneMoreNumber(Counted(Median, init), last, holds);
    }
  }

  lemma {:induction false} OneMoreNumberRow(init: seq<Input>, last: Input, holds: real -> bool)
    ensures |NumberRows(init + [last], holds)|
         == |NumberRows(init, holds)| + if last.passes && last.operand.Number? && holds(last.operand.n) then 1 else 0
  {
    assert NumberRows(init + [last], holds)
        == NumberRows(init, holds) + if last.passes && last.operand.Number? && holds(last.operand.n) then {|init|} else {};
  }

  lemma {:induction false} OneMoreNumber(q: seq<Value>, last: Input, holds: real -> bool)
    ensures |Med.Positions(Numbers(q + if last.passes && FitsIn(Median, last.operand) then [last.operand] else []), holds)|
         == |Med.Positions(Numbers(q), holds)| + if last.passes && last.operand.Number? && holds(last.operand.n) then 1 else 0
  {
    if last.passes && last.operand.Number? {
      var more := Numbers(q + [last.operand]);
      Med.OneMorePosition(more, holds);
      assert more[..|more| - 1] == Numbers(q);
    } else {
      assert q + [] == q;
    }
  }

  /** A number of the rows with at most `k` rows below it and more than `k` not above it. */
  ghost predicate HasRank(rows: seq<Input>, k: nat, x: real) {
    && Input(true, Number(x)) in rows
    && |set i | 0 <= i < |rows| && rows[i].passes && rows[i].operand.Number? && rows[i].operand.n < x| <= k
    && |set i | 0 <= i < |rows| && rows[i].passes && rows[i].operand.Number? && rows[i].operand.n <= x| > k
  }

  lemma {:induction false} RankOfRow(rows: seq<Input>, k: nat, x: real)
    requires HasRank(rows, k, x)
    ensures Med.HasRank(Numbers(Counted(Median, rows)), k, x)
  {
    var vals := Numbers(Counted(Median, rows));
    NumberRowsCounted(rows, v => v < x);
    NumberRowsCounted(rows, v => v <= x);
    assert NumberRows(rows, v => v < x) == set i | 0 <= i < |rows| && rows[i].passes && rows[i].operand.Number? && rows[i].operand.n < x;
    assert NumberRows(rows, v => v <= x) == set i | 0 <= i < |rows| && rows[i].passes && rows[i].operand.Number? && rows[i].operand.n <= x;
    assert Med.Positions(vals, v => v < x) == set i | 0 <= i < |vals| && vals[i] < x;
    assert Med.Positions(vals, v => v <= x) == set i | 0 <= i < |vals| && vals[i] <= x;
    CountedValues(Median, rows);
    var i :| 0 <= i < |vals| && Counted(Median, rows)[i] == Number(x);
    assert vals[i] == x;
  }

  /** MEDIAN is the mean of the two numbers in the middle of the rows, by their rank. */
  lemma {:induction false} MedianOfRows(rows: seq<Input>, lo: real, hi: real)
    requires
      var n := |set i | 0 <= i < |rows| && rows[i].passes && rows[i].operand.Number?|;
      n > 0 && HasRank(rows, (n - 1) / 2, lo) && HasRank(rows, n / 2, hi)
    ensures Answer(Median, false, rows) == Number((lo + hi) / 2.0)
  {
    hide Answer, Counted, HasRank, Med.HasRank, Med.MiddleOf;
    var n := |set i | 0 <= i < |rows| && rows[i].passes && rows[i].operand.Number?|;
    AnswerMeans(Median, false, rows);
    var vals := Numbers(Counted(Median, rows));
    NumberRowsCounted(rows, v => true);
    assert NumberRows(rows, v => true) == set i | 0 <= i < |rows| && rows[i].passes && rows[i].operand.Number?;
    AllPositions(vals);
    RankOfRow(rows, (n - 1) / 2, lo);
    RankOfRow(rows, n / 2, hi);
    Med.MedianExactly(vals, lo, hi);
  }

  lemma {:induction false} AllPositions(vals: seq<real>)
    ensures |Med.Positions(vals, v => true)| == |vals|
  {
    if vals == [] {
      assert Med.Positions(vals, v => true) == {};
    } else {
      AllPositions(vals[..|vals| - 1]);
      Med.OneMorePosition(vals, v => true);
    }
  }

  // ---- The variances

  function Squared(row: Input): Input {
    if row.operand.Number? then Input(row.passes, Number(row.operand.n * row.operand.n)) else row
  }

  /** The rows with every number squared. */
  function SquaredRows(rows: seq<Input>): seq<Input> {
    seq(|rows|, i requires 0 <= i < |rows| => Squared(rows[i]))
  }

  lemma {:induction false} SumOfSquares(rows: seq<Input>)
    ensures SumOf(Num, Counted(Sum, SquaredRows(rows))) == SumOf(Power(Num), Counted(Sum, rows))
    ensures |Counted(Sum, SquaredRows(rows))| == |Counted(Sum, rows)|
  {
    hide SumOf, Counted, Squared;
    if rows == [] {
      NoRows(Sum);
      assert SquaredRows(rows) == [];
      SumOfNothing(Counted(Sum, rows));
    } else {
      var init, last := rows[..|rows| - 1], rows[|rows| - 1];
      SumOfSquares(init);
      assert rows == init + [last] && SquaredRows(rows) == SquaredRows(init) + [Squared(last)];
      SquaredRow(init, SquaredRows(init), last);
    }
  }

  lemma {:induction false} SquaredRow(rows: seq<Input>, squares: seq<Input>, last: Input)
    requires SumOf(Num, Counted(Sum, squares)) == SumOf(Power(Num), Counted(Sum, rows))
    requires |Counted(Sum, squares)| == |Counted(Sum, rows)|
    ensures SumOf(Num, Counted(Sum, squares + [Squared(last)])) == SumOf(Power(Num), Counted(Sum, rows + [last]))
    ensures |Counted(Sum, squares + [Squared(last)])| == |Counted(Sum, rows + [last])|
  {
    hide SumOf, Counted;
    OneMoreRow(Sum, rows, last);
    OneMoreRow(Sum, squares, Squared(last));
    if last.passes && last.operand.Number? {
      SquareAdded(Counted(Sum, rows), Counted(Sum, squares), last.operand.n);
    } else {
      assert Counted(Sum, rows) + [] == Counted(Sum, rows) && Counted(Sum, squares) + [] == Counted(Sum, squares);
    }
  }

  lemma {:induction false} SquareAdded(q: seq<Value>, squares: seq<Value>, n: real)
    requires SumOf(Num, squares) == SumOf(Power(Num), q)
    ensures SumOf(Num, squares + [Number(n * n)]) == SumOf(Power(Num), q + [Number(n)])
  {
    hide SumOf;
    SumOfOneMore(Power(Num), q, Number(n));
    SumOfOneMore(Num, squares, Number(n * n));
    assert Num(Number(n)) == n && Num(Number(n * n)) == n * n == Square(n);
    assert Power(Num)(Number(n)) == Square(Num(Number(n)));
  }

  lemma {:induction false} SumOfNothing(q: seq<Value>)
    requires q == []
    ensures SumOf(Num, q) == SumOf(Power(Num), q) == 0.0
  {
  }

  function SpreadBy(count: real, freedom: real, sum: real, squares: real): real
    requires count >= 2.0 && freedom >= 1.0
  {
    (count * squares - sum * sum) / (count * freedom)
  }

  /** The variances by the number of values, their sum and the sum of their squares. */
  function VarianceBy(fn: Fn, count: real, sum: real, squares: real): Value {
    if count == 0.0 || (count == 1.0 && fn == VAR_SAMP) then Null
    else if count < 2.0 then Number(0.0)
    else Number(SpreadBy(count, if fn == VAR_POP then count else count - 1.0, sum, squares))
  }

  /** The variances are computed from COUNTN, SUM and the SUM of the squares. */
  lemma {:induction false} VarianceOfRows(fn: Fn, rows: seq<Input>)
    requires fn == VARIANCE || fn == VAR_POP || fn == VAR_SAMP
    ensures
      var count, sum, squares := Answer(CountN, false, rows), Answer(Sum, false, rows), Answer(Sum, false, SquaredRows(rows));
      && count.Number? && (count.n == 0.0 || (sum.Number? && squares.Number?))
      && Answer(fn, false, rows) == if count.n == 0.0 then Null else VarianceBy(fn, count.n, sum.n, squares.n)
  {
    hide Answer, Counted, SumOf, Meaning, VarianceBy;
    AnswerMeans(CountN, false, rows);
    AnswerMeans(Sum, false, rows);
    AnswerMeans(Sum, false, SquaredRows(rows));
    AnswerMeans(fn, false, rows);
    SameOperands(Sum, CountN, rows);
    SameOperands(Sum, fn, rows);
    SumOfSquares(rows);
    var q := Counted(Sum, rows);
    CountAndSum(q);
    CountAndSum(Counted(Sum, SquaredRows(rows)));
    VarianceFormula(fn, q, |q| as real, SumOf(Num, q), SumOf(Power(Num), q));
  }

  lemma {:induction false} CountAndSum(q: seq<Value>)
    ensures Meaning(CountN, false, q) == Number(|q| as real)
    ensures Meaning(Sum, false, q) == if q == [] then Null else Number(SumOf(Num, q))
  {
  }

  lemma {:induction false} VarianceFormula(fn: Fn, q: seq<Value>, n: real, sum: real, squares: real)
    requires fn == VARIANCE || fn == VAR_POP || fn == VAR_SAMP
    requires n == |q| as real && sum == SumOf(Num, q) && squares == SumOf(Power(Num), q)
    ensures Meaning(fn, false, q) == VarianceBy(fn, n, sum, squares)
    ensures VarianceBy(fn, 0.0, sum, squares) == Null
  {
    hide SumOf, TextbookVariance;
    if |q| >= 2 {
      hide Meaning, VarianceBy;
      MeaningOfVariance(fn, q);
      TextbookBy(q, fn.delta, n, if fn == VAR_POP then n else n - 1.0, sum, squares);
      VarianceByFormula(fn, n, sum, squares);
    } else {
      assert |q| == 0 || |q| == 1;
    }
  }

  lemma {:induction false} MeaningOfVariance(fn: Fn, q: seq<Value>)
    requires Valid(fn) && fn.Variance? && |q| >= 2
    ensures Meaning(fn, false, q) == Number(TextbookVariance(q, fn.delta))
  {
  }

  lemma {:induction false} TextbookBy(q: seq<Value>, delta: real, n: real, freedom: real, sum: real, squares: real)
    requires |q| >= 2 && 0.0 <= delta <= 1.0 && n == |q| as real && freedom == n - delta
    requires sum == SumOf(Num, q) && squares == SumOf(Power(Num), q)
    ensures TextbookVariance(q, delta) == SpreadBy(n, freedom, sum, squares)
  {
    hide SumOf;
  }

  lemma {:induction false} VarianceByFormula(fn: Fn, n: real, sum: real, squares: real)
    requires n >= 2.0
    ensures VarianceBy(fn, n, sum, squares) == Number(SpreadBy(n, if fn == VAR_POP then n else n - 1.0, sum, squares))
    ensures VarianceBy(fn, 0.0, sum, squares) == Null
  {
    hide SpreadBy;
  }
}
