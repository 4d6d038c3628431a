/**
 Aggregating in parallel streams and merging in any order and any cascade agrees with one pass over
 the rows (algebra/aggregate.go:22-41), for every aggregate function, or fails exactly when a stream
 has nothing to merge.
 */
module ParallelAggregation {
  import opened Wrappers
  import opened Sorting
  import opened Collation
  import opened Sums
  import opened Moments
  import opened Accumulators
  import opened MergeTrees
  import opened Aggregates
  import Med = Median

  // ---- Each step keeps the view

  lemma {:induction false} MembersOfBoth(q: seq<Value>, p: seq<Value>)
    ensures Members(q + p) == Members(q) + Members(p)
  {
  }

  lemma {:induction false} FirstOperand(q: seq<Value>, v: Value)
    ensures q == [] ==> q + [v] == [v] && SumOf(Num, q + [v]) == Num(v)
    ensures SumOf(Num, q + [v]) == SumOf(Num, q) + Num(v)
  {
    SumOfOneMore(Num, q, v);
    if q == [] {
      assert q + [v] == [v];
    }
  }

  lemma {:induction false} SetAdds(q: seq<Value>, v: Value, default: Value)
    ensures SetAdded(v, if q == [] then Plain(default) else SetView(q)) == SetView(q + [v])
  {
    hide Members;
    MembersOfBoth(q, [v]);
    MembersOfOne(v);
    if q == [] {
      assert q + [v] == [v];
    }
  }

  lemma {:induction false} ExtremeOneMore(cmp: (Value, Value) -> int, q: seq<Value>, v: Value)
    requires q != []
    ensures Extreme(cmp, q + [v]) == if cmp(v, Extreme(cmp, q)) < 0 then v else Extreme(cmp, q)
  {
    assert (q + [v])[..|q|] == q;
  }

  lemma {:induction false} ExtremeOccurs(cmp: (Value, Value) -> int, q: seq<Value>)
    requires q != []
    ensures Extreme(cmp, q) in q
  {
    if |q| > 1 {
      ExtremeOccurs(cmp, q[..|q| - 1]);
    }
  }

  lemma {:induction false} ExtremeAdds(max: bool, q: seq<Value>, v: Value)
    requires TypeOf(v) > NULL && forall x :: x in q ==> TypeOf(x) > NULL
    ensures ExtremePart(max, Plain(v), if q == [] then Plain(Null) else Plain(Extreme(Order(max), q)))
         == Ok(Plain(Extreme(Order(max), q + [v])))
  {
    hide Collate, Extreme;
    if q == [] {
      assert q + [v] == [v];
      ExtremeOfOne(Order(max), v);
    } else {
      ExtremeOneMore(Order(max), q, v);
      ExtremeOccurs(Order(max), q);
    }
  }

  lemma {:induction false} ExtremeOfOne(cmp: (Value, Value) -> int, v: Value)
    ensures Extreme(cmp, [v]) == v
  {
  }

  lemma {:induction false} VarianceAdds(distinct: bool, q: seq<Value>, v: Value)
    ensures VarianceAdded(v, View(Variance(false, 0.0), distinct, q), distinct) == Ok(View(Variance(false, 0.0), distinct, q + [v]))
  {
    hide SumOf, SetSum, Members;
    FirstOperand(q, v);
    if distinct {
      MembersOfBoth(q, [v]);
      SetSumOneMore(Num, Members(q), v);
      MembersOfOne(v);
      if q == [] {
        MembersOfNone();
      } else if v in Members(q) {
        assert Members(q) + {v} == Members(q);
      }
    }
  }

  lemma {:induction false} MembersOfOne(v: Value)
    ensures Members([v]) == {v}
  {
  }

  lemma {:induction false} MembersOfNone()
    ensures Members([]) == {} && SetSum(Num, {}) == 0.0
  {
  }

  lemma {:induction false} VarianceViewIsCommon(samp: bool, delta: real, distinct: bool, q: seq<Value>)
    ensures View(Variance(samp, delta), distinct, q) == View(Variance(false, 0.0), distinct, q)
  {
  }

  lemma {:induction false} AveragesAdd(sum: real, count: real, total: real, n: real)
    ensures AvgPart(SumAndCount(sum, count), SumAndCount(total, n)) == Ok(SumAndCount(total + sum, n + count))
  {
    assert "sum"[0] == 's' && "count"[0] == 'c';
    var merged := AvgPart(SumAndCount(sum, count), SumAndCount(total, n));
    assert merged.value.value.fields == map["sum" := Number(total + sum), "count" := Number(n + count)];
  }

  lemma {:induction false} AddsOperand(fn: Fn, distinct: bool, q: seq<Value>, v: Value)
    requires Fit(fn, q) && FitsIn(fn, v)
    ensures AddOperand(fn, distinct, v, View(fn, distinct, q)) == Ok(View(fn, distinct, q + [v]))
  {
    hide Collate, SumOf, SetSum, Members, Extreme;
    SetAdds(q, v, Null);
    SetAdds(q, v, Number(0.0));
    FirstOperand(q, v);
    match fn
    case Variance(samp, delta) =>
      VarianceViewIsCommon(samp, delta, distinct, q);
      VarianceViewIsCommon(samp, delta, distinct, q + [v]);
      VarianceAdds(distinct, q, v);
    case Min => ExtremeAdds(false, q, v);
    case Max => ExtremeAdds(true, q, v);
    case Avg =>
      assert Plain(Object(map["sum" := v, "count" := Number(1.0)])) == SumAndCount(v.n, 1.0);
      if q != [] {
        AveragesAdd(v.n, 1.0, SumOf(Num, q), |q| as real);
      }
    case _ =>
  }

  lemma {:induction false} OrderIsTotal(max: bool)
    ensures TotalPreorder(Order(max))
  {
    hide Collate;
    CollateIsTotal();
  }

  lemma {:induction false} ExtremeOfBoth(cmp: (Value, Value) -> int, c: seq<Value>, p: seq<Value>)
    requires TotalPreorder(cmp) && c != [] && p != []
    ensures Extreme(cmp, c + p) == if cmp(Extreme(cmp, p), Extreme(cmp, c)) < 0 then Extreme(cmp, p) else Extreme(cmp, c)
    decreases |p|
  {
    hide Extreme;
    var init, v := p[..|p| - 1], p[|p| - 1];
    assert c + p == (c + init) + [v] && p == init + [v];
    ExtremeOneMore(cmp, c + init, v);
    if init == [] {
      ExtremeOfOne(cmp, v);
      assert c + init == c;
    } else {
      ExtremeOfBoth(cmp, c, init);
      ExtremeOneMore(cmp, init, v);
    }
  }

  lemma {:induction false} ExtremesMerge(max: bool, p: seq<Value>, c: seq<Value>)
    requires p != [] && c != []
    requires (forall x :: x in c ==> TypeOf(x) > NULL) && (forall x :: x in p ==> TypeOf(x) > NULL)
    ensures ExtremePart(max, Plain(Extreme(Order(max), p)), Plain(Extreme(Order(max), c))) == Ok(Plain(Extreme(Order(max), c + p)))
  {
    hide Collate, Extreme;
    OrderIsTotal(max);
    ExtremeOfBoth(Order(max), c, p);
    ExtremeOccurs(Order(max), p);
    ExtremeOccurs(Order(max), c);
  }

  lemma {:induction false} VariancesMerge(distinct: bool, p: seq<Value>, c: seq<Value>)
    requires p != [] && c != []
    ensures VarianceMerged(View(Variance(false, 0.0), distinct, p), View(Variance(false, 0.0), distinct, c), distinct)
         == Ok(View(Variance(false, 0.0), distinct, c + p))
  {
    hide SumOf, SetSum, Members;
    MembersOfBoth(c, p);
    SetSumBoth(Num, Members(c), Members(p));
    SumOfBoth(Num, c, p);
  }

  /** Merging the views of two streams gives the view of both, or fails where merging is strict and one is empty. */
  lemma {:induction false} MergesViews(fn: Fn, distinct: bool, p: seq<Value>, c: seq<Value>)
    requires Fit(fn, p) && Fit(fn, c)
    ensures
      if Strict(fn, distinct) && (p == [] || c == []) then Intermediate(fn, distinct, View(fn, distinct, p), View(fn, distinct, c)).Fault?
      else Intermediate(fn, distinct, View(fn, distinct, p), View(fn, distinct, c)) == Ok(View(fn, distinct, c + p))
  {
    hide Collate, SumOf, SetSum, Members, Extreme;
    assert p == [] ==> c + p == c;
    assert c == [] ==> c + p == p;
    if p != [] && c != [] {
      MergesOperands(fn, distinct, p, c);
    } else if fn.Min? || fn.Max? {
      ExtremeIsNotNull(fn.Max?, p);
      ExtremeIsNotNull(fn.Max?, c);
    }
  }

  lemma {:induction false} ExtremeIsNotNull(max: bool, q: seq<Value>)
    requires forall x :: x in q ==> TypeOf(x) > NULL
    ensures q != [] ==> Extreme(Order(max), q) != Null
  {
    if q != [] {
      ExtremeOccurs(Order(max), q);
    }
  }

  lemma {:induction false} MergesOperands(fn: Fn, distinct: bool, p: seq<Value>, c: seq<Value>)
    requires Fit(fn, p) && Fit(fn, c) && p != [] && c != []
    ensures Intermediate(fn, distinct, View(fn, distinct, p), View(fn, distinct, c)) == Ok(View(fn, distinct, c + p))
  {
    hide Collate, SumOf, SetSum, Members, Extreme;
    MembersOfBoth(c, p);
    SumOfBoth(Num, c, p);
    match fn
    case Variance(samp, delta) =>
      VarianceViewIsCommon(samp, delta, distinct, p);
      VarianceViewIsCommon(samp, delta, distinct, c);
      VarianceViewIsCommon(samp, delta, distinct, c + p);
      VariancesMerge(distinct, p, c);
    case Min => ExtremesMerge(false, p, c);
    case Max => ExtremesMerge(true, p, c);
    case Avg => AveragesAdd(SumOf(Num, p), |p| as real, SumOf(Num, c), |c| as real);
    case _ =>
  }

  // ---- What the functions mean

  /** The operands of a function, each value once with DISTINCT. */
  ghost function Operands(distinct: bool, q: seq<Value>): seq<Value> {
    if distinct then Listed(Members(q)) else q
  }

  /** The variance of at least two values by the textbook formula. */
  function TextbookVariance(e: seq<Value>, delta: real): real
    requires |e| >= 2 && 0.0 <= delta <= 1.0
  {
    var n := |e| as real;
    (n * SumOf(Power(Num), e) - Square(SumOf(Num, e))) / (n * (n - delta))
  }

  /** The value of a function over the operands that count. */
  ghost function Meaning(fn: Fn, distinct: bool, q: seq<Value>): Value
    requires Valid(fn)
  {
    var e := Operands(distinct, q);
    match fn
    case Count(_) => Number(|e| as real)
    case CountN => Number(|e| as real)
    case Sum => if q == [] then Null else Number(SumOf(Num, e))
    case Avg => if e == [] then Null else Number(SumOf(Num, e) / (|e| as real))
    case Min => if q == [] then Null else Extreme(Order(false), q)
    case Max => if q == [] then Null else Extreme(Order(true), q)
    case ArrayAgg => if q == [] then Null else Array(Sort(Collate, e))
    case Median => MedianOf(e)
    case Variance(samp, delta) =>
      if q == [] then Null
      else if |e| < 2 then if samp then Null else Number(0.0)
      else Number(TextbookVariance(e, delta))
  }

  lemma {:induction false} OperandsOf(distinct: bool, q: seq<Value>)
    ensures Operands(distinct, q) == [] <==> q == []
    ensures forall v :: v in Operands(distinct, q) <==> v in q
    ensures distinct ==> |Operands(distinct, q)| == |Members(q)|
  {
    hide Listed;
    if distinct {
      ListedHasAll(Members(q));
      forall v ensures v in Operands(distinct, q) <==> v in q {
      }
      if q != [] {
        assert q[0] in Members(q);
        assert q[0] in Listed(Members(q));
      }
    }
  }

  /** With the right sum stored, the computed variance is the textbook one. */
  lemma {:induction false} StoredSumGivesVariance(c: Cumulative, distinct: bool, samp: bool, delta: real)
    requires 0.0 <= delta <= 1.0 && (if distinct then HasSet(c) else HasList(c))
    requires |Collected(c, distinct)| >= 2 && c.sum == Some(SumOf(Num, Collected(c, distinct)))
    ensures VarianceOf(c, distinct, samp, delta) == Ok(Number(TextbookVariance(Collected(c, distinct), delta)))
  {
    hide SumOf, Collected, Square;
    var e := Collected(c, distinct);
    SpreadByMoments(Num, e, delta);
    assert TextbookVariance(e, delta) == Spread(Num, e, delta);
    assert VarianceOf(c, distinct, samp, delta) == Ok(Number(Spread(Num, e, delta)));
  }

  lemma {:induction false} VarianceMeans(samp: bool, delta: real, distinct: bool, q: seq<Value>)
    requires 0.0 <= delta <= 1.0 && q != []
    ensures VarianceOf(View(Variance(samp, delta), distinct, q), distinct, samp, delta) == Ok(Meaning(Variance(samp, delta), distinct, q))
  {
    hide SumOf, Members, Listed, TextbookVariance;
    OperandsOf(distinct, q);
    var c := View(Variance(samp, delta), distinct, q);
    assert Operands(distinct, q) == Collected(c, distinct);
    if |Operands(distinct, q)| >= 2 {
      StoredSumGivesVariance(c, distinct, samp, delta);
    }
  }

  lemma {:induction false} FinalMeans(fn: Fn, distinct: bool, q: seq<Value>)
    requires Valid(fn) && Fit(fn, q)
    ensures Final(fn, distinct, View(fn, distinct, q)) == Ok(Meaning(fn, distinct, q))
  {
    hide Collate, SumOf, Members, Extreme, Listed, Sort, MedianOf, VarianceOf, TextbookVariance;
    OperandsOf(distinct, q);
    MembersFit(fn, q);
    MedianOfNone();
    if fn.Variance? && q != [] {
      VarianceMeans(fn.samp, fn.delta, distinct, q);
    }
  }

  lemma {:induction false} MedianOfNone()
    ensures MedianOf([]) == Null
  {
  }

  lemma {:induction false} MembersFit(fn: Fn, q: seq<Value>)
    requires Fit(fn, q)
    ensures forall v :: v in Members(q) ==> FitsIn(fn, v)
    ensures q != [] ==> Members(q) != {}
    ensures Members([]) == {}
  {
    if q != [] {
      assert q[0] in Members(q);
    }
  }

  // ---- The main result

  ghost function Fits(fn: Fn): Value -> bool {
    v => FitsIn(fn, v)
  }

  ghost function Views(fn: Fn, distinct: bool): seq<Value> -> Cumulative {
    q => View(fn, distinct, q)
  }

  lemma {:induction false} KeepsView(fn: Fn, distinct: bool)
    requires Valid(fn)
    ensures Adds(Of(fn, distinct), Fits(fn), Views(fn, distinct))
    ensures Merges(Of(fn, distinct), Fits(fn), Views(fn, distinct), Strict(fn, distinct))
  {
    hide View, AddOperand, Intermediate, Final;
    var agg, view := Of(fn, distinct), Views(fn, distinct);
    forall row, q | AllFit(Fits(fn), q) ensures agg.initial(row, view(q)) == Ok(view(q + Admitted(Fits(fn), row))) {
      assert q + [] == q;
      if row.passes && FitsIn(fn, row.operand) {
        AddsOperand(fn, distinct, q, row.operand);
      }
    }
    forall p, c | AllFit(Fits(fn), p) && AllFit(Fits(fn), c)
      ensures
        if Strict(fn, distinct) && (p == [] || c == []) then agg.intermediate(view(p), view(c)).Fault?
        else agg.intermediate(view(p), view(c)) == Ok(view(c + p))
    {
      MergesViews(fn, distinct, p, c);
    }
    assert view([]) == Default(fn) by { ViewOfNothing(fn, distinct); }
  }

  lemma {:induction false} ViewOfNothing(fn: Fn, distinct: bool)
    ensures View(fn, distinct, []) == Default(fn)
  {
  }

  /** The merges go through: merging is not strict, or there is one stream, or every stream has an operand that counts. */
  ghost predicate CanMerge(fn: Fn, distinct: bool, t: Tree) {
    !Strict(fn, distinct) || t.Stream? || EveryStreamQualifies(Fits(fn), t)
  }

  /** For every split into streams and every cascade of merges, the result is the function of all rows, exactly when the merges can go through. */
  lemma {:induction false} ParallelExactly(fn: Fn, distinct: bool, t: Tree)
    requires Valid(fn)
    ensures
      if CanMerge(fn, distinct, t) then Result(Of(fn, distinct), t) == Ok(Meaning(fn, distinct, Qualifying(Fits(fn), Rows(t))))
      else Result(Of(fn, distinct), t).Fault?
  {
    hide View, Intermediate, Final, Initial, Adds, Merges, Meaning, Qualifying;
    KeepsView(fn, distinct);
    MergedIsView(Of(fn, distinct), Fits(fn), Views(fn, distinct), Strict(fn, distinct), t);
    QualifyingFit(Fits(fn), Rows(t));
    FinalMeans(fn, distinct, Qualifying(Fits(fn), Rows(t)));
  }

  /** One pass over the rows never fails, and merging agrees with it whenever it can go through. */
  lemma {:induction false} MergingIsOnePass(fn: Fn, distinct: bool, t: Tree)
    requires Valid(fn)
    ensures Result(Of(fn, distinct), Stream(Rows(t))).Ok?
    ensures Result(Of(fn, distinct), t) == Result(Of(fn, distinct), Stream(Rows(t))) <==> CanMerge(fn, distinct, t)
  {
    hide Result, Meaning, EveryStreamQualifies, Qualifying;
    ParallelExactly(fn, distinct, t);
    ParallelExactly(fn, distinct, Stream(Rows(t)));
  }

  // ---- The order of rows and streams

  lemma {:induction false} QualifyingIgnoresOrder(fits: Value -> bool, rows: seq<Input>, others: seq<Input>)
    requires multiset(rows) == multiset(others)
    ensures multiset(Qualifying(fits, rows)) == multiset(Qualifying(fits, others))
  {
    forall v ensures multiset(Qualifying(fits, rows))[v] == multiset(Qualifying(fits, others))[v] {
      QualifyingCount(fits, rows, v);
      QualifyingCount(fits, others, v);
    }
  }

  lemma {:induction false} CountOneMore<T>(q: seq<T>, x: T, y: T)
    ensures multiset(q + [x])[y] == multiset(q)[y] + if x == y then 1 else 0
  {
  }

  lemma {:induction false} QualifyingCount(fits: Value -> bool, rows: seq<Input>, v: Value)
    ensures multiset(Qualifying(fits, rows))[v] == if fits(v) then multiset(rows)[Input(true, v)] else 0
  {
    if rows != [] {
      var init, last := rows[..|rows| - 1], rows[|rows| - 1];
      QualifyingCount(fits, init, v);
      CountOneMore(init, last, Input(true, v));
      assert init + [last] == rows;
      CountOneMore(Qualifying(fits, init), last.operand, v);
      assert Qualifying(fits, rows) == Qualifying(fits, init) + Admitted(fits, last);
      hide Qualifying;
      assert Admitted(fits, last) == [] ==> Qualifying(fits, init) + Admitted(fits, last) == Qualifying(fits, init);
    }
  }

  lemma {:induction false} MembersIgnoreOrder(q: seq<Value>, p: seq<Value>)
    requires multiset(q) == multiset(p)
    ensures Members(q) == Members(p)
  {
    forall v ensures v in q <==> v in p {
      assert v in q <==> v in multiset(q);
      assert v in p <==> v in multiset(p);
    }
  }

  lemma {:induction false} OperandsIgnoreOrder(distinct: bool, q: seq<Value>, p: seq<Value>)
    requires multiset(q) == multiset(p)
    ensures multiset(Operands(distinct, q)) == multiset(Operands(distinct, p))
    ensures |Operands(distinct, q)| == |Operands(distinct, p)|
    ensures q == [] <==> p == []
  {
    MembersIgnoreOrder(q, p);
    assert |q| == |multiset(q)| == |multiset(p)| == |p|;
  }

  lemma {:induction false} ExtremeIsFirst(cmp: (Value, Value) -> int, q: seq<Value>)
    requires TotalPreorder(cmp) && q != []
    ensures forall v :: v in q ==> cmp(Extreme(cmp, q), v) <= 0
  {
    if |q| > 1 {
      var init, last := q[..|q| - 1], q[|q| - 1];
      ExtremeIsFirst(cmp, init);
      assert q == init + [last];
    }
  }

  lemma {:induction false} ExtremeIgnoresOrder(max: bool, q: seq<Value>, p: seq<Value>)
    requires multiset(q) == multiset(p) && q != [] && p != []
    ensures Collate(Extreme(Order(max), q), Extreme(Order(max), p)) == 0
  {
    hide Collate, Extreme;
    OrderIsTotal(max);
    ExtremeIsFirst(Order(max), q);
    ExtremeIsFirst(Order(max), p);
    ExtremeOccurs(Order(max), q);
    ExtremeOccurs(Order(max), p);
    MembersIgnoreOrder(q, p);
    assert Extreme(Order(max), q) in Members(p) && Extreme(Order(max), p) in Members(q);
    assert Order(max)(Extreme(Order(max), q), Extreme(Order(max), p)) <= 0;
    assert Order(max)(Extreme(Order(max), p), Extreme(Order(max), q)) <= 0;
  }

  lemma {:induction false} NumbersIgnoreOrder(q: seq<Value>, p: seq<Value>)
    requires multiset(q) == multiset(p)
    ensures multiset(Numbers(q)) == multiset(Numbers(p))
    decreases |q|
  {
    if q == [] {
      assert |multiset(p)| == |p|;
    } else {
      assert q[0] in multiset(p);
      var j :| 0 <= j < |p| && p[j] == q[0];
      RemoveOne(q, 0);
      RemoveOne(p, j);
      NumbersIgnoreOrder(Without(q, 0), Without(p, j));
      NumbersWithout(q, 0);
      NumbersWithout(p, j);
    }
  }

  lemma {:induction false} NumbersWithout(q: seq<Value>, j: nat)
    requires j < |q|
    ensures multiset(Numbers(q)) == multiset(Numbers(Without(q, j))) + multiset{Num(q[j])}
  {
    assert Numbers(Without(q, j)) == Without(Numbers(q), j);
    RemoveOne(Numbers(q), j);
  }

  /** Equal values, for MIN and MAX up to collation and for ARRAY_AGG item by item up to collation. */
  ghost predicate SameResult(fn: Fn, a: Value, b: Value) {
    if fn.Min? || fn.Max? then Collate(a, b) == 0
    else if fn.ArrayAgg? && a.Array? && b.Array? then SameUpToCollation(Collate, a.items, b.items)
    else a == b
  }

  lemma {:induction false} MeaningIgnoresOrder(fn: Fn, distinct: bool, q: seq<Value>, p: seq<Value>)
    requires Valid(fn) && multiset(q) == multiset(p)
    ensures SameResult(fn, Meaning(fn, distinct, q), Meaning(fn, distinct, p))
  {
    hide Collate, SumOf, Extreme, Sort, Operands, TextbookVariance, SameUpToCollation, Numbers;
    var e, f := Operands(distinct, q), Operands(distinct, p);
    OperandsIgnoreOrder(distinct, q, p);
    match fn
    case Min => if q == [] { CollateIsReflexive(Null); } else { ExtremeIgnoresOrder(false, q, p); }
    case Max => if q == [] { CollateIsReflexive(Null); } else { ExtremeIgnoresOrder(true, q, p); }
    case ArrayAgg =>
      CollateIsTotal();
      SortIgnoresOrder(Collate, e, f);
    case Median =>
      NumbersIgnoreOrder(e, f);
      Med.MedianIgnoresOrder(Numbers(e), Numbers(f));
    case Variance(_, delta) =>
      if |e| >= 2 {
        TextbookIgnoresOrder(e, f, delta);
      }
    case _ => SumIgnoresOrder(Num, e, f);
  }

  lemma {:induction false} TextbookIgnoresOrder(e: seq<Value>, f: seq<Value>, delta: real)
    requires multiset(e) == multiset(f) && |e| == |f| >= 2 && 0.0 <= delta <= 1.0
    ensures TextbookVariance(e, delta) == TextbookVariance(f, delta)
  {
    hide SumOf, Square;
    SumIgnoresOrder(Num, e, f);
    SumIgnoresOrder(Power(Num), e, f);
  }

  /** Two ways of splitting the same rows, in whatever order, over streams and merges agree. */
  lemma {:induction false} SplitsAgree(fn: Fn, distinct: bool, t: Tree, other: Tree)
    requires Valid(fn) && multiset(Rows(t)) == multiset(Rows(other))
    requires CanMerge(fn, distinct, t) && CanMerge(fn, distinct, other)
    ensures Result(Of(fn, distinct), t).Ok? && Result(Of(fn, distinct), other).Ok?
    ensures SameResult(fn, Result(Of(fn, distinct), t).value, Result(Of(fn, distinct), other).value)
  {
    hide Result, Meaning, CanMerge, Qualifying, SameResult;
    ParallelExactly(fn, distinct, t);
    ParallelExactly(fn, distinct, other);
    QualifyingIgnoresOrder(Fits(fn), Rows(t), Rows(other));
    MeaningIgnoresOrder(fn, distinct, Qualifying(Fits(fn), Rows(t)), Qualifying(Fits(fn), Rows(other)));
  }

  /** A stream with nothing to merge makes every strict function fail where one pass gives a value. */
  lemma {:induction false} EmptyStreamFails(fn: Fn, distinct: bool, v: Value)
    requires Valid(fn) && Strict(fn, distinct) && FitsIn(fn, v)
    ensures
      var t := Merge(Stream([Input(true, v)]), Stream([Input(true, Missing)]));
      Result(Of(fn, distinct), t).Fault? && Result(Of(fn, distinct), Stream(Rows(t))).Ok?
  {
    hide Result, Meaning, Qualifying;
    var empty := Stream([Input(true, Missing)]);
    var t := Merge(Stream([Input(true, v)]), empty);
    ParallelExactly(fn, distinct, t);
    MergingIsOnePass(fn, distinct, t);
    OnlyMissing(fn);
    StreamsOf(Fits(fn), empty);
    assert EveryStreamQualifies(Fits(fn), t) ==> EveryStreamQualifies(Fits(fn), empty);
  }

  lemma {:induction false} OnlyMissing(fn: Fn)
    requires !FitsIn(fn, Missing)
    ensures Qualifying(Fits(fn), [Input(true, Missing)]) == []
  {
    assert [Input(true, Missing)][..0] == [];
  }

  // ---- The variance family

  /** After any mix of additions and merges the stored sum is the sum of the values in the attached list or set. */
  lemma {:induction false} StoredSumIsSum(samp: bool, delta: real, distinct: bool, t: Tree)
    requires 0.0 <= delta <= 1.0
    ensures
      var m := Merged(Of(Variance(samp, delta), distinct), t);
      && m.Ok?
      && if Qualifying(Fits(Variance(samp, delta)), Rows(t)) == [] then m.value == Plain(Null)
         else (if distinct then HasSet(m.value) else HasList(m.value)) && m.value.sum == Some(SumOf(Num, Collected(m.value, distinct)))
  {
    hide Adds, Merges, Merged, SumOf, Members, Qualifying, Listed;
    var fn := Variance(samp, delta);
    KeepsView(fn, distinct);
    MergedIsView(Of(fn, distinct), Fits(fn), Views(fn, distinct), false, t);
  }

  /** The variance of at least two values is never negative and is zero exactly when all values are equal. */
  lemma {:induction false} VarianceIsZeroExactly(samp: bool, delta: real, distinct: bool, q: seq<Value>)
    requires 0.0 <= delta <= 1.0 && |Operands(distinct, q)| >= 2
    ensures Meaning(Variance(samp, delta), distinct, q).Number?
    ensures Meaning(Variance(samp, delta), distinct, q).n >= 0.0
    ensures Meaning(Variance(samp, delta), distinct, q).n == 0.0 <==> forall v, w :: v in q && w in q ==> Num(v) == Num(w)
  {
    hide SumOf, Square, Listed;
    var e := Operands(distinct, q);
    OperandsOf(distinct, q);
    SpreadByMoments(Num, e, delta);
    assert TextbookVariance(e, delta) == Spread(Num, e, delta);
    hide Spread, TextbookVariance, Operands;
    SpreadIsZeroExactly(Num, e, delta);
  }
}
