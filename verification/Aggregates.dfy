/**
 The aggregate functions (algebra/agg_sum.go, agg_avg.go, agg_count.go, agg_countn.go, agg_min.go,
 agg_max.go, agg_array.go, agg_median.go, agg_variance.go, agg_varpop.go, agg_varsamp.go): default,
 initial, intermediate and final step of each, error cases included.
 */
module Aggregates {
  import opened Wrappers
  import opened Sorting
  import opened Collation
  import opened Sums
  import opened Accumulators
  import opened MergeTrees
  import Med = Median

  /** The functions; VARIANCE, VAR_POP and VAR_SAMP differ in `samp` and `delta`. */
  datatype Fn = Sum | Avg | Count(star: bool) | CountN | Min | Max | ArrayAgg | Median | Variance(samp: bool, delta: real)

  const VARIANCE := Variance(false, 1.0)
  const VAR_POP := Variance(false, 0.0)
  const VAR_SAMP := Variance(true, 1.0)

  predicate Valid(fn: Fn) {
    fn.Variance? ==> 0.0 <= fn.delta <= 1.0
  }

  /** The operands that count. */
  predicate FitsIn(fn: Fn, v: Value) {
    match fn
    case Count(star) => star || TypeOf(v) > NULL
    case Min => TypeOf(v) > NULL
    case Max => TypeOf(v) > NULL
    case ArrayAgg => v != Missing && !v.Binary?
    case _ => v.Number?
  }

  function Default(fn: Fn): Cumulative {
    if fn.Count? || fn.CountN? then Plain(Number(0.0)) else Plain(Null)
  }

  predicate IsNumber(c: Cumulative) {
    c.Plain? && c.value.Number?
  }

  // ---- Merging plain partial results

  function SumPart(part: Cumulative, c: Cumulative): Outcome<Cumulative> {
    if part == Plain(Null) then Ok(c)
    else if c == Plain(Null) then Ok(part)
    else if !IsNumber(part) then Fault("Invalid partial SUM")
    else if !IsNumber(c) then Fault("Invalid SUM")
    else Ok(Plain(Number(c.value.n + part.value.n)))
  }

  predicate HasNumber(c: Cumulative, name: string) {
    c.Plain? && c.value.Object? && name in c.value.fields && c.value.fields[name].Number?
  }

  function SumAndCount(sum: real, count: real): Cumulative {
    Plain(Object(map["sum" := Number(sum), "count" := Number(count)]))
  }

  function AvgPart(part: Cumulative, c: Cumulative): Outcome<Cumulative> {
    if part == Plain(Null) then Ok(c)
    else if c == Plain(Null) then Ok(part)
    else if HasNumber(part, "sum") && HasNumber(part, "count") && HasNumber(c, "sum") && HasNumber(c, "count") then
      var p, f := part.value.fields, c.value.fields;
      Ok(Plain(Object(f["sum" := Number(f["sum"].n + p["sum"].n)]["count" := Number(f["count"].n + p["count"].n)])))
    else Fault("Missing or invalid partial sum or count in AVG")
  }

  function CountPart(part: Cumulative, c: Cumulative): Outcome<Cumulative> {
    if !IsNumber(part) then Fault("Invalid partial COUNT")
    else if !IsNumber(c) then Fault("Invalid COUNT")
    else Ok(Plain(Number(c.value.n + part.value.n)))
  }

  function CountSets(part: Cumulative, c: Cumulative): Outcome<Cumulative> {
    if part == Plain(Number(0.0)) then Ok(c)
    else if c == Plain(Number(0.0)) then Ok(part)
    else SetsMerged(part, c)
  }

  /** MIN and MAX: a part that collates beyond the cumulative value replaces it. */
  function ExtremePart(max: bool, part: Cumulative, c: Cumulative): Outcome<Cumulative> {
    if part == Plain(Null) then Ok(c)
    else if c == Plain(Null) then Ok(part)
    else if !part.Plain? || !c.Plain? then Fault("Invalid MIN or MAX")
    else
      var compared := Collate(part.value, c.value);
      if (if max then compared > 0 else compared < 0) then Ok(part) else Ok(c)
  }

  function ArrayPart(part: Cumulative, c: Cumulative): Outcome<Cumulative> {
    if part == Plain(Null) then Ok(c)
    else if c == Plain(Null) then Ok(part)
    else if !(part.Plain? && part.value.Array?) then Fault("Invalid partial ARRAY_AGG")
    else if !(c.Plain? && c.value.Array?) then Fault("Invalid ARRAY_AGG")
    else Ok(Plain(Array(c.value.items + part.value.items)))
  }

  // ---- The steps

  function AddOperand(fn: Fn, distinct: bool, v: Value, c: Cumulative): Outcome<Cumulative> {
    match fn
    case Sum => if distinct then Ok(SetAdded(v, c)) else SumPart(Plain(v), c)
    case Avg => if distinct then Ok(SetAdded(v, c)) else AvgPart(Plain(Object(map["sum" := v, "count" := Number(1.0)])), c)
    case Count(_) => if distinct then Ok(SetAdded(v, c)) else CountPart(Plain(Number(1.0)), c)
    case CountN => if distinct then Ok(SetAdded(v, c)) else CountPart(Plain(Number(1.0)), c)
    case Min => ExtremePart(false, Plain(v), c)
    case Max => ExtremePart(true, Plain(v), c)
    case ArrayAgg => if distinct then Ok(SetAdded(v, c)) else ArrayPart(Plain(Array([v])), c)
    case Median => if distinct then Ok(SetAdded(v, c)) else Ok(ListAdded(v, c))
    case Variance(_, _) => VarianceAdded(v, c, distinct)
  }

  /** `CumulateInitial`. */
  function Initial(fn: Fn, distinct: bool, row: Input, c: Cumulative): Outcome<Cumulative> {
    if row.passes && FitsIn(fn, row.operand) then AddOperand(fn, distinct, row.operand, c) else Ok(c)
  }

  /** `CumulateIntermediate`. */
  ghost function Intermediate(fn: Fn, distinct: bool, part: Cumulative, c: Cumulative): Outcome<Cumulative> {
    match fn
    case Sum => if distinct then SetsMerged(part, c) else SumPart(part, c)
    case Avg => if distinct then SetsMerged(part, c) else AvgPart(part, c)
    case Count(_) => if distinct then CountSets(part, c) else CountPart(part, c)
    case CountN => if distinct then CountSets(part, c) else CountPart(part, c)
    case Min => ExtremePart(false, part, c)
    case Max => ExtremePart(true, part, c)
    case ArrayAgg => if distinct then SetsMerged(part, c) else ArrayPart(part, c)
    case Median => if distinct then SetsMerged(part, c) else ListsMerged(part, c)
    case Variance(_, _) => VarianceMerged(part, c, distinct)
  }

  function Unwrapped(c: Cumulative): Outcome<Value> {
    if c.Plain? then Ok(c.value) else Fault("Not a plain value")
  }

  ghost predicate HasNumbers(c: Cumulative) {
    HasSet(c) && forall v :: v in c.items.value ==> v.Number?
  }

  function Quotient(sum: real, count: real): Value {
    if count > 0.0 then Number(sum / count) else Null
  }

  function Numbers(q: seq<Value>): seq<real> {
    seq(|q|, i requires 0 <= i < |q| => Num(q[i]))
  }

  function MedianOf(q: seq<Value>): Value {
    match Med.MiddleOf(Numbers(q))
    case None => Null
    case Some(m) => Number(m)
  }

  predicate Incremental(fn: Fn) {
    fn.Sum? || fn.Avg? || fn.Count? || fn.CountN?
  }

  /** `ComputeFinal` without DISTINCT of the functions that can be evaluated incrementally. */
  function PlainFinal(fn: Fn, c: Cumulative): Outcome<Value>
    requires Incremental(fn)
  {
    if !fn.Avg? then Unwrapped(c)
    else if c == Plain(Null) then Ok(Null)
    else if HasNumber(c, "sum") && HasNumber(c, "count") then Ok(Quotient(c.value.fields["sum"].n, c.value.fields["count"].n))
    else Fault("Missing or invalid sum or count in AVG")
  }

  /** `ComputeFinal`. */
  ghost function Final(fn: Fn, distinct: bool, c: Cumulative): Outcome<Value>
    requires Valid(fn)
  {
    match fn
    case Sum =>
      if !distinct then PlainFinal(fn, c)
      else if c == Plain(Null) then Ok(Null)
      else if !HasNumbers(c) then Fault("Invalid partial SUM")
      else if c.items.value == {} then Ok(Null)
      else Ok(Number(SetSum(Num, c.items.value)))
    case Avg =>
      if !distinct then PlainFinal(fn, c)
      else if c == Plain(Null) then Ok(Null)
      else if !HasNumbers(c) then Fault("Invalid partial AVG")
      else Ok(Quotient(SetSum(Num, c.items.value), |c.items.value| as real))
    case Count(_) => if distinct then CountFinal(c) else PlainFinal(fn, c)
    case CountN => if distinct then CountFinal(c) else PlainFinal(fn, c)
    case Min => Unwrapped(c)
    case Max => Unwrapped(c)
    case ArrayAgg =>
      if c == Plain(Null) then Ok(Null)
      else if distinct then
        if !HasSet(c) then Fault("No set")
        else if c.items.value == {} then Ok(Null)
        else Ok(Array(Sort(Collate, Listed(c.items.value))))
      else if c.Plain? && c.value.Array? then Ok(Array(Sort(Collate, c.value.items)))
      else Fault("Not an array")
    case Median =>
      if c == Plain(Null) then Ok(Null)
      else if !(if distinct then HasSet(c) else HasList(c)) then Fault("No set or list")
      else Ok(MedianOf(Collected(c, distinct)))
    case Variance(samp, delta) =>
      if c == Plain(Null) then Ok(Null) else VarianceOf(c, distinct, samp, delta)
  }

  function CountFinal(c: Cumulative): Outcome<Value> {
    if c == Plain(Number(0.0)) then Ok(c.value)
    else if !HasSet(c) then Fault("No set")
    else Ok(Number(|c.items.value| as real))
  }

  ghost function Of(fn: Fn, distinct: bool): Aggregate
    requires Valid(fn)
  {
    Aggregate(Default(fn),
              (row, c) => Initial(fn, distinct, row, c),
              (p, c) => Intermediate(fn, distinct, p, c),
              c => Final(fn, distinct, c))
  }

  // ---- The cumulative value of given operands

  function Order(max: bool): (Value, Value) -> int {
    if max then (a, b) => -Collate(a, b) else Collate
  }

  /** The first of the operands that come first in the order. */
  function Extreme(cmp: (Value, Value) -> int, q: seq<Value>): Value
    requires q != []
  {
    if |q| == 1 then q[0]
    else
      var m, last := Extreme(cmp, q[..|q| - 1]), q[|q| - 1];
      if cmp(last, m) < 0 then last else m
  }

  ghost function View(fn: Fn, distinct: bool, q: seq<Value>): Cumulative {
    if q == [] then Default(fn)
    else
      match fn
      case Sum => if distinct then SetView(q) else Plain(Number(SumOf(Num, q)))
      case Avg => if distinct then SetView(q) else SumAndCount(SumOf(Num, q), |q| as real)
      case Count(_) => if distinct then SetView(q) else Plain(Number(|q| as real))
      case CountN => if distinct then SetView(q) else Plain(Number(|q| as real))
      case Min => Plain(Extreme(Order(false), q))
      case Max => Plain(Extreme(Order(true), q))
      case ArrayAgg => if distinct then SetView(q) else Plain(Array(q))
      case Median => if distinct then SetView(q) else Annotated(None, Some(q), None)
      case Variance(_, _) =>
        if distinct then Annotated(Some(Members(q)), None, Some(SetSum(Num, Members(q))))
        else Annotated(None, Some(q), Some(SumOf(Num, q)))
  }

  function SetView(q: seq<Value>): Cumulative {
    Annotated(Some(Members(q)), None, None)
  }

  /** The functions whose partial results cannot be merged with that of a stream without operands. */
  predicate Strict(fn: Fn, distinct: bool) {
    fn.Median? || (distinct && (fn.Sum? || fn.Avg? || fn.ArrayAgg?))
  }

  ghost predicate Fit(fn: Fn, q: seq<Value>) {
    forall v :: v in q ==> FitsIn(fn, v)
  }
}
