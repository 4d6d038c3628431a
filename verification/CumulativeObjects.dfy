/**
 The aggregates that update their cumulative value in place: AVG keeps an object with a sum and a count
 (algebra/agg_avg.go), ARRAY_AGG an array (algebra/agg_array.go), and the DISTINCT forms of SUM and AVG
 add up a set in a loop.
 */
module CumulativeObjects {
  import opened Wrappers
  import opened Collation
  import opened Sums
  import opened Accumulators
  import opened Aggregates
  import opened SlidingFrames

  class ObjectValue {
    var fields: map<string, Value>

    method SetField(name: string, v: Value)
      modifies this
      ensures fields == old(fields)[name := v]
    {
      fields := fields[name := v];
    }
  }

  /** What a cumulative object stands for; null is NULL. */
  ghost function ObjectOf(o: ObjectValue?): Cumulative
    reads o
  {
    if o == null then Plain(Null) else Plain(Object(o.fields))
  }

  predicate IsNumberIn(fields: map<string, Value>, name: string) {
    name in fields && fields[name].Number?
  }

  /** `Avg.cumulatePart`: the sum and the count of `part` go into the cumulative object. */
  method AvgCumulatePart(part: ObjectValue?, cumulative: ObjectValue?) returns (r: Outcome<ObjectValue?>)
    modifies cumulative
    ensures r.Fault? <==> AvgPart(old(ObjectOf(part)), old(ObjectOf(cumulative))).Fault?
    ensures r.Ok? ==> Ok(ObjectOf(r.value)) == AvgPart(old(ObjectOf(part)), old(ObjectOf(cumulative)))
  {
    if part == null {
      return Ok(cumulative);
    } else if cumulative == null {
      return Ok(part);
    }
    if !IsNumberIn(part.fields, "sum") || !IsNumberIn(part.fields, "count")
       || !IsNumberIn(cumulative.fields, "sum") || !IsNumberIn(cumulative.fields, "count") {
      return Fault("Missing or invalid partial sum or count in AVG");
    }
    var psum, pcount := part.fields["sum"].n, part.fields["count"].n;
    var csum, ccount := cumulative.fields["sum"].n, cumulative.fields["count"].n;
    cumulative.SetField("sum", Number(csum + psum));
    cumulative.SetField("count", Number(ccount + pcount));
    r := Ok(cumulative);
  }

  /** `Avg.CumulateRemove`: a number leaves the cumulative object. */
  method AvgCumulateRemove(item: Value, cumulative: ObjectValue?) returns (r: Outcome<ObjectValue?>)
    modifies cumulative
    ensures r.Fault? <==> Remove(Avg, item, old(ObjectOf(cumulative))).Fault?
    ensures r.Ok? ==> Ok(ObjectOf(r.value)) == Remove(Avg, item, old(ObjectOf(cumulative)))
  {
    if !item.Number? {
      return Ok(cumulative);
    }
    if cumulative != null && IsNumberIn(cumulative.fields, "sum") && IsNumberIn(cumulative.fields, "count") {
      var csum, ccount := cumulative.fields["sum"].n, cumulative.fields["count"].n;
      cumulative.SetField("sum", Number(csum - item.n));
      cumulative.SetField("count", Number(ccount - 1.0));
      return Ok(cumulative);
    }
    return Fault("Invalid AVG.CumulateRemove()");
  }

  /** A value that can grow if it is an array. */
  class GrowingValue {
    var actual: Value

    method Append(more: seq<Value>) returns (ok: bool)
      modifies this
      ensures ok == old(actual).Array?
      ensures actual == if ok then Array(old(actual).items + more) else old(actual)
    {
      ok := actual.Array?;
      if ok {
        actual := Array(actual.items + more);
      }
    }
  }

  /** `ArrayAgg.cumulatePart`: the items of `part` are appended to the cumulative array. */
  method ArrayCumulatePart(part: GrowingValue, cumulative: GrowingValue) returns (r: Outcome<GrowingValue>)
    modifies cumulative
    ensures r.Fault? <==> ArrayPart(old(Plain(part.actual)), old(Plain(cumulative.actual))).Fault?
    ensures r.Ok? ==> Ok(Plain(r.value.actual)) == ArrayPart(old(Plain(part.actual)), old(Plain(cumulative.actual)))
    ensures r.Fault? ==> cumulative.actual == old(cumulative.actual)
  {
    if part.actual == Null {
      return Ok(cumulative);
    } else if cumulative.actual == Null {
      return Ok(part);
    }
    if !part.actual.Array? {
      return Fault("Invalid partial ARRAY_AGG");
    }
    var ok := cumulative.Append(part.actual.items);
    if !ok {
      return Fault("Invalid ARRAY_AGG");
    }
    r := Ok(cumulative);
  }

  /** The loop of the DISTINCT final steps, in whatever order the set gives its values. */
  method TotalOfSet(s: ValueSet) returns (r: Outcome<real>)
    ensures r.Ok? <==> forall v :: v in s.items ==> v.Number?
    ensures r.Ok? ==> r.value == SetSum(Num, s.items)
  {
    hide SetSum, SumOf;
    var values := s.Values();
    var sum := 0.0;
    SumOfNone(Num);
    assert values[..0] == [];
    for i := 0 to |values|
      invariant sum == SumOf(Num, values[..i])
      invariant forall j :: 0 <= j < i ==> values[j].Number?
    {
      if !values[i].Number? {
        assert values[i] in multiset(values);
        return Fault("Invalid partial SUM or AVG");
      }
      SumOfOneMore(Num, values[..i], values[i]);
      assert values[..i + 1] == values[..i] + [values[i]];
      sum := sum + values[i].n;
    }
    assert values[..|values|] == values;
    SetSumInAnyOrder(Num, s.items, values);
    forall v | v in s.items ensures v.Number? {
      assert v in multiset(values);
    }
    r := Ok(sum);
  }

  /** `ComputeFinal` of SUM(DISTINCT) and AVG(DISTINCT). */
  method ComputeDistinctFinal(avg: bool, cumulative: AnnotatedValue?) returns (r: Outcome<Value>)
    ensures r.Fault? <==> Final(if avg then Avg else Sum, true, Contents(cumulative)).Fault?
    ensures r.Ok? ==> r == Final(if avg then Avg else Sum, true, Contents(cumulative))
  {
    hide SetSum;
    if cumulative == null {
      return Ok(Null);
    }
    if cumulative.distinct == null {
      return Fault("No set");
    }
    var items := cumulative.distinct.items;
    var total := TotalOfSet(cumulative.distinct);
    if total.Fault? {
      return Fault(total.message);
    }
    if items == {} {
      return Ok(Null);
    }
    r := Ok(if avg then Number(total.value / (|items| as real)) else Number(total.value));
  }
}
