/**
 The shared helpers of the aggregates that collect values (algebra/agg_util.go): a set for DISTINCT,
 a list for MEDIAN, and a list or set with a running sum for the variance family. They are attached
 to the cumulative value and updated in place.
 */
module Accumulators {
  import opened Wrappers
  import opened Collation
  import opened Sums
  import opened Moments

  /** A cumulative value: a plain value, or one with attachments. */
  datatype Cumulative =
    | Plain(value: Value)
    | Annotated(items: Option<set<Value>>, list: Option<seq<Value>>, sum: Option<real>)

  function Num(v: Value): real {
    if v.Number? then v.n else 0.0
  }

  // ---- What the helpers compute

  function SetAdded(item: Value, c: Cumulative): (r: Cumulative)
    ensures r.Annotated?
  {
    match c
    case Plain(_) => Annotated(Some({item}), None, None)
    case Annotated(items, _, _) => c.(items := Some((if items.Some? then items.value else {}) + {item}))
  }

  predicate HasSet(c: Cumulative) {
    c.Annotated? && c.items.Some?
  }

  function SetsMerged(part: Cumulative, c: Cumulative): Outcome<Cumulative> {
    if HasSet(part) && HasSet(c) then Ok(c.(items := Some(c.items.value + part.items.value)))
    else Fault("Invalid DISTINCT set")
  }

  function ListAdded(item: Value, c: Cumulative): (r: Cumulative)
    ensures r.Annotated?
  {
    match c
    case Plain(_) => Annotated(None, Some([item]), None)
    case Annotated(_, list, _) => c.(list := Some((if list.Some? then list.value else []) + [item]))
  }

  predicate HasList(c: Cumulative) {
    c.Annotated? && c.list.Some?
  }

  function ListsMerged(part: Cumulative, c: Cumulative): Outcome<Cumulative> {
    if HasList(part) && HasList(c) then Ok(c.(list := Some(c.list.value + part.list.value)))
    else Fault("Invalid list")
  }

  function Added(item: Value, c: Cumulative, distinct: bool): (r: Cumulative)
    ensures r.Annotated?
  {
    if distinct then SetAdded(item, c) else ListAdded(item, c)
  }

  /** Adding a number for the variance family; a number already in the set changes nothing. */
  function VarianceAdded(item: Value, c: Cumulative, distinct: bool): Outcome<Cumulative> {
    match c
    case Plain(_) => Ok(if distinct then Annotated(Some({item}), None, Some(Num(item))) else Annotated(None, Some([item]), Some(Num(item))))
    case Annotated(items, list, sum) =>
      if sum.None? then Fault("No sum")
      else if distinct && items.None? then Fault("Invalid DISTINCT set")
      else if distinct && item in items.value then Ok(c)
      else Ok(Added(item, c, distinct).(sum := Some(sum.value + Num(item))))
  }

  /** Merging for the variance family; only numbers new to the set add to the sum. */
  ghost function VarianceMerged(part: Cumulative, c: Cumulative, distinct: bool): Outcome<Cumulative> {
    if part == Plain(Null) then Ok(c)
    else if c == Plain(Null) then Ok(part)
    else if !(c.Annotated? && c.sum.Some?) then Fault("No sum")
    else if distinct then
      if !HasSet(part) || !HasSet(c) then Fault("Invalid DISTINCT set")
      else
        Ok(c.(items := Some(c.items.value + part.items.value),
              sum := Some(c.sum.value + SetSum(Num, part.items.value - c.items.value))))
    else
      if !HasList(part) || !HasList(c) then Fault("Invalid list")
      else if part.sum.None? then Fault("No sum")
      else Ok(c.(list := Some(c.list.value + part.list.value), sum := Some(part.sum.value + c.sum.value)))
  }

  /** The collected values, a set in some order. */
  ghost function Collected(c: Cumulative, distinct: bool): seq<Value>
    requires if distinct then HasSet(c) else HasList(c)
  {
    if distinct then Listed(c.items.value) else c.list.value
  }

  /** The variance from the collected values and the stored sum. */
  ghost function VarianceOf(c: Cumulative, distinct: bool, samp: bool, delta: real): Outcome<Value>
    requires 0.0 <= delta <= 1.0
  {
    if !(if distinct then HasSet(c) else HasList(c)) then Fault("Invalid set or list")
    else
      var q := Collected(c, distinct);
      if |q| == 0 then Ok(Null)
      else if |q| == 1 then Ok(if samp then Null else Number(0.0))
      else if c.sum.None? then Fault("No sum")
      else
        var n := |q| as real;
        Ok(Number(SumOf(Deviation(Num, c.sum.value / n), q) / (n - delta)))
  }

  // ---- The helpers on attachments

  function Members(q: seq<Value>): set<Value> {
    set v | v in q
  }

  lemma {:induction false} MembersOneMore(q: seq<Value>, i: nat)
    requires i < |q|
    ensures Members(q[..i + 1]) == Members(q[..i]) + {q[i]}
  {
    assert q[..i + 1] == q[..i] + [q[i]];
  }

  lemma {:induction false} ListingHasAll(q: seq<Value>, s: set<Value>)
    requires multiset(q) == multiset(s)
    ensures |q| == |s| && Members(q[..|q|]) == s
  {
    assert |q| == |multiset(q)| == |multiset(s)| == |s|;
    assert q[..|q|] == q;
    forall v ensures v in q <==> v in s {
      assert v in q <==> v in multiset(q);
    }
  }

  class ValueSet {
    var items: set<Value>

    constructor ()
      ensures items == {}
    {
      items := {};
    }

    method Add(v: Value)
      modifies this
      ensures items == old(items) + {v}
    {
      items := items + {v};
    }

    method AddAll(other: ValueSet)
      modifies this
      ensures items == old(items) + old(other.items)
    {
      var values := other.Values();
      ListingHasAll(values, other.items);
      assert Members(values[..0]) == {};
      for i := 0 to |values|
        invariant items == old(items) + Members(values[..i])
      {
        MembersOneMore(values, i);
        Add(values[i]);
      }
    }

    /** The values in an arbitrary order. */
    method Values() returns (q: seq<Value>)
      ensures multiset(q) == multiset(items)
    {
      q := [];
      var rest := items;
      while rest != {}
        invariant rest <= items && multiset(q) + multiset(rest) == multiset(items)
        decreases |rest|
      {
        var v :| v in rest;
        assert multiset(rest) == multiset(rest - {v}) + multiset{v};
        q, rest := q + [v], rest - {v};
      }
    }
  }

  class ValueList {
    var items: seq<Value>

    constructor ()
      ensures items == []
    {
      items := [];
    }

    method Add(v: Value)
      modifies this
      ensures items == old(items) + [v]
    {
      items := items + [v];
    }

    method Union(other: ValueList)
      modifies this
      ensures items == old(items) + old(other.items)
    {
      var more := other.items;
      for i := 0 to |more|
        invariant items == old(items) + more[..i]
      {
        Add(more[i]);
      }
      assert more[..|more|] == more;
    }
  }

  /** A cumulative value with attachments; null stands for a plain default value. */
  class AnnotatedValue {
    var distinct: ValueSet?
    var list: ValueList?
    var sum: Option<real>

    constructor ()
      ensures distinct == null && list == null && sum == None
    {
      distinct, list, sum := null, null, None;
    }
  }

  ghost function SetOf(s: ValueSet?): Option<set<Value>>
    reads s
  {
    if s == null then None else Some(s.items)
  }

  ghost function ListOf(l: ValueList?): Option<seq<Value>>
    reads l
  {
    if l == null then None else Some(l.items)
  }

  ghost function Parts(av: AnnotatedValue?): set<object>
    reads av
  {
    if av == null then {}
    else {av} + (if av.distinct == null then {} else {av.distinct}) + (if av.list == null then {} else {av.list})
  }

  ghost function Contents(av: AnnotatedValue?): Cumulative
    reads av, Parts(av)
  {
    if av == null then Plain(Null) else Annotated(SetOf(av.distinct), ListOf(av.list), av.sum)
  }

  /** `setAdd`. */
  method SetAdd(item: Value, cumulative: AnnotatedValue?) returns (av: AnnotatedValue)
    modifies Parts(cumulative)
    ensures Contents(av) == SetAdded(item, old(Contents(cumulative)))
    ensures if cumulative == null then fresh(av) else av == cumulative
    ensures fresh(Parts(av) - old(Parts(cumulative)))
  {
    if cumulative == null {
      av := new AnnotatedValue();
    } else {
      av := cumulative;
    }
    if av.distinct != null {
      av.distinct.Add(item);
      return;
    }
    var created := new ValueSet();
    created.Add(item);
    assert {} + {item} == {item};
    av.distinct := created;
  }

  /** `cumulateSets`: the values of the smaller set are added to the bigger one, which is then attached. */
  method CumulateSets(part: AnnotatedValue?, cumulative: AnnotatedValue?) returns (r: Outcome<AnnotatedValue>)
    modifies Parts(part), Parts(cumulative)
    ensures r.Fault? <==> SetsMerged(old(Contents(part)), old(Contents(cumulative))).Fault?
    ensures r.Ok? ==> r.value == cumulative
    ensures r.Ok? ==> Ok(Contents(cumulative)) == SetsMerged(old(Contents(part)), old(Contents(cumulative)))
  {
    if part == null || part.distinct == null || cumulative == null || cumulative.distinct == null {
      return Fault("Invalid DISTINCT set");
    }
    var smaller, bigger := cumulative.distinct, part.distinct;
    if |part.distinct.items| <= |cumulative.distinct.items| {
      smaller, bigger := part.distinct, cumulative.distinct;
    }
    ghost var merged := cumulative.distinct.items + part.distinct.items;
    bigger.AddAll(smaller);
    assert bigger.items == merged;
    cumulative.distinct := bigger;
    r := Ok(cumulative);
  }

  /** `listAdd`. */
  method ListAdd(item: Value, cumulative: AnnotatedValue?) returns (av: AnnotatedValue)
    modifies Parts(cumulative)
    ensures Contents(av) == ListAdded(item, old(Contents(cumulative)))
    ensures if cumulative == null then fresh(av) else av == cumulative
    ensures fresh(Parts(av) - old(Parts(cumulative)))
  {
    if cumulative == null {
      av := new AnnotatedValue();
    } else {
      av := cumulative;
    }
    if av.list != null {
      av.list.Add(item);
      return;
    }
    var created := new ValueList();
    created.Add(item);
    assert [] + [item] == [item];
    av.list := created;
  }

  /** `cumulateLists`. */
  method CumulateLists(part: AnnotatedValue?, cumulative: AnnotatedValue?) returns (r: Outcome<AnnotatedValue>)
    modifies Parts(cumulative)
    ensures r.Fault? <==> ListsMerged(old(Contents(part)), old(Contents(cumulative))).Fault?
    ensures r.Ok? ==> r.value == cumulative
    ensures r.Ok? ==> Ok(Contents(cumulative)) == ListsMerged(old(Contents(part)), old(Contents(cumulative)))
  {
    if part == null || part.list == null || cumulative == null || cumulative.list == null {
      return Fault("Invalid list");
    }
    cumulative.list.Union(part.list);
    r := Ok(cumulative);
  }

  /** `addStddevVariance`. */
  method AddStddevVariance(item: Value, cumulative: AnnotatedValue?, distinct: bool) returns (r: Outcome<AnnotatedValue>)
    requires item.Number?
    modifies Parts(cumulative)
    ensures r.Fault? <==> VarianceAdded(item, old(Contents(cumulative)), distinct).Fault?
    ensures r.Ok? ==> Ok(Contents(r.value)) == VarianceAdded(item, old(Contents(cumulative)), distinct)
  {
    var sum := 0.0;
    var cv;
    if cumulative == null {
      if distinct {
        cv := SetAdd(item, null);
      } else {
        cv := ListAdd(item, null);
      }
    } else {
      cv := cumulative;
      if cv.sum == None {
        return Fault("No sum");
      }
      sum := cv.sum.value;
      if distinct {
        if cv.distinct == null {
          return Fault("Invalid DISTINCT set");
        }
        if item in cv.distinct.items {
          return Ok(cumulative);
        }
        cv.distinct.Add(item);
      } else {
        cv := ListAdd(item, cumulative);
      }
    }
    cv.sum := Some(sum + item.n);
    r := Ok(cv);
  }

  /** The loop of `cumulateStddevVariance`: the values of `part` that are new enter the set and the sum. */
  method AddNewValues(part: ValueSet, into: ValueSet, start: real) returns (sum: real)
    modifies into
    ensures into.items == old(into.items) + old(part.items)
    ensures sum == start + SetSum(Num, old(part.items) - old(into.items))
  {
    hide SetSum;
    var values := part.Values();
    ListingHasAll(values, part.items);
    ghost var had, more := into.items, part.items;
    sum := start;
    assert Members(values[..0]) == {};
    NothingNew(had);
    for i := 0 to |values|
      invariant into.items == had + Members(values[..i])
      invariant sum == start + SetSum(Num, into.items - had)
    {
      hide Members;
      MembersOneMore(values, i);
      OneNew(had, into.items, values[i]);
      if values[i] !in into.items {
        into.Add(values[i]);
        sum := sum + Num(values[i]);
      }
    }
    assert had + more - had == more - had;
  }

  lemma {:induction false} NothingNew(had: set<Value>)
    ensures SetSum(Num, had + {} - had) == 0.0 && had + {} == had
  {
    assert had + {} - had == {};
  }

  lemma {:induction false} OneNew(had: set<Value>, has: set<Value>, v: Value)
    requires had <= has
    ensures if v in has then has + {v} == has else SetSum(Num, has + {v} - had) == SetSum(Num, has - had) + Num(v)
  {
    hide SetSum;
    if v in has {
      assert has + {v} == has;
    } else {
      SetSumOneMore(Num, has - had, v);
      assert has + {v} - had == (has - had) + {v};
    }
  }

  /** `cumulateStddevVariance`. */
  method CumulateStddevVariance(part: AnnotatedValue?, cumulative: AnnotatedValue?, distinct: bool) returns (r: Outcome<AnnotatedValue?>)
    modifies Parts(cumulative)
    ensures r.Fault? <==> VarianceMerged(old(Contents(part)), old(Contents(cumulative)), distinct).Fault?
    ensures r.Ok? ==> Ok(Contents(r.value)) == VarianceMerged(old(Contents(part)), old(Contents(cumulative)), distinct)
  {
    hide SetSum;
    if part == null {
      return Ok(cumulative);
    } else if cumulative == null {
      return Ok(part);
    }
    if cumulative.sum == None {
      return Fault("No sum");
    }
    var sum := cumulative.sum.value;
    if distinct {
      if part.distinct == null || cumulative.distinct == null {
        return Fault("Invalid DISTINCT set");
      }
      sum := AddNewValues(part.distinct, cumulative.distinct, sum);
      cumulative.sum := Some(sum);
    } else {
      if part.list == null || cumulative.list == null {
        return Fault("Invalid list");
      }
      if part.sum == None {
        return Fault("No sum");
      }
      sum := sum + part.sum.value;
      cumulative.list.Union(part.list);
      cumulative.sum := Some(sum);
    }
    r := Ok(cumulative);
  }

  /** `computeVariance`. */
  method ComputeVariance(cumulative: AnnotatedValue?, distinct: bool, samp: bool, delta: real) returns (r: Outcome<Value>)
    requires 0.0 <= delta <= 1.0
    ensures r.Fault? <==> VarianceOf(Contents(cumulative), distinct, samp, delta).Fault?
    ensures r.Ok? ==> r == VarianceOf(Contents(cumulative), distinct, samp, delta)
  {
    if cumulative == null || (if distinct then cumulative.distinct == null else cumulative.list == null) {
      return Fault("Invalid set or list");
    }
    var values;
    if distinct {
      values := cumulative.distinct.Values();
    } else {
      values := cumulative.list.items;
    }
    hide SumOf, Listed;
    ghost var q := Collected(Contents(cumulative), distinct);
    assert multiset(values) == multiset(q);
    assert |values| == |multiset(values)| == |q|;
    if |values| == 0 {
      return Ok(Null);
    }
    if |values| == 1 {
      return Ok(if samp then Null else Number(0.0));
    }
    if cumulative.sum == None {
      return Fault("No sum");
    }
    var mean := cumulative.sum.value / (|values| as real);
    var variance := SquaredDistances(values, mean);
    SumIgnoresOrder(Deviation(Num, mean), values, q);
    r := Ok(Number(variance / ((|values| as real) - delta)));
  }

  method SquaredDistances(values: seq<Value>, mean: real) returns (variance: real)
    ensures variance == SumOf(Deviation(Num, mean), values)
  {
    variance := 0.0;
    for i := 0 to |values|
      invariant variance == SumOf(Deviation(Num, mean), values[..i])
    {
      hide Num;
      var f := Num(values[i]) - mean;
      SumOfOneMore(Deviation(Num, mean), values[..i], values[i]);
      assert values[..i + 1] == values[..i] + [values[i]];
      variance := variance + f * f;
    }
    assert values[..|values|] == values;
  }
}
