/**
 The three-phase contract of aggregates (algebra/aggregate.go:22-41): rows are aggregated in parallel
 streams, the partial results are merged by any cascade of intermediate steps, and the outcome has to
 be that of one pass over the rows.
 */
module MergeTrees {
  import opened Wrappers
  import opened Collation
  import opened Accumulators

  /** A row: whether it passes the FILTER clause, and the value of the operand. */
  datatype Input = Input(passes: bool, operand: Value)

  datatype Aggregate = Aggregate(
    default: Cumulative,
    initial: (Input, Cumulative) -> Outcome<Cumulative>,
    intermediate: (Cumulative, Cumulative) -> Outcome<Cumulative>,
    final: Cumulative -> Outcome<Value>)

  /** Streams of rows and the merges of their results; `part` is merged into `cumulative`. */
  datatype Tree = Stream(rows: seq<Input>) | Merge(cumulative: Tree, part: Tree)

  function Rows(t: Tree): seq<Input> {
    match t
    case Stream(rows) => rows
    case Merge(cumulative, part) => Rows(cumulative) + Rows(part)
  }

  function Pass(agg: Aggregate, rows: seq<Input>): Outcome<Cumulative> {
    if rows == [] then Ok(agg.default)
    else
      match Pass(agg, rows[..|rows| - 1])
      case Fault(e) => Fault(e)
      case Ok(c) => agg.initial(rows[|rows| - 1], c)
  }

  function Merged(agg: Aggregate, t: Tree): Outcome<Cumulative> {
    match t
    case Stream(rows) => Pass(agg, rows)
    case Merge(cumulative, part) =>
      match Merged(agg, cumulative)
      case Fault(e) => Fault(e)
      case Ok(c) =>
        match Merged(agg, part)
        case Fault(e) => Fault(e)
        case Ok(p) => agg.intermediate(p, c)
  }

  function Result(agg: Aggregate, t: Tree): Outcome<Value> {
    match Merged(agg, t)
    case Fault(e) => Fault(e)
    case Ok(c) => agg.final(c)
  }

  // ---- Aggregates whose cumulative value is a function of the qualifying operands

  ghost predicate AllFit(fits: Value -> bool, q: seq<Value>) {
    forall v :: v in q ==> fits(v)
  }

  function Admitted(fits: Value -> bool, row: Input): seq<Value> {
    if row.passes && fits(row.operand) then [row.operand] else []
  }

  /** The operands that count. */
  function Qualifying(fits: Value -> bool, rows: seq<Input>): seq<Value> {
    if rows == [] then [] else Qualifying(fits, rows[..|rows| - 1]) + Admitted(fits, rows[|rows| - 1])
  }

  lemma {:induction false} QualifyingFit(fits: Value -> bool, rows: seq<Input>)
    ensures AllFit(fits, Qualifying(fits, rows))
  {
    if rows != [] {
      QualifyingFit(fits, rows[..|rows| - 1]);
    }
  }

  lemma {:induction false} QualifyingOfBoth(fits: Value -> bool, rows: seq<Input>, more: seq<Input>)
    ensures Qualifying(fits, rows + more) == Qualifying(fits, rows) + Qualifying(fits, more)
    decreases |more|
  {
    if more == [] {
      assert rows + more == rows;
    } else {
      QualifyingOfBoth(fits, rows, more[..|more| - 1]);
      assert (rows + more)[..|rows + more| - 1] == rows + more[..|more| - 1];
    }
  }

  ghost predicate Adds(agg: Aggregate, fits: Value -> bool, view: seq<Value> -> Cumulative) {
    && agg.default == view([])
    && forall row, q :: AllFit(fits, q) ==> agg.initial(row, view(q)) == Ok(view(q + Admitted(fits, row)))
  }

  /** Merging works on all views, or, if it is strict, exactly on views of at least one operand. */
  ghost predicate Merges(agg: Aggregate, fits: Value -> bool, view: seq<Value> -> Cumulative, strict: bool) {
    forall p, c :: AllFit(fits, p) && AllFit(fits, c) ==>
      if strict && (p == [] || c == []) then agg.intermediate(view(p), view(c)).Fault?
      else agg.intermediate(view(p), view(c)) == Ok(view(c + p))
  }

  /** Every stream has a row that counts. */
  ghost predicate EveryStreamQualifies(fits: Value -> bool, t: Tree) {
    match t
    case Stream(rows) => Qualifying(fits, rows) != []
    case Merge(cumulative, part) => EveryStreamQualifies(fits, cumulative) && EveryStreamQualifies(fits, part)
  }

  lemma {:induction false} PassIsView(agg: Aggregate, fits: Value -> bool, view: seq<Value> -> Cumulative, rows: seq<Input>)
    requires Adds(agg, fits, view)
    ensures Pass(agg, rows) == Ok(view(Qualifying(fits, rows)))
  {
    if rows != [] {
      PassIsView(agg, fits, view, rows[..|rows| - 1]);
      QualifyingFit(fits, rows[..|rows| - 1]);
    }
  }

  lemma {:induction false} QualifyingStreams(fits: Value -> bool, t: Tree)
    requires EveryStreamQualifies(fits, t)
    ensures Qualifying(fits, Rows(t)) != []
  {
    if t.Merge? {
      QualifyingStreams(fits, t.cumulative);
      QualifyingOfBoth(fits, Rows(t.cumulative), Rows(t.part));
    }
  }

  /** A cascade of merges ends in the view of all rows, or, if merging is strict, fails exactly when some stream has nothing to merge. */
  lemma {:induction false} MergedIsView(agg: Aggregate, fits: Value -> bool, view: seq<Value> -> Cumulative, strict: bool, t: Tree)
    requires Adds(agg, fits, view) && Merges(agg, fits, view, strict)
    ensures
      if !strict || t.Stream? || EveryStreamQualifies(fits, t) then Merged(agg, t) == Ok(view(Qualifying(fits, Rows(t))))
      else Merged(agg, t).Fault?
  {
    hide Qualifying;
    match t
    case Stream(rows) => PassIsView(agg, fits, view, rows);
    case Merge(cumulative, part) =>
      MergedIsView(agg, fits, view, strict, cumulative);
      MergedIsView(agg, fits, view, strict, part);
      var c, p := Qualifying(fits, Rows(cumulative)), Qualifying(fits, Rows(part));
      QualifyingFit(fits, Rows(cumulative));
      QualifyingFit(fits, Rows(part));
      QualifyingOfBoth(fits, Rows(cumulative), Rows(part));
      StreamsOf(fits, cumulative);
      StreamsOf(fits, part);
  }

  lemma {:induction false} StreamsOf(fits: Value -> bool, t: Tree)
    ensures EveryStreamQualifies(fits, t) ==> Qualifying(fits, Rows(t)) != []
    ensures t.Stream? && Qualifying(fits, Rows(t)) != [] ==> EveryStreamQualifies(fits, t)
  {
    if EveryStreamQualifies(fits, t) {
      QualifyingStreams(fits, t);
    }
  }
}
