/**
 Optimizer hints in JSON style (algebra/hints.go): hints of one kind are grouped under one key when
 printed, and read back from the object. Go visits the fields of an object in an arbitrary order,
 so every statement is about all orders.
 */
module Hints {
  import opened Wrappers
  import opened Sums

  datatype Json = JNull | JBool(b: bool) | JNumber(n: real) | JString(s: string) | JArray(items: seq<Json>) | JObject(fields: map<string, Json>)

  /** The keys under which hints are printed: the type of the hint and, for negative ones, no or avoid. */
  datatype Key =
    | Index | IndexFts | NoIndex | AvoidIndex | NoIndexFts | AvoidIndexFts | IndexAll
    | UseNl | NoUseNl | AvoidNl
    | UseHash | NoUseHash | AvoidHash
    | JoinFilter | NoJoinFilter | AvoidJoinFilter
  {
    predicate OnIndexes() {
      Index? || IndexFts? || NoIndex? || AvoidIndex? || NoIndexFts? || AvoidIndexFts? || IndexAll?
    }
    predicate OnHash() {
      UseHash? || NoUseHash? || AvoidHash?
    }
    predicate OnNl() {
      UseNl? || NoUseNl? || AvoidNl?
    }
  }

  datatype HashOption = NoOption | Build | Probe

  /** A hint without its state; only index hints list indexes and only USE_HASH has an option. */
  datatype Hint = Hint(key: Key, keyspace: string, indexes: seq<string>, option: HashOption)

  function KeyName(key: Key): string {
    match key
    case Index => "index"
    case IndexFts => "index_fts"
    case NoIndex => "no_index"
    case AvoidIndex => "avoid_index"
    case NoIndexFts => "no_index_fts"
    case AvoidIndexFts => "avoid_index_fts"
    case IndexAll => "index_all"
    case UseNl => "use_nl"
    case NoUseNl => "no_use_nl"
    case AvoidNl => "avoid_nl"
    case UseHash => "use_hash"
    case NoUseHash => "no_use_hash"
    case AvoidHash => "avoid_hash"
    case JoinFilter => "join_filter"
    case NoJoinFilter => "no_join_filter"
    case AvoidJoinFilter => "avoid_join_filter"
  }

  /** The key that a lower-case name stands for. */
  function KeyOf(name: string): Option<Key> {
    if name == "index" then Some(Index)
    else if name == "index_fts" then Some(IndexFts)
    else if name == "no_index" then Some(NoIndex)
    else if name == "avoid_index" then Some(AvoidIndex)
    else if name == "no_index_fts" then Some(NoIndexFts)
    else if name == "avoid_index_fts" then Some(AvoidIndexFts)
    else if name == "index_all" || name == "index_combine" then Some(IndexAll)
    else if name == "use_nl" then Some(UseNl)
    else if name == "use_hash" then Some(UseHash)
    else if name == "no_use_nl" then Some(NoUseNl)
    else if name == "avoid_nl" then Some(AvoidNl)
    else if name == "no_use_hash" then Some(NoUseHash)
    else if name == "avoid_hash" then Some(AvoidHash)
    else if name == "join_filter" || name == "px_join_filter" then Some(JoinFilter)
    else if name == "no_join_filter" || name == "no_px_join_filter" then Some(NoJoinFilter)
    else if name == "avoid_join_filter" then Some(AvoidJoinFilter)
    else None
  }

  function LowerChar(c: char): char {
    if 'A' <= c <= 'Z' then ((c as int) + 32) as char else c
  }

  function ToLower(s: string): string {
    seq(|s|, i requires 0 <= i < |s| => LowerChar(s[i]))
  }

  lemma {:induction false} LowerStays(s: string)
    requires forall i :: 0 <= i < |s| ==> !('A' <= s[i] <= 'Z')
    ensures ToLower(s) == s
  {
  }

  lemma {:induction false} KeyNamesReadBack(key: Key)
    ensures KeyOf(ToLower(KeyName(key))) == Some(key)
  {
    hide KeyOf, ToLower;
    KeyNamesAreLower(key);
    if key.OnIndexes() {
      IndexKeyNames(key);
    } else {
      OtherKeyNames(key);
    }
  }

  lemma {:induction false} KeyNamesAreLower(key: Key)
    ensures ToLower(KeyName(key)) == KeyName(key)
  {
    LowerStays(KeyName(key));
  }

  lemma {:induction false} IndexKeyNames(key: Key)
    requires key.OnIndexes()
    ensures KeyOf(KeyName(key)) == Some(key)
  {
  }

  lemma {:induction false} OtherKeyNames(key: Key)
    requires !key.OnIndexes()
    ensures KeyOf(KeyName(key)) == Some(key)
  {
  }

  lemma {:induction false} FieldNamesReadBack()
    ensures ToLower("keyspace") == "keyspace" && ToLower("indexes") == "indexes" && ToLower("option") == "option"
    ensures ToLower("BUILD") == "build" && ToLower("PROBE") == "probe"
  {
    LowerStays("keyspace");
    LowerStays("indexes");
    LowerStays("option");
  }

  // ---- Reading one hint object

  /** The text of a value; what is neither a string nor null is rendered as JSON text. */
  function Text(render: Json -> string, v: Json): string {
    match v
    case JString(s) => s
    case JNull => "null"
    case _ => render(v)
  }

  function IndexName(render: Json -> string, v: Json): Outcome<string> {
    var name := Text(render, v);
    if name == "" then Fault("Index name(s) must be string")
    else if '/' in name then Fault("Invalid '/' found in index name")
    else Ok(name)
  }

  function IndexNamesOf(render: Json -> string, items: seq<Json>): Outcome<seq<string>> {
    if items == [] then Ok([])
    else
      match IndexNamesOf(render, items[..|items| - 1])
      case Fault(e) => Fault(e)
      case Ok(names) =>
        match IndexName(render, items[|items| - 1])
        case Fault(e) => Fault(e)
        case Ok(name) => Ok(names + [name])
  }

  function IndexNames(render: Json -> string, v: Json): Outcome<seq<string>> {
    match v
    case JArray(items) => IndexNamesOf(render, items)
    case JNull => Ok([])
    case _ => IndexNamesOf(render, [v])
  }

  function OptionOf(text: string): Option<HashOption> {
    if text == "build" then Some(Build)
    else if text == "probe" then Some(Probe)
    else if text == "null" then Some(NoOption)
    else None
  }

  /** What has been read from the fields of a hint object. */
  datatype Fields = Fields(keyspace: string, indexes: seq<string>, option: HashOption)

  predicate IsNaming(k: string) {
    ToLower(k) == "keyspace" || ToLower(k) == "alias"
  }

  /** One field. A null option leaves the option as it was. */
  function ReadField(render: Json -> string, key: Key, f: Fields, k: string, v: Json): Outcome<Fields> {
    if IsNaming(k) then
      if f.keyspace != "" then Fault("Duplicated keyspace/alias specified")
      else if Text(render, v) == "" then Fault("Invalid keyspace specified")
      else if (key.OnNl() || key.OnHash()) && '/' in Text(render, v) then Fault("Invalid '/' found in keyspace")
      else Ok(f.(keyspace := Text(render, v)))
    else if key.OnIndexes() && ToLower(k) == "indexes" then
      match IndexNames(render, v)
      case Fault(e) => Fault(e)
      case Ok(names) => Ok(f.(indexes := f.indexes + names))
    else if key.OnHash() && ToLower(k) == "option" then
      if !key.UseHash? then Fault("Hash option not allowed")
      else
        match OptionOf(ToLower(Text(render, v)))
        case None => Fault("Invalid hash option")
        case Some(NoOption) => Ok(f)
        case Some(option) => Ok(f.(option := option))
    else Fault("Invalid field specified")
  }

  /** The fields in the order in which they are visited, up to the first error. */
  function ReadFields(render: Json -> string, key: Key, f: Fields, m: map<string, Json>, order: seq<string>): Outcome<Fields>
    requires forall k :: k in order ==> k in m
    decreases |order|
  {
    if order == [] then Ok(f)
    else
      match ReadField(render, key, f, order[0], m[order[0]])
      case Fault(e) => Fault(e)
      case Ok(f') => ReadFields(render, key, f', m, order[1..])
  }

  const NOTHING := Fields("", [], NoOption)

  function Complete(key: Key, f: Fields): Outcome<Hint> {
    if f.keyspace == "" then Fault("Missing argument")
    else if key.IndexAll? && |f.indexes| < 2 then Fault("INDEX_ALL hint must have more than one index specified")
    else Ok(Hint(key, f.keyspace, f.indexes, f.option))
  }

  function ReadHint(render: Json -> string, key: Key, m: map<string, Json>, order: seq<string>): Outcome<Hint>
    requires forall k :: k in order ==> k in m
  {
    match ReadFields(render, key, NOTHING, m, order)
    case Fault(e) => Fault(e)
    case Ok(f) => Complete(key, f)
  }

  /** The `proc...Hints` functions: a loop over the fields that stops at the first error. */
  method ProcessHint(render: Json -> string, key: Key, m: map<string, Json>, order: seq<string>) returns (r: Outcome<Hint>)
    requires forall k :: k in order ==> k in m
    ensures r == ReadHint(render, key, m, order)
  {
    hide ReadField, Complete;
    var f := NOTHING;
    for i := 0 to |order|
      invariant ReadFields(render, key, NOTHING, m, order) == ReadFields(render, key, f, m, order[i..])
    {
      assert order[i..][0] == order[i] && order[i..][1..] == order[i + 1..];
      var next := ReadField(render, key, f, order[i], m[order[i]]);
      if next.Fault? {
        return Fault(next.message);
      }
      f := next.value;
    }
    return Complete(key, f);
  }

  // ---- Whether an object is valid does not depend on the order of its fields

  /** The field on its own is acceptable. */
  predicate FieldIsFine(render: Json -> string, key: Key, k: string, v: Json) {
    if IsNaming(k) then Text(render, v) != "" && (key.OnNl() || key.OnHash() ==> '/' !in Text(render, v))
    else if key.OnIndexes() && ToLower(k) == "indexes" then IndexNames(render, v).Ok?
    else key.UseHash? && ToLower(k) == "option" && OptionOf(ToLower(Text(render, v))).Some?
  }

  function Naming(k: string): real {
    if IsNaming(k) then 1.0 else 0.0
  }

  /** How many index names a field adds. */
  function Indexing(render: Json -> string, key: Key, m: map<string, Json>, k: string): real {
    if k in m && !IsNaming(k) && key.OnIndexes() && ToLower(k) == "indexes" && IndexNames(render, m[k]).Ok?
    then |IndexNames(render, m[k]).value| as real else 0.0
  }

  lemma {:induction false} ReadFieldExactly(render: Json -> string, key: Key, f: Fields, m: map<string, Json>, k: string)
    requires k in m
    ensures
      var r := ReadField(render, key, f, k, m[k]);
      && (r.Ok? <==> FieldIsFine(render, key, k, m[k]) && !(IsNaming(k) && f.keyspace != ""))
      && (r.Ok? ==> (r.value.keyspace != "" <==> f.keyspace != "" || IsNaming(k)))
      && (r.Ok? ==> |r.value.indexes| as real == |f.indexes| as real + Indexing(render, key, m, k))
  {
    hide ToLower, OptionOf, IndexNames;
  }

  function IndexingIn(render: Json -> string, key: Key, m: map<string, Json>): string -> real {
    k => Indexing(render, key, m, k)
  }

  lemma {:induction false} ReadFieldsExactly(render: Json -> string, key: Key, f: Fields, m: map<string, Json>, order: seq<string>)
    requires forall k :: k in order ==> k in m
    ensures
      var named := SumOf(Naming, order) + if f.keyspace != "" then 1.0 else 0.0;
      var r := ReadFields(render, key, f, m, order);
      && (r.Ok? <==> named <= 1.0 && forall k :: k in order ==> FieldIsFine(render, key, k, m[k]))
      && (r.Ok? ==> (r.value.keyspace != "" <==> named == 1.0))
      && (r.Ok? ==> |r.value.indexes| as real == |f.indexes| as real + SumOf(IndexingIn(render, key, m), order))
    decreases |order|
  {
    hide ReadField, FieldIsFine, IsNaming, Indexing, SumOf;
    if order == [] {
      SumOfNone(Naming);
      SumOfNone(IndexingIn(render, key, m));
    } else {
      var k := order[0];
      SumOfFirst(Naming, order);
      SumOfFirst(IndexingIn(render, key, m), order);
      SumIsNonnegative(Naming, order[1..]);
      assert order == [k] + order[1..];
      assert Naming(k) == if IsNaming(k) then 1.0 else 0.0;
      ReadFieldExactly(render, key, f, m, k);
      match ReadField(render, key, f, k, m[k])
      case Fault(_) =>
      case Ok(f') => ReadFieldsExactly(render, key, f', m, order[1..]);
    }
  }

  /** The order visits every field once. */
  ghost predicate Enumerates(order: seq<string>, m: map<string, Json>) {
    multiset(order) == multiset(m.Keys)
  }

  lemma {:induction false} EnumeratedKeys(order: seq<string>, m: map<string, Json>)
    requires Enumerates(order, m)
    ensures forall k :: k in order <==> k in m
  {
    forall k ensures k in order <==> k in m {
      assert k in order <==> k in multiset(order);
      assert k in m <==> k in multiset(m.Keys);
    }
  }

  /** A hint object is valid exactly when its fields are fine, one of them names the keyspace, and INDEX_ALL has two indexes. */
  lemma {:induction false} ReadHintExactly(render: Json -> string, key: Key, m: map<string, Json>, order: seq<string>)
    requires forall k :: k in order ==> k in m
    ensures ReadHint(render, key, m, order).Ok? <==>
      && (forall k :: k in order ==> FieldIsFine(render, key, k, m[k]))
      && SumOf(Naming, order) == 1.0
      && (key.IndexAll? ==> SumOf(IndexingIn(render, key, m), order) >= 2.0)
  {
    hide FieldIsFine, Naming, Indexing;
    ReadFieldsExactly(render, key, NOTHING, m, order);
  }

  lemma {:induction false} ObjectValidityIgnoresOrder(render: Json -> string, key: Key, m: map<string, Json>, order: seq<string>, other: seq<string>)
    requires Enumerates(order, m) && Enumerates(other, m)
    ensures (forall k :: k in order ==> k in m) && (forall k :: k in other ==> k in m)
    ensures ReadHint(render, key, m, order).Ok? <==> ReadHint(render, key, m, other).Ok?
  {
    hide FieldIsFine, Naming, Indexing, ReadHint;
    EnumeratedKeys(order, m);
    EnumeratedKeys(other, m);
    ReadHintExactly(render, key, m, order);
    ReadHintExactly(render, key, m, other);
    SumIgnoresOrder(Naming, order, other);
    SumIgnoresOrder(IndexingIn(render, key, m), order, other);
  }

  // ---- Reading the value of a key: an object, or arrays of such values

  /** A way of visiting the fields of every object. */
  ghost predicate IsVisit(visit: map<string, Json> -> seq<string>) {
    forall m :: Enumerates(visit(m), m)
  }

  /** `newHints`. Values that are neither arrays nor objects give no hint. */
  function ReadHints(render: Json -> string, key: Key, v: Json, visit: map<string, Json> -> seq<string>): Outcome<seq<Hint>>
    requires IsVisit(visit)
    decreases v, 0
  {
    match v
    case JArray(items) => ReadItems(render, key, v, |items|, visit)
    case JObject(m) =>
      EnumeratedKeys(visit(m), m);
      (match ReadHint(render, key, m, visit(m))
       case Fault(e) => Fault(e)
       case Ok(hint) => Ok([hint]))
    case _ => Ok([])
  }

  /** The first `n` items of an array. */
  function ReadItems(render: Json -> string, key: Key, v: Json, n: nat, visit: map<string, Json> -> seq<string>): Outcome<seq<Hint>>
    requires IsVisit(visit) && v.JArray? && n <= |v.items|
    decreases v, 0, n
  {
    if n == 0 then Ok([])
    else
      match ReadItems(render, key, v, n - 1, visit)
      case Fault(e) => Fault(e)
      case Ok(hints) =>
        match ReadHints(render, key, v.items[n - 1], visit)
        case Fault(e) => Fault(e)
        case Ok(more) => Ok(hints + more)
  }

  /** Whether the value of a key is valid does not depend on the order in which fields are visited. */
  lemma {:induction false} ValidityIgnoresOrder(render: Json -> string, key: Key, v: Json,
                                                visit: map<string, Json> -> seq<string>, other: map<string, Json> -> seq<string>)
    requires IsVisit(visit) && IsVisit(other)
    ensures ReadHints(render, key, v, visit).Ok? <==> ReadHints(render, key, v, other).Ok?
    decreases v, 0
  {
    hide ReadHint;
    match v
    case JArray(items) => ItemValidityIgnoresOrder(render, key, v, |items|, visit, other);
    case JObject(m) => ObjectValidityIgnoresOrder(render, key, m, visit(m), other(m));
    case _ =>
  }

  lemma {:induction false} ItemValidityIgnoresOrder(render: Json -> string, key: Key, v: Json, n: nat,
                                                    visit: map<string, Json> -> seq<string>, other: map<string, Json> -> seq<string>)
    requires IsVisit(visit) && IsVisit(other) && v.JArray? && n <= |v.items|
    ensures ReadItems(render, key, v, n, visit).Ok? <==> ReadItems(render, key, v, n, other).Ok?
    decreases v, 0, n
  {
    if n > 0 {
      ItemValidityIgnoresOrder(render, key, v, n - 1, visit, other);
      ValidityIgnoresOrder(render, key, v.items[n - 1], visit, other);
    }
  }
}
