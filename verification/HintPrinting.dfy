/**
 Printing optimizer hints as one JSON object and reading that object back (algebra/hints.go).
 */
module HintPrinting {
  import opened Wrappers
  import opened Hints

  // ---- Printing

  function Strings(names: seq<string>): seq<Json> {
    seq(|names|, i requires 0 <= i < |names| => JString(names[i]))
  }

  /** `formatJSON` of a hint. */
  function Format(h: Hint): map<string, Json> {
    map["keyspace" := JString(h.keyspace)]
    + (if h.key.OnIndexes() && h.indexes != [] then map["indexes" := JArray(Strings(h.indexes))] else map[])
    + (if h.key.UseHash? && h.option == Build then map["option" := JString("BUILD")]
       else if h.key.UseHash? && h.option == Probe then map["option" := JString("PROBE")] else map[])
  }

  /** `addJSONHint`: a second hint of the same key turns the value into an array. */
  function AddHint(r: map<string, Json>, h: Hint): map<string, Json> {
    var name, obj := KeyName(h.key), JObject(Format(h));
    if name !in r then r[name := obj]
    else
      match r[name]
      case JArray(items) => r[name := JArray(items + [obj])]
      case curr => r[name := JArray([curr, obj])]
  }

  function Print(hints: seq<Hint>): map<string, Json> {
    if hints == [] then map[] else AddHint(Print(hints[..|hints| - 1]), hints[|hints| - 1])
  }

  lemma {:induction false} PrintStep(hints: seq<Hint>, i: nat)
    requires i < |hints|
    ensures Print(hints[..i + 1]) == AddHint(Print(hints[..i]), hints[i])
  {
    hide AddHint;
    assert hints[..i + 1][..i] == hints[..i];
  }

  /** The object built by `OptimHints.String`. */
  method PrintHints(hints: seq<Hint>) returns (r: map<string, Json>)
    ensures r == Print(hints)
  {
    r := map[];
    for i := 0 to |hints|
      invariant r == Print(hints[..i])
    {
      hide KeyName, Format;
      PrintStep(hints, i);
      var name, obj := KeyName(hints[i].key), JObject(Format(hints[i]));
      if name in r {
        match r[name]
        case JArray(items) => r := r[name := JArray(items + [obj])];
        case curr => r := r[name := JArray([curr, obj])];
      } else {
        r := r[name := obj];
      }
    }
    assert hints[..|hints|] == hints;
  }

  /** The hints with a given key, in order. */
  function WithKey(hints: seq<Hint>, key: Key): seq<Hint> {
    if hints == [] then []
    else WithKey(hints[..|hints| - 1], key) + if hints[|hints| - 1].key == key then [hints[|hints| - 1]] else []
  }

  function Objects(hints: seq<Hint>): seq<Json> {
    seq(|hints|, i requires 0 <= i < |hints| => JObject(Format(hints[i])))
  }

  /** The value printed for the hints of one key. */
  function Grouped(hints: seq<Hint>): Json
    requires hints != []
  {
    if |hints| == 1 then JObject(Format(hints[0])) else JArray(Objects(hints))
  }

  lemma {:induction false} KeyNamesAreDistinct(key: Key, other: Key)
    ensures KeyName(key) == KeyName(other) <==> key == other
  {
    hide KeyName, KeyOf, ToLower;
    KeyNamesReadBack(key);
    KeyNamesReadBack(other);
  }

  /** The printed object holds, for each key in use, the hints of that key. */
  lemma {:induction false} PrintGroups(hints: seq<Hint>, key: Key)
    ensures KeyName(key) in Print(hints) <==> WithKey(hints, key) != []
    ensures WithKey(hints, key) != [] ==> Print(hints)[KeyName(key)] == Grouped(WithKey(hints, key))
  {
    hide KeyName, Format;
    if hints != [] {
      var init, h := hints[..|hints| - 1], hints[|hints| - 1];
      PrintGroups(init, key);
      KeyNamesAreDistinct(key, h.key);
      if h.key == key {
        var before := WithKey(init, key);
        assert Objects(before + [h]) == Objects(before) + [JObject(Format(h))];
        if |before| == 1 {
          assert Objects(before) == [JObject(Format(before[0]))];
        }
      }
    }
  }

  lemma {:induction false} PrintedKeys(hints: seq<Hint>, name: string)
    ensures name in Print(hints) ==> exists key :: name == KeyName(key)
  {
    hide KeyName, Format;
    if hints != [] {
      PrintedKeys(hints[..|hints| - 1], name);
    }
  }

  // ---- One hint: what is read is well formed, and what is well formed reads back

  predicate IsIndexName(name: string) {
    name != "" && '/' !in name
  }

  /** The hints that can be written in JSON style. */
  predicate WellFormed(h: Hint) {
    && h.keyspace != ""
    && (h.key.OnNl() || h.key.OnHash() ==> '/' !in h.keyspace)
    && (forall name :: name in h.indexes ==> IsIndexName(name))
    && (!h.key.OnIndexes() ==> h.indexes == [])
    && (h.key.IndexAll? ==> |h.indexes| >= 2)
    && (!h.key.UseHash? ==> h.option == NoOption)
  }

  /** What holds of the fields read so far. */
  predicate Sound(key: Key, f: Fields) {
    && (key.OnNl() || key.OnHash() ==> '/' !in f.keyspace)
    && (forall name :: name in f.indexes ==> IsIndexName(name))
    && (!key.OnIndexes() ==> f.indexes == [])
    && (!key.UseHash? ==> f.option == NoOption)
  }

  lemma {:induction false} NamesReadAreSound(render: Json -> string, items: seq<Json>)
    ensures IndexNamesOf(render, items).Ok? ==> forall name :: name in IndexNamesOf(render, items).value ==> IsIndexName(name)
  {
    if items != [] {
      NamesReadAreSound(render, items[..|items| - 1]);
    }
  }

  lemma {:induction false} FieldReadIsSound(render: Json -> string, key: Key, f: Fields, k: string, v: Json)
    requires Sound(key, f)
    ensures ReadField(render, key, f, k, v).Ok? ==> Sound(key, ReadField(render, key, f, k, v).value)
  {
    hide IndexNamesOf, ToLower, OptionOf;
    NamesReadAreSound(render, if v.JArray? then v.items else [v]);
  }

  lemma {:induction false} FieldsReadAreSound(render: Json -> string, key: Key, f: Fields, m: map<string, Json>, order: seq<string>)
    requires forall k :: k in order ==> k in m
    requires Sound(key, f)
    ensures ReadFields(render, key, f, m, order).Ok? ==> Sound(key, ReadFields(render, key, f, m, order).value)
    decreases |order|
  {
    hide ReadField, Sound;
    if order != [] {
      FieldReadIsSound(render, key, f, order[0], m[order[0]]);
      var next := ReadField(render, key, f, order[0], m[order[0]]);
      if next.Ok? {
        FieldsReadAreSound(render, key, next.value, m, order[1..]);
      }
    }
  }

  lemma {:induction false} HintReadIsWellFormed(render: Json -> string, key: Key, m: map<string, Json>, order: seq<string>)
    requires forall k :: k in order ==> k in m
    ensures ReadHint(render, key, m, order).Ok? ==> WellFormed(ReadHint(render, key, m, order).value)
  {
    hide ReadFields;
    FieldsReadAreSound(render, key, NOTHING, m, order);
  }

  lemma {:induction false} NamesReadBack(render: Json -> string, names: seq<string>)
    requires forall name :: name in names ==> IsIndexName(name)
    ensures IndexNamesOf(render, Strings(names)) == Ok(names)
  {
    if names != [] {
      var init := names[..|names| - 1];
      NamesReadBack(render, init);
      assert Strings(names)[..|names| - 1] == Strings(init);
      assert names == init + [names[|names| - 1]];
      assert names[|names| - 1] in names && IndexName(render, JString(names[|names| - 1])) == Ok(names[|names| - 1]);
    }
  }

  lemma {:induction false} OrderOfOne(order: seq<string>, k: string)
    requires multiset(order) == multiset{k}
    ensures order == [k]
  {
    assert |multiset(order)| == 1;
    assert order[0] in multiset(order);
  }

  lemma {:induction false} OrderOfTwo(order: seq<string>, k: string, l: string)
    requires multiset(order) == multiset{k, l}
    ensures order == [k, l] || order == [l, k]
  {
    assert |multiset(order)| == 2;
    assert order == [order[0], order[1]];
    assert order[0] in multiset(order) && order[1] in multiset(order);
    assert multiset(order) == multiset{order[0], order[1]};
  }

  /** The field beside the keyspace, if any. */
  predicate HasSecond(h: Hint) {
    (h.key.OnIndexes() && h.indexes != []) || (h.key.UseHash? && h.option != NoOption)
  }

  function Second(h: Hint): string {
    if h.key.OnIndexes() then "indexes" else "option"
  }

  lemma {:induction false} OrdersOfPrinted(h: Hint, order: seq<string>)
    requires Enumerates(order, Format(h))
    ensures if HasSecond(h) then order == ["keyspace", Second(h)] || order == [Second(h), "keyspace"] else order == ["keyspace"]
  {
    assert "keyspace"[0] != "indexes"[0] && "keyspace"[0] != "option"[0];
    if HasSecond(h) {
      assert Format(h).Keys == {"keyspace", Second(h)};
      OrderOfTwo(order, "keyspace", Second(h));
    } else {
      assert Format(h).Keys == {"keyspace"};
      OrderOfOne(order, "keyspace");
    }
  }

  lemma {:induction false} KeyspaceReadsBack(render: Json -> string, h: Hint, f: Fields)
    requires WellFormed(h) && f.keyspace == ""
    ensures ReadField(render, h.key, f, "keyspace", Format(h)["keyspace"]) == Ok(f.(keyspace := h.keyspace))
  {
    hide ToLower;
    FieldNamesReadBack();
  }

  lemma {:induction false} SecondReadsBack(render: Json -> string, h: Hint, f: Fields)
    requires WellFormed(h) && HasSecond(h) && f.indexes == [] && f.option == NoOption
    ensures Second(h) in Format(h)
    ensures ReadField(render, h.key, f, Second(h), Format(h)[Second(h)]) == Ok(f.(indexes := h.indexes, option := h.option))
  {
    hide ToLower;
    FieldNamesReadBack();
    assert "indexes"[0] == 'i' && "option"[0] == 'o' && "keyspace"[0] == 'k' && "alias"[0] == 'a';
    if h.key.OnIndexes() {
      NamesReadBack(render, h.indexes);
      assert [] + h.indexes == h.indexes;
    }
  }

  /** Exactly the well-formed hints read back from their printed form, in every order of its fields. */
  lemma {:induction false} HintReadsBackExactly(render: Json -> string, h: Hint, order: seq<string>)
    requires Enumerates(order, Format(h))
    ensures forall k :: k in order ==> k in Format(h)
    ensures ReadHint(render, h.key, Format(h), order) == Ok(h) <==> WellFormed(h)
  {
    EnumeratedKeys(order, Format(h));
    HintReadIsWellFormed(render, h.key, Format(h), order);
    if WellFormed(h) {
      WellFormedReadsBack(render, h, order);
    }
  }

  lemma {:induction false} ReadOneField(render: Json -> string, key: Key, f: Fields, m: map<string, Json>, k: string)
    requires k in m
    ensures ReadFields(render, key, f, m, [k]) == ReadField(render, key, f, k, m[k])
  {
    hide ReadField;
    assert [k][1..] == [];
  }

  lemma {:induction false} ReadTwoFields(render: Json -> string, key: Key, f: Fields, m: map<string, Json>, k: string, l: string)
    requires k in m && l in m && ReadField(render, key, f, k, m[k]).Ok?
    ensures ReadFields(render, key, f, m, [k, l]) == ReadField(render, key, ReadField(render, key, f, k, m[k]).value, l, m[l])
  {
    hide ReadField;
    assert [k, l][1..] == [l];
    ReadOneField(render, key, ReadField(render, key, f, k, m[k]).value, m, l);
  }

  lemma {:induction false} WellFormedReadsBack(render: Json -> string, h: Hint, order: seq<string>)
    requires Enumerates(order, Format(h)) && WellFormed(h)
    ensures forall k :: k in order ==> k in Format(h)
    ensures ReadHint(render, h.key, Format(h), order) == Ok(h)
  {
    hide ReadField, ReadFields, Format;
    var m := Format(h);
    EnumeratedKeys(order, m);
    OrdersOfPrinted(h, order);
    KeyspaceReadsBack(render, h, NOTHING);
    if !HasSecond(h) {
      ReadOneField(render, h.key, NOTHING, m, "keyspace");
    } else if order[0] == "keyspace" {
      SecondReadsBack(render, h, NOTHING.(keyspace := h.keyspace));
      ReadTwoFields(render, h.key, NOTHING, m, "keyspace", Second(h));
    } else {
      SecondReadsBack(render, h, NOTHING);
      KeyspaceReadsBack(render, h, NOTHING.(indexes := h.indexes, option := h.option));
      ReadTwoFields(render, h.key, NOTHING, m, Second(h), "keyspace");
    }
  }

  // ---- A whole object

  /** A key that is unknown, or whose value is not valid, becomes an invalid hint. */
  datatype Parsed = Valid(hint: Hint) | Invalid(name: string, value: Json, error: string)

  function Valids(hints: seq<Hint>): seq<Parsed> {
    seq(|hints|, i requires 0 <= i < |hints| => Valid(hints[i]))
  }

  function ParseKey(render: Json -> string, k: string, v: Json, visit: map<string, Json> -> seq<string>): seq<Parsed>
    requires IsVisit(visit)
  {
    match KeyOf(ToLower(k))
    case None => [Invalid(k, v, "Invalid hint name")]
    case Some(key) =>
      match ReadHints(render, key, v, visit)
      case Fault(e) => [Invalid(k, v, e)]
      case Ok(hints) => Valids(hints)
  }

  function Parse(render: Json -> string, m: map<string, Json>, order: seq<string>, visit: map<string, Json> -> seq<string>): seq<Parsed>
    requires IsVisit(visit) && forall k :: k in order ==> k in m
  {
    if order == [] then []
    else
      var last := order[|order| - 1];
      Parse(render, m, order[..|order| - 1], visit) + ParseKey(render, last, m[last], visit)
  }

  /** `ParseObjectHints`, before the hints are sorted for display. */
  method ParseObjectHints(render: Json -> string, m: map<string, Json>, order: seq<string>, visit: map<string, Json> -> seq<string>)
    returns (hints: seq<Parsed>)
    requires IsVisit(visit) && forall k :: k in order ==> k in m
    ensures hints == Parse(render, m, order, visit)
  {
    hints := [];
    for i := 0 to |order|
      invariant hints == Parse(render, m, order[..i], visit)
    {
      hide ParseKey;
      assert order[..i + 1][..i] == order[..i];
      hints := hints + ParseKey(render, order[i], m[order[i]], visit);
    }
    assert order[..|order|] == order;
  }

  lemma {:induction false} GroupReadsBack(render: Json -> string, key: Key, hints: seq<Hint>, visit: map<string, Json> -> seq<string>)
    requires IsVisit(visit) && hints != []
    requires forall h :: h in hints ==> h.key == key && WellFormed(h)
    ensures ReadHints(render, key, Grouped(hints), visit) == Ok(hints)
  {
    hide ReadHint, WellFormed, Format;
    if |hints| == 1 {
      WellFormedReadsBack(render, hints[0], visit(Format(hints[0])));
      assert hints == [hints[0]];
    } else {
      ItemsReadBack(render, key, hints, |hints|, visit);
      assert hints[..|hints|] == hints;
    }
  }

  lemma {:induction false} ItemsReadBack(render: Json -> string, key: Key, hints: seq<Hint>, n: nat, visit: map<string, Json> -> seq<string>)
    requires IsVisit(visit) && n <= |hints|
    requires forall h :: h in hints ==> h.key == key && WellFormed(h)
    ensures ReadItems(render, key, JArray(Objects(hints)), n, visit) == Ok(hints[..n])
  {
    hide ReadHint, ReadHints, ReadItems, WellFormed, Format, IsVisit;
    var v := JArray(Objects(hints));
    if n == 0 {
      NoItems(render, key, v, visit);
    } else {
      ItemsReadBack(render, key, hints, n - 1, visit);
      var h := hints[n - 1];
      VisitEnumerates(visit, Format(h));
      WellFormedReadsBack(render, h, visit(Format(h)));
      ReadObject(render, key, Format(h), visit);
      OneMoreItem(render, key, v, n, visit, hints[..n - 1], [h]);
      assert hints[..n] == hints[..n - 1] + [h];
    }
  }

  lemma {:induction false} VisitEnumerates(visit: map<string, Json> -> seq<string>, m: map<string, Json>)
    requires IsVisit(visit)
    ensures Enumerates(visit(m), m)
  {
  }

  lemma {:induction false} NoItems(render: Json -> string, key: Key, v: Json, visit: map<string, Json> -> seq<string>)
    requires IsVisit(visit) && v.JArray?
    ensures ReadItems(render, key, v, 0, visit) == Ok([])
  {
  }

  lemma {:induction false} OneMoreItem(render: Json -> string, key: Key, v: Json, n: nat, visit: map<string, Json> -> seq<string>,
                                       before: seq<Hint>, more: seq<Hint>)
    requires IsVisit(visit) && v.JArray? && 0 < n <= |v.items|
    requires ReadItems(render, key, v, n - 1, visit) == Ok(before) && ReadHints(render, key, v.items[n - 1], visit) == Ok(more)
    ensures ReadItems(render, key, v, n, visit) == Ok(before + more)
  {
  }

  lemma {:induction false} ReadObject(render: Json -> string, key: Key, m: map<string, Json>, visit: map<string, Json> -> seq<string>)
    requires IsVisit(visit)
    ensures forall k :: k in visit(m) ==> k in m
    ensures ReadHint(render, key, m, visit(m)).Ok? ==> ReadHints(render, key, JObject(m), visit) == Ok([ReadHint(render, key, m, visit(m)).value])
  {
    hide ReadHint;
    EnumeratedKeys(visit(m), m);
  }

  lemma {:induction false} WithKeyIsPart(hints: seq<Hint>, key: Key)
    ensures forall h :: h in WithKey(hints, key) ==> h in hints && h.key == key
    ensures forall h: Hint :: h.key == key ==> multiset(WithKey(hints, key))[h] == multiset(hints)[h]
  {
    if hints != [] {
      WithKeyIsPart(hints[..|hints| - 1], key);
      assert hints == hints[..|hints| - 1] + [hints[|hints| - 1]];
    }
  }

  /** The groups of the named keys, one after the other. */
  function Groups(hints: seq<Hint>, order: seq<string>): seq<Hint> {
    if order == [] then []
    else
      Groups(hints, order[..|order| - 1])
      + match KeyOf(ToLower(order[|order| - 1])) case None => [] case Some(key) => WithKey(hints, key)
  }

  lemma {:induction false} ParseReadsGroups(render: Json -> string, hints: seq<Hint>, order: seq<string>, visit: map<string, Json> -> seq<string>)
    requires IsVisit(visit) && forall k :: k in order ==> k in Print(hints)
    requires forall h :: h in hints ==> WellFormed(h)
    ensures Parse(render, Print(hints), order, visit) == Valids(Groups(hints, order))
  {
    hide ReadHints, WellFormed, KeyName, KeyOf, ToLower, Print, WithKey, Grouped;
    if order != [] {
      var init, last := order[..|order| - 1], order[|order| - 1];
      assert last in order && forall k :: k in init ==> k in order;
      ParseReadsGroups(render, hints, init, visit);
      PrintedKeys(hints, last);
      var key :| last == KeyName(key);
      KeyNamesReadBack(key);
      PrintGroups(hints, key);
      WithKeyIsPart(hints, key);
      GroupReadsBack(render, key, WithKey(hints, key), visit);
      assert Valids(Groups(hints, init) + WithKey(hints, key)) == Valids(Groups(hints, init)) + Valids(WithKey(hints, key));
    }
  }

  lemma {:induction false} GroupsCount(hints: seq<Hint>, order: seq<string>, h: Hint)
    requires forall k :: k in order ==> exists key :: k == KeyName(key)
    requires multiset(order)[KeyName(h.key)] <= 1
    ensures multiset(Groups(hints, order))[h] == if KeyName(h.key) in order then multiset(hints)[h] else 0
  {
    hide KeyName, KeyOf, ToLower, WithKey;
    if order != [] {
      var init, last := order[..|order| - 1], order[|order| - 1];
      assert order == init + [last];
      assert last in order && forall k :: k in init ==> k in order;
      GroupsCount(hints, init, h);
      var key :| last == KeyName(key);
      KeyNamesReadBack(key);
      KeyNamesAreDistinct(key, h.key);
      WithKeyIsPart(hints, key);
      assert key != h.key ==> h !in WithKey(hints, key);
    }
  }

  lemma {:induction false} GroupsArePermutation(hints: seq<Hint>, order: seq<string>)
    requires Enumerates(order, Print(hints))
    ensures multiset(Groups(hints, order)) == multiset(hints)
  {
    hide KeyName, Print, WithKey, Groups;
    EnumeratedKeys(order, Print(hints));
    forall k | k in order ensures exists key :: k == KeyName(key) {
      PrintedKeys(hints, k);
    }
    forall h ensures multiset(Groups(hints, order))[h] == multiset(hints)[h] {
      GroupsCount(hints, order, h);
      PrintGroups(hints, h.key);
      WithKeyIsPart(hints, h.key);
      assert multiset(WithKey(hints, h.key))[h] == multiset(hints)[h];
    }
  }

  lemma {:induction false} ValidsCount(hints: seq<Hint>, p: Parsed)
    ensures multiset(Valids(hints))[p] == if p.Valid? then multiset(hints)[p.hint] else 0
  {
    if hints != [] {
      var init, last := hints[..|hints| - 1], hints[|hints| - 1];
      ValidsCount(init, p);
      assert hints == init + [last] && Valids(hints) == Valids(init) + [Valid(last)];
    }
  }

  lemma {:induction false} ValidsIgnoreOrder(hints: seq<Hint>, others: seq<Hint>)
    requires multiset(hints) == multiset(others)
    ensures multiset(Valids(hints)) == multiset(Valids(others))
  {
    forall p ensures multiset(Valids(hints))[p] == multiset(Valids(others))[p] {
      ValidsCount(hints, p);
      ValidsCount(others, p);
    }
  }

  lemma {:induction false} HintsReadAreWellFormed(render: Json -> string, key: Key, v: Json, visit: map<string, Json> -> seq<string>)
    requires IsVisit(visit)
    ensures
      var r := ReadHints(render, key, v, visit);
      r.Ok? ==> forall h :: h in r.value ==> WellFormed(h)
    decreases v, 0
  {
    hide ReadHint, WellFormed;
    match v
    case JArray(items) => ItemsReadAreWellFormed(render, key, v, |items|, visit);
    case JObject(m) =>
      EnumeratedKeys(visit(m), m);
      HintReadIsWellFormed(render, key, m, visit(m));
    case _ =>
  }

  lemma {:induction false} ItemsReadAreWellFormed(render: Json -> string, key: Key, v: Json, n: nat, visit: map<string, Json> -> seq<string>)
    requires IsVisit(visit) && v.JArray? && n <= |v.items|
    ensures
      var r := ReadItems(render, key, v, n, visit);
      r.Ok? ==> forall h :: h in r.value ==> WellFormed(h)
    decreases v, 0, n
  {
    hide WellFormed;
    if n > 0 {
      ItemsReadAreWellFormed(render, key, v, n - 1, visit);
      HintsReadAreWellFormed(render, key, v.items[n - 1], visit);
    }
  }

  lemma {:induction false} ParsedAreWellFormed(render: Json -> string, m: map<string, Json>, order: seq<string>, visit: map<string, Json> -> seq<string>)
    requires IsVisit(visit) && forall k :: k in order ==> k in m
    ensures forall p :: p in Parse(render, m, order, visit) && p.Valid? ==> WellFormed(p.hint)
  {
    hide ReadHints, WellFormed, KeyOf, ToLower;
    if order != [] {
      var last := order[|order| - 1];
      assert last in order && forall k :: k in order[..|order| - 1] ==> k in order;
      ParsedAreWellFormed(render, m, order[..|order| - 1], visit);
      if KeyOf(ToLower(last)).Some? {
        HintsReadAreWellFormed(render, KeyOf(ToLower(last)).value, m[last], visit);
      }
    }
  }

  /** Reading the printed object gives back the hints, up to their order, exactly when every hint is well formed. */
  lemma {:induction false} RoundTripExactly(render: Json -> string, hints: seq<Hint>, order: seq<string>, visit: map<string, Json> -> seq<string>)
    requires IsVisit(visit) && Enumerates(order, Print(hints))
    ensures forall k :: k in order ==> k in Print(hints)
    ensures multiset(Parse(render, Print(hints), order, visit)) == multiset(Valids(hints)) <==> forall h :: h in hints ==> WellFormed(h)
  {
    hide WellFormed, Print, Parse;
    EnumeratedKeys(order, Print(hints));
    var parsed := Parse(render, Print(hints), order, visit);
    if multiset(parsed) == multiset(Valids(hints)) {
      ParsedAreWellFormed(render, Print(hints), order, visit);
      forall h | h in hints ensures WellFormed(h) {
        var i :| 0 <= i < |hints| && hints[i] == h;
        assert Valids(hints)[i] in multiset(Valids(hints));
        assert Valid(h) in parsed;
      }
    }
    if forall h :: h in hints ==> WellFormed(h) {
      ParseReadsGroups(render, hints, order, visit);
      GroupsArePermutation(hints, order);
      ValidsIgnoreOrder(Groups(hints, order), hints);
    }
  }
}
