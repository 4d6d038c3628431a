/**
 When the hint that is read from a JSON object, and not only whether it is valid, is the same in whatever order
 Go visits the fields (algebra/hints.go:1966-2300).
 */
module HintOrder {
  import opened Wrappers
  import opened Sorting
  import opened Sums
  import opened Hints

  predicate IsIndexes(key: Key, k: string) {
    !IsNaming(k) && key.OnIndexes() && ToLower(k) == "indexes"
  }

  predicate IsOption(key: Key, k: string) {
    !IsNaming(k) && key.OnHash() && ToLower(k) == "option"
  }

  /** The index names that a field adds. */
  function NamesIn(render: Json -> string, key: Key, k: string, v: Json): seq<string> {
    if IsIndexes(key, k) && IndexNames(render, v).Ok? then IndexNames(render, v).value else []
  }

  /** The option that a field sets. */
  function OptionIn(render: Json -> string, key: Key, k: string, v: Json): HashOption {
    if IsOption(key, k) && OptionOf(ToLower(Text(render, v))).Some? then OptionOf(ToLower(Text(render, v))).value else NoOption
  }

  /** Two fields that may be visited in either order: their index names commute, and they do not set different options. */
  predicate Compatible(render: Json -> string, key: Key, m: map<string, Json>, k: string, l: string)
    requires k in m && l in m
  {
    var a, b := NamesIn(render, key, k, m[k]), NamesIn(render, key, l, m[l]);
    var o, p := OptionIn(render, key, k, m[k]), OptionIn(render, key, l, m[l]);
    a + b == b + a && (o == NoOption || p == NoOption || o == p)
  }

  /** What a field does, if it is read without error. */
  lemma {:induction false} ReadFieldDoes(render: Json -> string, key: Key, f: Fields, k: string, v: Json)
    ensures
      var r := ReadField(render, key, f, k, v);
      r.Ok? ==>
        && r.value.keyspace == (if IsNaming(k) then Text(render, v) else f.keyspace)
        && r.value.indexes == f.indexes + NamesIn(render, key, k, v)
        && r.value.option == (if OptionIn(render, key, k, v) == NoOption then f.option else OptionIn(render, key, k, v))
        && (IsNaming(k) ==> f.keyspace == "" && Text(render, v) != "")
  {
    hide ToLower, IndexNames, OptionOf;
  }

  /** Whether a field is read without error depends on the fields before it only through a second keyspace. */
  lemma {:induction false} ReadFieldStillWorks(render: Json -> string, key: Key, f: Fields, g: Fields, k: string, v: Json)
    requires ReadField(render, key, f, k, v).Ok? && (IsNaming(k) ==> g.keyspace == "")
    ensures ReadField(render, key, g, k, v).Ok?
  {
    hide ToLower, IndexNames, OptionOf;
  }

  lemma {:induction false} FirstField(render: Json -> string, key: Key, f: Fields, m: map<string, Json>, k: string, rest: seq<string>)
    requires k in m && forall x :: x in rest ==> x in m
    ensures
      var r := ReadField(render, key, f, k, m[k]);
      ReadFields(render, key, f, m, [k] + rest) == match r case Fault(e) => Fault(e) case Ok(f') => ReadFields(render, key, f', m, rest)
  {
    hide ReadField;
    assert ([k] + rest)[1..] == rest;
  }

  /** Two compatible fields at the front can be swapped. */
  lemma {:induction false} SwapFirst(render: Json -> string, key: Key, f: Fields, m: map<string, Json>, k: string, l: string, rest: seq<string>)
    requires k in m && l in m && (forall x :: x in rest ==> x in m) && Compatible(render, key, m, k, l)
    requires ReadFields(render, key, f, m, [k, l] + rest).Ok?
    ensures ReadFields(render, key, f, m, [l, k] + rest) == ReadFields(render, key, f, m, [k, l] + rest)
  {
    hide ReadField, ReadFields, NamesIn, OptionIn, IsNaming;
    assert [k, l] + rest == [k] + ([l] + rest) && [l, k] + rest == [l] + ([k] + rest);
    FirstField(render, key, f, m, k, [l] + rest);
    var g := ReadField(render, key, f, k, m[k]).value;
    FirstField(render, key, g, m, l, rest);
    ReadFieldDoes(render, key, f, k, m[k]);
    ReadFieldDoes(render, key, g, l, m[l]);
    ReadFieldStillWorks(render, key, g, f, l, m[l]);
    FirstField(render, key, f, m, l, [k] + rest);
    var h := ReadField(render, key, f, l, m[l]).value;
    ReadFieldDoes(render, key, f, l, m[l]);
    ReadFieldStillWorks(render, key, f, h, k, m[k]);
    FirstField(render, key, h, m, k, rest);
    ReadFieldDoes(render, key, h, k, m[k]);
    Regrouped(f.indexes, NamesIn(render, key, k, m[k]), NamesIn(render, key, l, m[l]));
  }

  lemma {:induction false} Regrouped(a: seq<string>, b: seq<string>, c: seq<string>)
    ensures b + c == c + b ==> a + b + c == a + c + b
    ensures a + b + c == a + c + b ==> b + c == c + b
  {
    assert a + b + c == a + (b + c) && a + c + b == a + (c + b);
    assert (a + (b + c))[|a|..] == b + c && (a + (c + b))[|a|..] == c + b;
  }

  ghost predicate AllCompatible(render: Json -> string, key: Key, m: map<string, Json>) {
    forall k, l :: k in m && l in m && k != l ==> Compatible(render, key, m, k, l)
  }

  /** A field can be visited before those that come before it. */
  lemma {:induction false} MoveToFront(render: Json -> string, key: Key, f: Fields, m: map<string, Json>, ks: seq<string>, j: nat)
    requires (forall x :: x in ks ==> x in m) && j < |ks| && AllCompatible(render, key, m) && ks[j] !in ks[..j]
    requires ReadFields(render, key, f, m, ks).Ok?
    ensures ReadFields(render, key, f, m, [ks[j]] + Without(ks, j)) == ReadFields(render, key, f, m, ks)
    decreases j
  {
    hide ReadField, ReadFields, Compatible;
    var x := ks[j];
    if j == 0 {
      assert [x] + Without(ks, 0) == ks;
    } else {
      var y, tail := ks[0], ks[1..];
      var rest := Without(tail, j - 1);
      assert ks == [y] + tail && tail[j - 1] == x && x !in tail[..j - 1];
      assert [x] + Without(ks, j) == [x, y] + rest && [y, x] + rest == [y] + ([x] + rest);
      FirstField(render, key, f, m, y, tail);
      MoveToFront(render, key, ReadField(render, key, f, y, m[y]).value, m, tail, j - 1);
      FirstField(render, key, f, m, y, [x] + rest);
      assert x != y;
      SwapFirst(render, key, f, m, y, x, rest);
    }
  }

  ghost predicate NoRepeats(ks: seq<string>) {
    forall k :: multiset(ks)[k] <= 1
  }

  lemma {:induction false} FirstOccurrence(ks: seq<string>, j: nat)
    requires NoRepeats(ks) && j < |ks|
    ensures ks[j] !in ks[..j] && NoRepeats(Without(ks, j))
  {
    var k := ks[j];
    RemoveOne(ks, j);
    assert multiset(ks)[k] <= 1;
    assert ks == ks[..j] + [k] + ks[j + 1..];
    assert multiset(ks)[k] == multiset(ks[..j])[k] + 1 + multiset(ks[j + 1..])[k];
    assert k !in multiset(ks[..j]);
    forall l ensures multiset(Without(ks, j))[l] <= 1 {
      assert multiset(ks)[l] <= 1;
    }
  }

  /** Compatible fields are read alike in every order. */
  lemma {:induction false} FieldsIgnoreOrder(render: Json -> string, key: Key, f: Fields, m: map<string, Json>, order: seq<string>, other: seq<string>)
    requires (forall x :: x in order ==> x in m) && (forall x :: x in other ==> x in m) && multiset(order) == multiset(other)
    requires NoRepeats(order) && AllCompatible(render, key, m)
    requires ReadFields(render, key, f, m, order).Ok? && ReadFields(render, key, f, m, other).Ok?
    ensures ReadFields(render, key, f, m, order) == ReadFields(render, key, f, m, other)
    decreases |order|
  {
    hide ReadField, ReadFields, AllCompatible, NoRepeats;
    if order == [] {
      assert |multiset(other)| == |other|;
    } else {
      var x := order[0];
      var j := Matching(order, other);
      MoveToFront(render, key, f, m, other, j);
      FirstField(render, key, f, m, x, Without(order, 0));
      FirstField(render, key, f, m, x, Without(other, j));
      FieldsIgnoreOrder(render, key, ReadField(render, key, f, x, m[x]).value, m, Without(order, 0), Without(other, j));
    }
  }

  lemma {:induction false} Matching(order: seq<string>, other: seq<string>) returns (j: nat)
    requires order != [] && multiset(order) == multiset(other) && NoRepeats(order)
    ensures j < |other| && other[j] == order[0] && other[j] !in other[..j] && order == [order[0]] + Without(order, 0)
    ensures multiset(Without(order, 0)) == multiset(Without(other, j)) && NoRepeats(Without(order, 0))
    ensures (forall x :: x in Without(order, 0) ==> x in order) && (forall x :: x in Without(other, j) ==> x in other)
  {
    hide NoRepeats;
    assert order[0] in multiset(other);
    j :| 0 <= j < |other| && other[j] == order[0];
    RemoveOne(order, 0);
    RemoveOne(other, j);
    SameRepeats(order, other);
    FirstOccurrence(order, 0);
    FirstOccurrence(other, j);
  }

  lemma {:induction false} SameRepeats(order: seq<string>, other: seq<string>)
    requires multiset(order) == multiset(other) && NoRepeats(order)
    ensures NoRepeats(other)
  {
  }

  lemma {:induction false} EnumerationHasNoRepeats(order: seq<string>, m: map<string, Json>)
    requires Enumerates(order, m)
    ensures NoRepeats(order)
  {
  }

  // ---- Fields that are not compatible

  lemma {:induction false} ReadInParts(render: Json -> string, key: Key, f: Fields, m: map<string, Json>, ks: seq<string>, ls: seq<string>)
    requires (forall x :: x in ks ==> x in m) && (forall x :: x in ls ==> x in m)
    ensures ReadFields(render, key, f, m, ks + ls) ==
      match ReadFields(render, key, f, m, ks) case Fault(e) => Fault(e) case Ok(g) => ReadFields(render, key, g, m, ls)
    decreases |ks|
  {
    hide ReadField;
    if ks == [] {
      assert ks + ls == ls;
    } else {
      assert (ks + ls)[0] == ks[0] && (ks + ls)[1..] == ks[1..] + ls;
      var r := ReadField(render, key, f, ks[0], m[ks[0]]);
      if r.Ok? {
        ReadInParts(render, key, r.value, m, ks[1..], ls);
      }
    }
  }

  /** The fields that follow only append index names. */
  lemma {:induction false} IndexesGrow(render: Json -> string, key: Key, f: Fields, m: map<string, Json>, ks: seq<string>)
    requires forall x :: x in ks ==> x in m
    ensures var r := ReadFields(render, key, f, m, ks); r.Ok? ==> f.indexes <= r.value.indexes
    decreases |ks|
  {
    hide ReadField, NamesIn, OptionIn;
    if ks != [] {
      var r := ReadField(render, key, f, ks[0], m[ks[0]]);
      ReadFieldDoes(render, key, f, ks[0], m[ks[0]]);
      if r.Ok? {
        IndexesGrow(render, key, r.value, m, ks[1..]);
      }
    }
  }

  /** What two fields do, one after the other. */
  lemma {:induction false} TwoFieldsDo(render: Json -> string, key: Key, f: Fields, m: map<string, Json>, k: string, l: string)
    requires k in m && l in m && ReadFields(render, key, f, m, [k, l]).Ok?
    ensures
      var r := ReadFields(render, key, f, m, [k, l]).value;
      && r.indexes == f.indexes + NamesIn(render, key, k, m[k]) + NamesIn(render, key, l, m[l])
      && (OptionIn(render, key, l, m[l]) != NoOption ==> r.option == OptionIn(render, key, l, m[l]))
  {
    hide ReadField, ReadFields, NamesIn, OptionIn;
    assert [k, l] == [k] + [l] && [l] == [l] + [];
    FirstField(render, key, f, m, k, [l]);
    var g := ReadField(render, key, f, k, m[k]).value;
    FirstField(render, key, g, m, l, []);
    ReadFieldDoes(render, key, f, k, m[k]);
    ReadFieldDoes(render, key, g, l, m[l]);
    NothingRead(render, key, ReadField(render, key, g, l, m[l]), m);
  }

  lemma {:induction false} NothingRead(render: Json -> string, key: Key, r: Outcome<Fields>, m: map<string, Json>)
    ensures r.Ok? ==> ReadFields(render, key, r.value, m, []) == r
  {
  }

  /** Index names that do not commute, visited first. */
  lemma {:induction false} NamesTell(render: Json -> string, key: Key, m: map<string, Json>, k: string, l: string, rest: seq<string>)
    requires k in m && l in m && forall x :: x in rest ==> x in m
    requires NamesIn(render, key, k, m[k]) + NamesIn(render, key, l, m[l]) != NamesIn(render, key, l, m[l]) + NamesIn(render, key, k, m[k])
    requires ReadFields(render, key, NOTHING, m, [k, l] + rest).Ok? && ReadFields(render, key, NOTHING, m, [l, k] + rest).Ok?
    ensures ReadFields(render, key, NOTHING, m, [k, l] + rest).value.indexes != ReadFields(render, key, NOTHING, m, [l, k] + rest).value.indexes
  {
    hide ReadFields, NamesIn, OptionIn;
    ReadInParts(render, key, NOTHING, m, [k, l], rest);
    ReadInParts(render, key, NOTHING, m, [l, k], rest);
    var f, g := ReadFields(render, key, NOTHING, m, [k, l]).value, ReadFields(render, key, NOTHING, m, [l, k]).value;
    TwoFieldsDo(render, key, NOTHING, m, k, l);
    TwoFieldsDo(render, key, NOTHING, m, l, k);
    Regrouped([], NamesIn(render, key, k, m[k]), NamesIn(render, key, l, m[l]));
    IndexesGrow(render, key, f, m, rest);
    IndexesGrow(render, key, g, m, rest);
    assert |f.indexes| == |g.indexes| && f.indexes != g.indexes;
    var a, b := ReadFields(render, key, f, m, rest).value.indexes, ReadFields(render, key, g, m, rest).value.indexes;
    assert a[..|f.indexes|] == f.indexes && b[..|f.indexes|] == g.indexes;
  }

  /** Different options, visited last. */
  lemma {:induction false} OptionsTell(render: Json -> string, key: Key, m: map<string, Json>, k: string, l: string, rest: seq<string>)
    requires k in m && l in m && forall x :: x in rest ==> x in m
    requires OptionIn(render, key, k, m[k]) != NoOption && OptionIn(render, key, l, m[l]) != NoOption
    requires OptionIn(render, key, k, m[k]) != OptionIn(render, key, l, m[l])
    requires ReadFields(render, key, NOTHING, m, rest + [k, l]).Ok? && ReadFields(render, key, NOTHING, m, rest + [l, k]).Ok?
    ensures ReadFields(render, key, NOTHING, m, rest + [k, l]).value.option != ReadFields(render, key, NOTHING, m, rest + [l, k]).value.option
  {
    hide ReadFields, NamesIn, OptionIn;
    ReadInParts(render, key, NOTHING, m, rest, [k, l]);
    ReadInParts(render, key, NOTHING, m, rest, [l, k]);
    var f := ReadFields(render, key, NOTHING, m, rest).value;
    TwoFieldsDo(render, key, f, m, k, l);
    TwoFieldsDo(render, key, f, m, l, k);
  }

  // ---- The hint

  ghost function HintIn(render: Json -> string, key: Key, m: map<string, Json>, order: seq<string>): Outcome<Hint>
    requires Enumerates(order, m)
  {
    EnumeratedKeys(order, m);
    ReadHint(render, key, m, order)
  }

  ghost predicate SameInEveryOrder(render: Json -> string, key: Key, m: map<string, Json>) {
    forall order, other :: Enumerates(order, m) && Enumerates(other, m) ==> HintIn(render, key, m, order) == HintIn(render, key, m, other)
  }

  lemma {:induction false} HintTellsFields(render: Json -> string, key: Key, m: map<string, Json>, order: seq<string>)
    requires forall k :: k in order ==> k in m
    requires ReadHint(render, key, m, order).Ok?
    ensures
      var r := ReadFields(render, key, NOTHING, m, order);
      r.Ok? && ReadHint(render, key, m, order).value == Hint(key, r.value.keyspace, r.value.indexes, r.value.option)
  {
    hide ReadFields;
  }

  lemma {:induction false} AroundTwo(m: map<string, Json>, k: string, l: string, rest: seq<string>)
    requires k in m && l in m && k != l && multiset(rest) == multiset(m.Keys - {k, l})
    ensures Enumerates([k, l] + rest, m) && Enumerates(rest + [k, l], m)
  {
    assert m.Keys == (m.Keys - {k, l}) + {k, l};
    assert multiset(m.Keys) == multiset(m.Keys - {k, l}) + multiset{k, l};
  }

  lemma {:induction false} IncompatibleTells(render: Json -> string, key: Key, m: map<string, Json>, k: string, l: string, valid: seq<string>)
    requires k in m && l in m && k != l && !Compatible(render, key, m, k, l)
    requires Enumerates(valid, m) && HintIn(render, key, m, valid).Ok?
    ensures !SameInEveryOrder(render, key, m)
  {
    hide ReadHint, ReadFields, NamesIn, OptionIn;
    var rest := Listed(m.Keys - {k, l});
    AroundTwo(m, k, l, rest);
    assert {k, l} == {l, k};
    AroundTwo(m, l, k, rest);
    ListedHasAll(m.Keys - {k, l});
    var (a, b) := if NamesIn(render, key, k, m[k]) + NamesIn(render, key, l, m[l]) != NamesIn(render, key, l, m[l]) + NamesIn(render, key, k, m[k])
      then ([k, l] + rest, [l, k] + rest) else (rest + [k, l], rest + [l, k]);
    ObjectValidityIgnoresOrder(render, key, m, valid, a);
    ObjectValidityIgnoresOrder(render, key, m, valid, b);
    HintTellsFields(render, key, m, a);
    HintTellsFields(render, key, m, b);
    if NamesIn(render, key, k, m[k]) + NamesIn(render, key, l, m[l]) != NamesIn(render, key, l, m[l]) + NamesIn(render, key, k, m[k]) {
      NamesTell(render, key, m, k, l, rest);
    } else {
      OptionsTell(render, key, m, k, l, rest);
    }
    assert HintIn(render, key, m, a) != HintIn(render, key, m, b);
  }

  /** A valid object gives the same hint in every order of its fields if and only if its fields are compatible. */
  lemma {:induction false} HintIgnoresOrderExactly(render: Json -> string, key: Key, m: map<string, Json>, valid: seq<string>)
    requires Enumerates(valid, m) && HintIn(render, key, m, valid).Ok?
    ensures SameInEveryOrder(render, key, m) <==> AllCompatible(render, key, m)
  {
    hide ReadHint, ReadFields, Compatible;
    if !AllCompatible(render, key, m) {
      var k, l :| k in m && l in m && k != l && !Compatible(render, key, m, k, l);
      IncompatibleTells(render, key, m, k, l, valid);
    } else {
      forall order, other | Enumerates(order, m) && Enumerates(other, m)
        ensures HintIn(render, key, m, order) == HintIn(render, key, m, other)
      {
        ObjectValidityIgnoresOrder(render, key, m, valid, order);
        ObjectValidityIgnoresOrder(render, key, m, valid, other);
        HintTellsFields(render, key, m, order);
        HintTellsFields(render, key, m, other);
        EnumerationHasNoRepeats(order, m);
        FieldsIgnoreOrder(render, key, NOTHING, m, order, other);
      }
    }
  }

  /** A USE_HASH hint with the fields option and OPTION builds or probes by the order of the visit. */
  lemma {:induction false} TwoOptionsTell(render: Json -> string, keyspace: string)
    requires keyspace != "" && '/' !in keyspace
    ensures
      var m := map["keyspace" := JString(keyspace), "option" := JString("BUILD"), "OPTION" := JString("PROBE")];
      && ReadHint(render, UseHash, m, ["keyspace", "option", "OPTION"]) == Ok(Hint(UseHash, keyspace, [], Probe))
      && ReadHint(render, UseHash, m, ["keyspace", "OPTION", "option"]) == Ok(Hint(UseHash, keyspace, [], Build))
  {
    var m := map["keyspace" := JString(keyspace), "option" := JString("BUILD"), "OPTION" := JString("PROBE")];
    var f := NOTHING.(keyspace := keyspace);
    FieldNamesReadBack();
    assert ToLower("OPTION") == "option";
    assert "option"[0] == 'o' && "OPTION"[0] == 'O' && "keyspace"[0] == 'k' && "alias"[0] == 'a';
    hide ToLower;
    assert ReadField(render, UseHash, NOTHING, "keyspace", m["keyspace"]) == Ok(f);
    forall g: Fields
      ensures ReadField(render, UseHash, g, "option", m["option"]) == Ok(g.(option := Build))
      ensures ReadField(render, UseHash, g, "OPTION", m["OPTION"]) == Ok(g.(option := Probe))
    {
    }
    hide ReadField, ReadFields;
    ReadThree(render, m, f, "option", "OPTION", Build, Probe);
    ReadThree(render, m, f, "OPTION", "option", Probe, Build);
  }

  lemma {:induction false} ReadThree(render: Json -> string, m: map<string, Json>, f: Fields, k: string, l: string, o: HashOption, p: HashOption)
    requires "keyspace" in m && k in m && l in m
    requires ReadField(render, UseHash, NOTHING, "keyspace", m["keyspace"]) == Ok(f)
    requires forall g: Fields :: ReadField(render, UseHash, g, k, m[k]) == Ok(g.(option := o))
    requires forall g: Fields :: ReadField(render, UseHash, g, l, m[l]) == Ok(g.(option := p))
    ensures ReadFields(render, UseHash, NOTHING, m, ["keyspace", k, l]) == Ok(f.(option := p))
  {
    hide ReadField, ReadFields;
    assert ["keyspace", k, l] == ["keyspace"] + [k, l] && [k, l] == [k] + [l] && [l] == [l] + [];
    FirstField(render, UseHash, NOTHING, m, "keyspace", [k, l]);
    FirstField(render, UseHash, f, m, k, [l]);
    FirstField(render, UseHash, f.(option := o), m, l, []);
    NothingRead(render, UseHash, Ok(f.(option := p)), m);
  }
}
