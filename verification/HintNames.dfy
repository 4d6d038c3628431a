/**
 The names in hint objects (algebra/hints.go): what each name stands for, written out, and which names are interchangeable.
 */
module HintNames {
  import opened Wrappers
  import opened Hints
  import opened HintPrinting

  // ---- The names of hints

  lemma {:induction false} IndexHintNames()
    ensures KeyOf("index") == Some(Index) && KeyOf("index_fts") == Some(IndexFts)
    ensures KeyOf("no_index") == Some(NoIndex) && KeyOf("avoid_index") == Some(AvoidIndex)
    ensures KeyOf("no_index_fts") == Some(NoIndexFts) && KeyOf("avoid_index_fts") == Some(AvoidIndexFts)
    ensures KeyOf("index_all") == Some(IndexAll) && KeyOf("index_combine") == Some(IndexAll)
  {
    assert KeyName(Index) == "index" && KeyName(IndexFts) == "index_fts" && KeyName(NoIndex) == "no_index";
    assert KeyName(AvoidIndex) == "avoid_index" && KeyName(NoIndexFts) == "no_index_fts";
    assert KeyName(AvoidIndexFts) == "avoid_index_fts" && KeyName(IndexAll) == "index_all";
  }

  lemma {:induction false} JoinHintNames()
    ensures KeyOf("use_nl") == Some(UseNl) && KeyOf("no_use_nl") == Some(NoUseNl) && KeyOf("avoid_nl") == Some(AvoidNl)
    ensures KeyOf("use_hash") == Some(UseHash) && KeyOf("no_use_hash") == Some(NoUseHash) && KeyOf("avoid_hash") == Some(AvoidHash)
  {
    assert KeyName(UseNl) == "use_nl" && KeyName(NoUseNl) == "no_use_nl" && KeyName(AvoidNl) == "avoid_nl";
    assert KeyName(UseHash) == "use_hash" && KeyName(NoUseHash) == "no_use_hash" && KeyName(AvoidHash) == "avoid_hash";
  }

  lemma {:induction false} FilterHintNames()
    ensures KeyOf("join_filter") == Some(JoinFilter) && KeyOf("px_join_filter") == Some(JoinFilter)
    ensures KeyOf("no_join_filter") == Some(NoJoinFilter) && KeyOf("no_px_join_filter") == Some(NoJoinFilter)
    ensures KeyOf("avoid_join_filter") == Some(AvoidJoinFilter)
  {
    assert KeyName(JoinFilter) == "join_filter" && KeyName(NoJoinFilter) == "no_join_filter";
    assert KeyName(AvoidJoinFilter) == "avoid_join_filter";
  }

  /** The same hints, or the same error but for the name that it shows. */
  predicate ReadAlike(a: seq<Parsed>, b: seq<Parsed>) {
    a == b || (|a| == |b| == 1 && a[0].Invalid? && b[0].Invalid? && a[0].value == b[0].value && a[0].error == b[0].error)
  }

  /** `index_combine`, `px_join_filter` and `no_px_join_filter` read as their other names. */
  lemma {:induction false} OtherNames(render: Json -> string, v: Json, visit: map<string, Json> -> seq<string>)
    requires IsVisit(visit)
    ensures ReadAlike(ParseKey(render, "index_combine", v, visit), ParseKey(render, "index_all", v, visit))
    ensures ReadAlike(ParseKey(render, "px_join_filter", v, visit), ParseKey(render, "join_filter", v, visit))
    ensures ReadAlike(ParseKey(render, "no_px_join_filter", v, visit), ParseKey(render, "no_join_filter", v, visit))
  {
    hide KeyOf, ToLower, ReadHints;
    LowerStays("index_combine");
    LowerStays("index_all");
    LowerStays("px_join_filter");
    LowerStays("join_filter");
    LowerStays("no_px_join_filter");
    LowerStays("no_join_filter");
    IndexHintNames();
    FilterHintNames();
  }

  // ---- The names of fields

  function WithAlias(k: string): string {
    if k == "keyspace" then "alias" else k
  }

  lemma {:induction false} AliasField(render: Json -> string, key: Key, f: Fields, k: string, v: Json)
    ensures ReadField(render, key, f, WithAlias(k), v) == ReadField(render, key, f, k, v)
  {
    hide ToLower, Text, IndexNames, OptionOf;
    LowerStays("keyspace");
    LowerStays("alias");
  }

  lemma {:induction false} AliasFields(render: Json -> string, key: Key, f: Fields, m: map<string, Json>, order: seq<string>,
                                       m': map<string, Json>, order': seq<string>)
    requires |order| == |order'| && (forall k :: k in order ==> k in m) && (forall k :: k in order' ==> k in m')
    requires forall i :: 0 <= i < |order| ==> order'[i] == WithAlias(order[i]) && m'[order'[i]] == m[order[i]]
    ensures ReadFields(render, key, f, m', order') == ReadFields(render, key, f, m, order)
    decreases |order|
  {
    hide ReadField, WithAlias;
    if order != [] {
      assert order'[0] == WithAlias(order[0]) && m'[order'[0]] == m[order[0]];
      AliasField(render, key, f, order[0], m[order[0]]);
      match ReadField(render, key, f, order[0], m[order[0]])
      case Fault(_) =>
      case Ok(f') => AliasFields(render, key, f', m, order[1..], m', order'[1..]);
    }
  }

  /** An object with `alias` for `keyspace` reads as the same hint, or fails alike. */
  lemma {:induction false} AliasForKeyspace(render: Json -> string, key: Key, m: map<string, Json>, order: seq<string>,
                                            m': map<string, Json>, order': seq<string>)
    requires |order| == |order'| && (forall k :: k in order ==> k in m) && (forall k :: k in order' ==> k in m')
    requires forall i :: 0 <= i < |order| ==> order'[i] == WithAlias(order[i]) && m'[order'[i]] == m[order[i]]
    ensures ReadHint(render, key, m', order') == ReadHint(render, key, m, order)
  {
    hide ReadFields, Complete, WithAlias;
    AliasFields(render, key, NOTHING, m, order, m', order');
  }

  /** The fields `keyspace`, `indexes` and `option` by name. */
  lemma {:induction false} FieldsByName(render: Json -> string, key: Key, f: Fields, text: string)
    ensures f.keyspace == "" && text != "" && '/' !in text ==> ReadField(render, key, f, "keyspace", JString(text)) == Ok(f.(keyspace := text))
    ensures key.OnIndexes() && text != "" && '/' !in text ==>
      ReadField(render, key, f, "indexes", JString(text)) == Ok(f.(indexes := f.indexes + [text]))
    ensures key.UseHash? ==>
      && ReadField(render, key, f, "option", JString("build")) == Ok(f.(option := Build))
      && ReadField(render, key, f, "option", JString("probe")) == Ok(f.(option := Probe))
  {
    hide ToLower;
    FieldNamesReadBack();
    LowerStays("build");
    LowerStays("probe");
    LowerStays("alias");
    assert IndexNamesOf(render, [JString(text)][..0]) == Ok([]);
    assert [] + [text] == [text];
  }
}
