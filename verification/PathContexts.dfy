/**
 What a query context adds to a path of a list: a path split into its context and its last names, printed, and read
 again is the same path (algebra/path.go).
 */
module PathContexts {
  import opened PathText
  import opened PathScanner
  import opened PathList
  import opened PathValidator

  /** One protected path on its own. */
  lemma {:induction false} ListOfOne(p: Path, defaultNamespace: string, queryContext: string)
    requires |p| >= 2 && NoBackTick(p)
    ensures ParseList(Print(true, p), defaultNamespace, queryContext)
         == Resolve(p, defaultNamespace, Context(defaultNamespace, queryContext))
  {
    hide ListFrom, ListStep, Parse, PrintFrom, Resolve, Context;
    var s := Print(true, p);
    var qc := Context(defaultNamespace, queryContext);
    PrintIsTickedToo(p);
    assert !IsSpace('`');
    assert TrimRight(TrimLeft(s)) == s;
    ListPath(s + ",", EMPTY, 0, p, defaultNamespace, qc);
    match Resolve(p, defaultNamespace, qc)
    case Paths(ps) =>
      ListFromUnfolds(s + ",", ListScan(EMPTY.paths + ps, [], "", false, false, |s| + 1, -1), |s| + 1, defaultNamespace, qc);
      assert EMPTY.paths + ps == ps;
    case _ =>
  }

  lemma {:induction false} PrintIsTickedToo(p: Path)
    requires |p| >= 2
    ensures Ticked(Print(true, p))
  {
    hide PrintFrom;
    if p[0] == "" {
      PrintStep(true, false, p, 0, |p| - 1);
      PrintIsTicked(p, 1);
    } else {
      PrintIsTicked(p, 0);
    }
  }

  /** The path in its namespace, or in the default one. */
  function Qualified(p: Path, defaultNamespace: string): Path
    requires p != []
  {
    if p[0] == "" then [defaultNamespace] + p[1..] else p
  }

  lemma {:induction false} PrintedContext(p: Path, defaultNamespace: string)
    requires |p| >= 2 && NoBackTick(p)
    requires if |p| == 2 then !Cut(false, p[0]) else Survives(false, p[..|p| - 1])
    ensures Context(defaultNamespace, PrintContext(p)) == if |p| == 2 && p[0] == "" then [] else Qualified(p[..|p| - 1], defaultNamespace)
  {
    hide Parse, PrintFrom, Survives, Cut;
    ContextRoundTripExactly(p);
    var qc := p[..|p| - 1];
    if |p| == 2 {
      assert qc == [p[0]];
    }
    if qc != [""] && qc[0] == "" {
      assert qc[0 := defaultNamespace] == [defaultNamespace] + qc[1..];
    }
  }

  /** A collection name in the context of its scope, scope and collection in the context of their bucket. */
  lemma {:induction false} CollectionInContext(p: Path, defaultNamespace: string)
    requires |p| == 4 && NoBackTick(p)
    ensures Survives(false, p[..3]) ==> ParseList(Print(true, ["", p[3]]), defaultNamespace, PrintContext(p)) == Paths([Qualified(p, defaultNamespace)])
    ensures Survives(false, p[..2]) ==> ParseList(Print(true, ["", p[2], p[3]]), defaultNamespace, PrintContext(p[..3])) == Paths([Qualified(p, defaultNamespace)])
  {
    hide Parse, PrintFrom, ParseList, Context, Survives, Cut;
    if Survives(false, p[..3]) {
      ListOfOne(["", p[3]], defaultNamespace, PrintContext(p));
      PrintedContext(p, defaultNamespace);
      var qc := Qualified(p[..3], defaultNamespace);
      assert [qc[0], qc[1], qc[2], p[3]] == Qualified(p, defaultNamespace);
    }
    if Survives(false, p[..2]) {
      ListOfOne(["", p[2], p[3]], defaultNamespace, PrintContext(p[..3]));
      assert p[..3][..2] == p[..2];
      PrintedContext(p[..3], defaultNamespace);
      var qc := Qualified(p[..2], defaultNamespace);
      assert [qc[0], qc[1], p[2], p[3]] == Qualified(p, defaultNamespace);
    }
  }

  /** A keyspace in the context of its namespace, or in no context. */
  lemma {:induction false} KeyspaceInContext(p: Path, defaultNamespace: string)
    requires |p| == 2 && NoBackTick(p)
    ensures !Cut(false, p[0]) ==> ParseList(Print(true, ["", p[1]]), defaultNamespace, PrintContext(p)) == Paths([Qualified(p, defaultNamespace)])
    ensures ParseList(Print(true, ["", p[1]]), defaultNamespace, "") == Paths([[defaultNamespace, p[1]]])
  {
    hide Parse, PrintFrom, ParseList, Context, Cut;
    var e := ["", p[1]];
    if !Cut(false, p[0]) {
      ListOfOne(e, defaultNamespace, PrintContext(p));
      PrintedContext(p, defaultNamespace);
      assert p[..1] == [p[0]];
      assert p[0] != "" ==> e[0 := p[0]] == p;
    }
    ListOfOne(e, defaultNamespace, "");
    NoContext(defaultNamespace);
    assert e[0 := defaultNamespace] == [defaultNamespace, p[1]];
    assert [defaultNamespace] + p[1..] == [defaultNamespace, p[1]];
  }

  lemma {:induction false} NoContext(defaultNamespace: string)
    ensures Context(defaultNamespace, "") == []
  {
    ShortContexts();
  }

  /** Bucket, scope and collection without a namespace are in the default one, whatever the context. */
  lemma {:induction false} FullPathIgnoresContext(p: Path, defaultNamespace: string, queryContext: string)
    requires |p| == 4 && NoBackTick(p)
    ensures ParseList(Print(true, p), defaultNamespace, queryContext) == Paths([Qualified(p, defaultNamespace)])
  {
    hide Parse, PrintFrom, ParseList, Context;
    ListOfOne(p, defaultNamespace, queryContext);
    assert p[0 := defaultNamespace] == [defaultNamespace] + p[1..];
  }

  /** A single name in the context of the elements before it is the whole path; below a bucket it is in the default scope. */
  lemma {:induction false} NameInContext(p: Path, namespace: string)
    requires |p| >= 2 && NoBackTick(p)
    requires if |p| == 2 then !Cut(false, p[0]) else Survives(false, p[..|p| - 1])
    ensures NewPathWithContext(p[|p| - 1], namespace, PrintContext(p))
         == if |p| == 3 then Qualified([p[0], p[1], "_default", p[2]], namespace) else Qualified(p, namespace)
  {
    hide Parse, PrintFrom, Survives, Cut;
    ContextRoundTripExactly(p);
    var qc, name, text := p[..|p| - 1], p[|p| - 1], PrintContext(p);
    if text == "" {
      ShortContexts();
      assert |p| == 2 && p[0] == "";
      assert [namespace] + p[1..] == [namespace, name];
    } else {
      var named := if qc[0] == "" then qc[0 := namespace] else qc;
      assert qc + [name] == p;
      assert p[0] == "" ==> named + [name] == [namespace] + p[1..];
      if |p| == 3 {
        assert named + ["_default"] + [name] == Qualified([p[0], p[1], "_default", p[2]], namespace);
      }
    }
  }

  lemma {:induction false} CheckPlain(e: string, st: Check, i: nat)
    requires i <= |e| && '`' !in e && '.' !in e && ':' !in e && !st.inBackTick
    ensures CheckFrom(e, st, i) == Good(if i < |e| && st.countPart then st.parts + 1 else st.parts)
    decreases |e| - i
  {
    if i < |e| {
      assert e[i] in e;
      CheckPlain(e, if st.countPart then st.(parts := st.parts + 1, countPart := false) else st, i + 1);
    }
  }

  /** The same for a dynamic keyspace, if the name has no dot or colon. */
  lemma {:induction false} VariableNameInContext(p: Path, namespace: string)
    requires |p| >= 2 && NoBackTick(p)
    requires if |p| == 2 then !Cut(false, p[0]) else Survives(false, p[..|p| - 1])
    requires p[|p| - 1] != "" && '.' !in p[|p| - 1] && ':' !in p[|p| - 1]
    ensures NewVariablePathWithContext(p[|p| - 1], namespace, PrintContext(p))
         == Ok(if |p| == 3 then Qualified([p[0], p[1], "_default", p[2]], namespace) else Qualified(p, namespace))
  {
    hide Parse, PrintFrom, Survives, Cut, NewPathWithContext, Qualified;
    NameInContext(p, namespace);
    CheckPlain(p[|p| - 1], INITIAL_CHECK, 0);
  }
}
