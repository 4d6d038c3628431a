/**
 The set of privileges a query needs (auth/auth.go). Reading or changing a system scope needs a
 second privilege, which is added automatically next to the first.
 */
module Privileges {
  import opened Wrappers
  import opened PathText
  import opened PathScanner
  import opened SystemScope

  const PRIV_QUERY_SELECT := 7
  const PRIV_QUERY_UPDATE := 8
  const PRIV_QUERY_INSERT := 9
  const PRIV_QUERY_DELETE := 10
  const PRIV_SREAD := 40
  const PRIV_SWRITE := 41

  /** The part of a privilege pair that tells pairs apart. */
  datatype Pair = Pair(target: string, priv: int, props: int)

  /** Privileges that bring a companion when their target is in a system scope. */
  predicate IsData(priv: int) {
    priv == PRIV_QUERY_SELECT || priv == PRIV_QUERY_INSERT || priv == PRIV_QUERY_UPDATE || priv == PRIV_QUERY_DELETE
  }

  predicate NeedsCompanion(pp: Pair) {
    IsData(pp.priv) && InSystemScope(pp.target) == Some(true)
  }

  function Companion(pp: Pair): Pair {
    pp.(priv := if pp.priv == PRIV_QUERY_SELECT then PRIV_SREAD else PRIV_SWRITE)
  }

  /** Targets on which the scope test does not slice out of range, as the source expects of its callers. */
  ghost predicate WellFormed(pp: Pair) {
    IsData(pp.priv) ==> !Overruns(pp.target)
  }

  // ---- What adding means

  function ElementsOf(list: seq<Pair>): set<Pair> {
    set pp | pp in list
  }

  /** What was added, and the companions of what was added. */
  function Closure(added: set<Pair>): set<Pair> {
    added + set pp | pp in added && NeedsCompanion(pp) :: Companion(pp)
  }

  ghost predicate NoDuplicates(list: seq<Pair>) {
    forall i, j :: 0 <= i < j < |list| ==> list[i] != list[j]
  }

  function Append(list: seq<Pair>, pp: Pair): seq<Pair> {
    if pp in list then list else list + [pp]
  }

  /** The list after adding one pair. */
  function Added(list: seq<Pair>, pp: Pair): seq<Pair> {
    if pp in list then list
    else if NeedsCompanion(pp) then Append(list + [pp], Companion(pp)) else list + [pp]
  }

  /** The list after adding pairs one after the other. */
  function AddedAll(list: seq<Pair>, pairs: seq<Pair>): seq<Pair>
    decreases |pairs|
  {
    if pairs == [] then list else AddedAll(Added(list, pairs[0]), pairs[1..])
  }

  class PrivilegeList {
    var List: seq<Pair>

    constructor ()
      ensures List == []
    {
      List := [];
    }

    /** `Add` and `AddPair`: nothing when the pair is present, else the pair and perhaps its companion. */
    method Add(pp: Pair)
      requires WellFormed(pp)
      modifies this
      ensures List == Added(old(List), pp)
    {
      var i := 0;
      while i < |List|
        invariant 0 <= i <= |List| && List == old(List)
        invariant forall j :: 0 <= j < i ==> List[j] != pp
      {
        if List[i].target == pp.target && List[i].priv == pp.priv && List[i].props == pp.props {
          return;
        }
        i := i + 1;
      }
      List := List + [pp];
      AddSystem(pp);
    }

    method AddSystem(pp: Pair)
      requires WellFormed(pp)
      modifies this
      ensures List == if NeedsCompanion(pp) then Append(old(List), Companion(pp)) else old(List)
    {
      if |pp.target| >= 0 && IsData(pp.priv) {
        OverrunsExactly(pp.target);
        var inSystem := IsInSystemScope(pp.target);
        if inSystem.value {
          var np := PRIV_SWRITE;
          if pp.priv == PRIV_QUERY_SELECT {
            np := PRIV_SREAD;
          }
          var i := 0;
          while i < |List|
            invariant 0 <= i <= |List| && List == old(List)
            invariant forall j :: 0 <= j < i ==> List[j] != Companion(pp)
          {
            if List[i].target == pp.target && List[i].priv == np && List[i].props == pp.props {
              return;
            }
            i := i + 1;
          }
          List := List + [Pair(pp.target, np, pp.props)];
        }
      }
    }

    /** `AddAll`: every pair of another list, which may be missing or this one. */
    method AddAll(other: PrivilegeList?)
      requires other != null ==> forall i :: 0 <= i < |other.List| ==> WellFormed(other.List[i])
      modifies this
      ensures List == if other == null then old(List) else AddedAll(old(List), old(other.List))
    {
      if other == null {
        return;
      }
      var pairs := other.List;
      for i := 0 to |pairs|
        invariant AddedAll(List, pairs[i..]) == AddedAll(old(List), pairs)
      {
        Add(pairs[i]);
        assert pairs[i..][0] == pairs[i] && pairs[i..][1..] == pairs[i + 1..];
      }
    }
  }

  // ---- Every sequence of additions gives the closure of what was added

  lemma {:induction false} AddedIsClosure(list: seq<Pair>, added: set<Pair>, pp: Pair)
    requires NoDuplicates(list) && ElementsOf(list) == Closure(added)
    ensures NoDuplicates(Added(list, pp)) && ElementsOf(Added(list, pp)) == Closure(added + {pp})
  {
    hide InSystemScope;
    var list' := Added(list, pp);
    assert forall q :: q in list <==> q in Closure(added);
    assert NeedsCompanion(pp) ==> !NeedsCompanion(Companion(pp));
    forall q ensures q in list' <==> q in Closure(added + {pp}) {
      assert q in list' <==> q in list || q == pp || (NeedsCompanion(pp) && q == Companion(pp));
    }
  }

  /** After any sequence of additions there are no duplicates, and the list is the closure of what was added. */
  lemma {:induction false} AdditionsGiveClosure(list: seq<Pair>, added: set<Pair>, pairs: seq<Pair>)
    requires NoDuplicates(list) && ElementsOf(list) == Closure(added)
    ensures NoDuplicates(AddedAll(list, pairs))
    ensures ElementsOf(AddedAll(list, pairs)) == Closure(added + ElementsOf(pairs))
    decreases |pairs|
  {
    if pairs == [] {
      assert added + ElementsOf(pairs) == added;
    } else {
      hide Closure, NoDuplicates, Added, ElementsOf;
      AddedIsClosure(list, added, pairs[0]);
      AdditionsGiveClosure(Added(list, pairs[0]), added + {pairs[0]}, pairs[1..]);
      FirstElement(pairs);
      assert added + {pairs[0]} + ElementsOf(pairs[1..]) == added + ElementsOf(pairs);
    }
  }

  lemma {:induction false} FirstElement(pairs: seq<Pair>)
    requires pairs != []
    ensures ElementsOf(pairs) == {pairs[0]} + ElementsOf(pairs[1..])
  {
    assert pairs == [pairs[0]] + pairs[1..];
  }

  /** A list built from nothing, in any order and with any repetition. */
  lemma {:induction false} ListIsClosure(pairs: seq<Pair>)
    ensures NoDuplicates(AddedAll([], pairs)) && ElementsOf(AddedAll([], pairs)) == Closure(ElementsOf(pairs))
  {
    assert Closure({}) == {} == ElementsOf([]);
    AdditionsGiveClosure([], {}, pairs);
    assert {} + ElementsOf(pairs) == ElementsOf(pairs);
  }

  /**
   Adding another list adds no pair whose companion that list lacks: the closure of a closure is
   the closure, so lists can be merged in any order.
   */
  lemma {:induction false} ClosureIsIdempotent(added: set<Pair>)
    ensures Closure(Closure(added)) == Closure(added)
  {
    hide InSystemScope;
  }

  /**
   For a collection, printed either way, a data privilege comes with its companion exactly when the
   scope is a system scope, unless the companion was asked for on its own. The scope must not hide
   behind an unquoted colon.
   */
  lemma {:induction false} CompanionExactly(pairs: seq<Pair>, force: bool, p: Path, priv: int, props: int)
    requires |p| == 4 && NoBackTick(p) && !Cut(force, p[2]) && IsData(priv)
    requires Pair(Print(force, p), priv, props) in pairs
    ensures
      var pp := Pair(Print(force, p), priv, props);
      Companion(pp) in AddedAll([], pairs) <==> SystemName(p[2]) || Companion(pp) in pairs
  {
    hide InSystemScope, Print, SystemName;
    var pp := Pair(Print(force, p), priv, props);
    CollectionScopeExactly(force, p);
    ListIsClosure(pairs);
    var list := AddedAll([], pairs);
    assert Companion(pp) in list <==> Companion(pp) in ElementsOf(list);
    assert pp in ElementsOf(pairs);
    assert Companion(pp) in pairs <==> Companion(pp) in ElementsOf(pairs);
  }

  /**
   For a collection in a system scope SELECT brings PRIV_SREAD, and INSERT, UPDATE and DELETE bring PRIV_SWRITE; the list
   has these two for no other reason than that they were asked for.
   */
  lemma {:induction false} SystemPrivileges(pairs: seq<Pair>, force: bool, p: Path, props: int)
    requires |p| == 4 && NoBackTick(p) && !Cut(force, p[2])
    ensures
      var target, list, system := Print(force, p), AddedAll([], pairs), p[2] != "" && p[2][0] == '_' && p[2] != "_default";
      && (Pair(target, PRIV_SREAD, props) in list
          <==> Pair(target, PRIV_SREAD, props) in pairs || (system && Pair(target, PRIV_QUERY_SELECT, props) in pairs))
      && (Pair(target, PRIV_SWRITE, props) in list
          <==> Pair(target, PRIV_SWRITE, props) in pairs
               || (system && (|| Pair(target, PRIV_QUERY_INSERT, props) in pairs || Pair(target, PRIV_QUERY_UPDATE, props) in pairs
                              || Pair(target, PRIV_QUERY_DELETE, props) in pairs)))
  {
    hide InSystemScope, Print, Closure;
    var target := Print(force, p);
    CollectionScopeExactly(force, p);
    ListIsClosure(pairs);
    var list := AddedAll([], pairs);
    forall q ensures q in list <==> q in Closure(ElementsOf(pairs)) {
      assert q in list <==> q in ElementsOf(list);
    }
    InClosure(ElementsOf(pairs), Pair(target, PRIV_SREAD, props));
    InClosure(ElementsOf(pairs), Pair(target, PRIV_SWRITE, props));
  }

  lemma {:induction false} InClosure(added: set<Pair>, q: Pair)
    ensures q in Closure(added)
       <==> || q in added || OfData(added, q, PRIV_QUERY_SELECT) || OfData(added, q, PRIV_QUERY_INSERT)
            || OfData(added, q, PRIV_QUERY_UPDATE) || OfData(added, q, PRIV_QUERY_DELETE)
  {
    hide InSystemScope;
    if pp :| pp in added && NeedsCompanion(pp) && Companion(pp) == q {
      assert pp == Pair(q.target, pp.priv, q.props);
    }
  }

  /** The pair is the companion of an added one with this privilege. */
  predicate OfData(added: set<Pair>, q: Pair, priv: int) {
    var pp := Pair(q.target, priv, q.props);
    pp in added && InSystemScope(q.target) == Some(true) && Companion(pp) == q
  }
}
