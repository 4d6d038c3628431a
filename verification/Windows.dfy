/**
 Named windows (algebra/window.go): checking the WINDOW clause and rewriting a term that refers to
 a named window. Both follow a chain of references in a single scan from the last window down;
 the meaning of a reference is a recursive lookup by name.
 */
module Windows {
  import opened Wrappers

  /** A window term; expressions are kept as text. A base window refers to no other. */
  datatype Term = Term(windowName: string, partitionBy: Option<seq<string>>, orderBy: Option<string>,
                       windowFrame: Option<string>, asWindowName: string, flag: bool)
  {
    predicate IsBase() {
      windowName == ""
    }
  }

  datatype Check = Valid | Duplicate | FrameOnly | Conflicting(clause: string) | NotInScope

  /** Why a term may not refer to this window, if it may not. */
  function Conflict(t: Term, w: Term): Option<string> {
    if t.partitionBy.Some? && |t.partitionBy.value| > 0 then Some("partitioning")
    else if t.orderBy.Some? && w.orderBy.Some? then Some("ordering")
    else if !t.flag && w.windowFrame.Some? then Some("framing")
    else None
  }

  /** The scan of `ValidateWindowTerm` from window `i` down, looking for the window that `t` names. */
  function ValidateFrom(t: Term, ws: seq<Term>, i: int): Check
    requires i < |ws|
    decreases i
  {
    if i < 0 then NotInScope
    else if t.windowName == ws[i].asWindowName then
      match Conflict(t, ws[i])
      case Some(clause) => Conflicting(clause)
      case None => if ws[i].IsBase() then Valid else ValidateFrom(ws[i], ws, i - 1)
    else ValidateFrom(t, ws, i - 1)
  }

  function ValidateTerm(t: Term, ws: seq<Term>, start: int): Check
    requires start < |ws|
  {
    if t.IsBase() then Valid else ValidateFrom(t, ws, start)
  }

  method ValidateWindowTerm(t: Term, ws: seq<Term>, start: int) returns (c: Check)
    requires start < |ws|
    ensures c == ValidateTerm(t, ws, start)
  {
    var wterm := t;
    if wterm.IsBase() {
      return Valid;
    }
    var i := start;
    while i >= 0
      invariant i < |ws| && ValidateFrom(t, ws, start) == ValidateFrom(wterm, ws, i)
      decreases i
    {
      var w := ws[i];
      if wterm.windowName == w.asWindowName {
        var clause := Conflict(wterm, w);
        if clause.Some? {
          return Conflicting(clause.value);
        }
        if w.IsBase() {
          return Valid;
        }
        wterm := w;
      }
      i := i - 1;
    }
    return NotInScope;
  }

  // ---- What an accepted WINDOW clause is

  predicate NamesAreUnique(ws: seq<Term>, n: nat)
    requires n <= |ws|
  {
    forall i, j :: 0 <= i < j < n ==> ws[i].asWindowName != ws[j].asWindowName
  }

  /** The window at `i` is a base that is more than a frame, or refers to an earlier window it may refer to. */
  predicate StandsOn(ws: seq<Term>, i: nat)
    requires i < |ws|
  {
    var w := ws[i];
    if w.IsBase() then !(w.partitionBy == None && w.orderBy == None && w.windowFrame.Some?)
    else exists j :: 0 <= j < i && ws[j].asWindowName == w.windowName && Conflict(w, ws[j]) == None
  }

  ghost predicate WellFormed(ws: seq<Term>, n: nat)
    requires n <= |ws|
  {
    NamesAreUnique(ws, n) && forall i :: 0 <= i < n ==> StandsOn(ws, i)
  }

  /** The named window is found, if there is one below `i`, and nothing beyond it can fail. */
  lemma {:induction false} ValidateFromExactly(t: Term, ws: seq<Term>, i: int)
    requires -1 <= i < |ws| && !t.IsBase() && WellFormed(ws, i + 1)
    ensures ValidateFrom(t, ws, i).Valid?
       <==> exists j :: 0 <= j <= i && ws[j].asWindowName == t.windowName && Conflict(t, ws[j]) == None
    decreases i
  {
    if i >= 0 {
      if t.windowName == ws[i].asWindowName {
        if !ws[i].IsBase() {
          assert StandsOn(ws, i);
          ValidateFromExactly(ws[i], ws, i - 1);
        }
      } else {
        ValidateFromExactly(t, ws, i - 1);
      }
    }
  }

  /** A window checked against the windows up to and including itself. */
  lemma {:induction false} ValidateSelf(ws: seq<Term>, i: nat)
    requires i < |ws| && !ws[i].IsBase() && WellFormed(ws, i) && NamesAreUnique(ws, i + 1)
    ensures ValidateFrom(ws[i], ws, i).Valid? <==> StandsOn(ws, i)
  {
    ValidateFromExactly(ws[i], ws, i - 1);
  }

  function ValidateUpTo(ws: seq<Term>, n: nat): Check
    requires n <= |ws|
  {
    if n == 0 then Valid
    else if !ValidateUpTo(ws, n - 1).Valid? then ValidateUpTo(ws, n - 1)
    else
      var w := ws[n - 1];
      if exists j :: 0 <= j < n - 1 && ws[j].asWindowName == w.asWindowName then Duplicate
      else if w.IsBase() && w.partitionBy == None && w.orderBy == None && w.windowFrame.Some? then FrameOnly
      else ValidateTerm(w, ws, n - 1)
  }

  /** `ValidateWindowTerms`, with its map of the names seen. */
  method ValidateWindowTerms(ws: seq<Term>) returns (c: Check)
    ensures c == ValidateUpTo(ws, |ws|)
  {
    var wnames: set<string> := {};
    for i := 0 to |ws|
      invariant wnames == set j | 0 <= j < i :: ws[j].asWindowName
      invariant ValidateUpTo(ws, i).Valid?
    {
      var w := ws[i];
      if w.asWindowName in wnames {
        ErrorStays(ws, i + 1);
        return Duplicate;
      }
      wnames := wnames + {w.asWindowName};
      if w.IsBase() && w.partitionBy == None && w.orderBy == None && w.windowFrame.Some? {
        ErrorStays(ws, i + 1);
        return FrameOnly;
      }
      var e := ValidateWindowTerm(w, ws, i);
      if !e.Valid? {
        ErrorStays(ws, i + 1);
        return e;
      }
    }
    return Valid;
  }

  lemma {:induction false} ErrorStays(ws: seq<Term>, n: nat)
    requires n <= |ws|
    ensures !ValidateUpTo(ws, n).Valid? ==> ValidateUpTo(ws, |ws|) == ValidateUpTo(ws, n)
    decreases |ws| - n
  {
    if n < |ws| {
      ErrorStays(ws, n + 1);
    }
  }

  /** The clause is accepted exactly when names are unique and every window stands on an earlier one or on itself. */
  lemma {:induction false} AcceptedExactly(ws: seq<Term>, n: nat)
    requires n <= |ws|
    ensures ValidateUpTo(ws, n).Valid? <==> WellFormed(ws, n)
  {
    if n > 0 {
      AcceptedExactly(ws, n - 1);
      if WellFormed(ws, n - 1) {
        assert NamesAreUnique(ws, n) <==> !exists j :: 0 <= j < n - 1 && ws[j].asWindowName == ws[n - 1].asWindowName;
        assert (forall i :: 0 <= i < n ==> StandsOn(ws, i)) <==> StandsOn(ws, n - 1);
        if NamesAreUnique(ws, n) && !ws[n - 1].IsBase() {
          ValidateSelf(ws, n - 1);
        }
      }
    }
  }

  /** The term has no PARTITION BY, not both it and the window have an ORDER BY, and the window has no frame unless the term is a bare name. */
  predicate MayReferTo(t: Term, w: Term) {
    && (t.partitionBy.None? || t.partitionBy.value == [])
    && (t.orderBy.None? || w.orderBy.None?)
    && (t.flag || w.windowFrame.None?)
  }

  /** Acceptance of a clause and of a reference, by what the windows have. */
  lemma {:induction false} AcceptedByClauses(ws: seq<Term>, t: Term)
    requires !t.IsBase()
    ensures ValidateUpTo(ws, |ws|).Valid? <==>
      && (forall i, j :: 0 <= i < j < |ws| ==> ws[i].asWindowName != ws[j].asWindowName)
      && (forall i :: 0 <= i < |ws| ==>
            if ws[i].windowName == "" then ws[i].partitionBy.Some? || ws[i].orderBy.Some? || ws[i].windowFrame.None?
            else exists j :: 0 <= j < i && ws[j].asWindowName == ws[i].windowName && MayReferTo(ws[i], ws[j]))
    ensures ValidateUpTo(ws, |ws|).Valid? ==>
      (ValidateTerm(t, ws, |ws| - 1).Valid?
       <==> exists j :: 0 <= j < |ws| && ws[j].asWindowName == t.windowName && MayReferTo(t, ws[j]))
  {
    hide ValidateUpTo, ValidateTerm;
    AcceptedExactly(ws, |ws|);
    if ValidateUpTo(ws, |ws|).Valid? {
      RewriteIsLookup(t, ws);
    }
    forall u, w ensures Conflict(u, w) == None <==> MayReferTo(u, w) {
    }
    assert forall i :: 0 <= i < |ws| ==> (StandsOn(ws, i) <==>
      if ws[i].windowName == "" then ws[i].partitionBy.Some? || ws[i].orderBy.Some? || ws[i].windowFrame.None?
      else exists j :: 0 <= j < i && ws[j].asWindowName == ws[i].windowName && MayReferTo(ws[i], ws[j]));
  }

  /** An ORDER BY over a base window survives the rewrite. */
  lemma {:induction false} OrderOverBaseIsKept(t: Term, ws: seq<Term>, j: nat)
    requires ValidateUpTo(ws, |ws|).Valid? && !t.IsBase() && ValidateTerm(t, ws, |ws| - 1).Valid? && t.orderBy.Some?
    requires j < |ws| && ws[j].asWindowName == t.windowName && ws[j].windowName == ""
    ensures
      var r := RewriteFrom(t, t.windowName, ws, |ws| - 1);
      r.Some? && r.value.orderBy == t.orderBy && r.value.partitionBy == if ws[j].partitionBy.Some? then ws[j].partitionBy else t.partitionBy
  {
    hide ValidateUpTo, ValidateTerm;
    RewriteIsLookup(t, ws);
    var k :| 0 <= k < |ws| && ws[k].asWindowName == t.windowName && Conflict(t, ws[k]) == None;
    LookupIs(ws, k);
    LookupIs(ws, j);
    assert Chain(ws, j) == [ws[j]];
    assert InheritAll(t, [ws[j]]) == InheritAll(Inherit(t, ws[j]), []);
  }

  // ---- References as recursive lookup

  /** The window with this name. */
  ghost function Lookup(ws: seq<Term>, name: string): (j: nat)
    requires exists j :: 0 <= j < |ws| && ws[j].asWindowName == name
    ensures j < |ws| && ws[j].asWindowName == name
  {
    var j: nat :| j < |ws| && ws[j].asWindowName == name;
    j
  }

  lemma {:induction false} LookupIs(ws: seq<Term>, j: nat)
    requires j < |ws| && NamesAreUnique(ws, |ws|)
    ensures Lookup(ws, ws[j].asWindowName) == j
  {
  }

  lemma {:induction false} ReferencesGoBack(ws: seq<Term>, i: nat)
    requires WellFormed(ws, |ws|) && i < |ws| && !ws[i].IsBase()
    ensures (exists j :: 0 <= j < |ws| && ws[j].asWindowName == ws[i].windowName)
    ensures Lookup(ws, ws[i].windowName) < i && Conflict(ws[i], ws[Lookup(ws, ws[i].windowName)]) == None
  {
    assert StandsOn(ws, i);
    var j :| 0 <= j < i && ws[j].asWindowName == ws[i].windowName && Conflict(ws[i], ws[j]) == None;
    LookupIs(ws, j);
  }

  /** The windows that window `i` builds on, itself first, down to a base. Every reference is to an earlier window. */
  ghost function Chain(ws: seq<Term>, i: nat): (c: seq<Term>)
    requires WellFormed(ws, |ws|) && i < |ws|
    ensures c != [] && c[0] == ws[i] && c[|c| - 1].IsBase()
    decreases i
  {
    if ws[i].IsBase() then [ws[i]]
    else
      ReferencesGoBack(ws, i);
      [ws[i]] + Chain(ws, Lookup(ws, ws[i].windowName))
  }

  function Override<T>(mine: Option<T>, theirs: Option<T>): Option<T> {
    if theirs.Some? then theirs else mine
  }

  function Inherit(t: Term, w: Term): Term {
    t.(partitionBy := Override(t.partitionBy, w.partitionBy), orderBy := Override(t.orderBy, w.orderBy),
       windowFrame := Override(t.windowFrame, w.windowFrame))
  }

  /** Each clause comes from the deepest window of the chain that has it, else from the term itself. */
  function InheritAll(t: Term, chain: seq<Term>): Term
    decreases |chain|
  {
    if chain == [] then t else InheritAll(Inherit(t, chain[0]), chain[1..])
  }

  // ---- The rewrite

  /** The scan of `RewriteToNewWindowTerm`; nothing when the reference chain is not found. */
  function RewriteFrom(rv: Term, name: string, ws: seq<Term>, i: int): Option<Term>
    requires i < |ws|
    decreases i
  {
    if i < 0 then None
    else if name == ws[i].asWindowName then
      var rv' := Inherit(rv, ws[i]);
      if ws[i].IsBase() then Some(rv') else RewriteFrom(rv', ws[i].windowName, ws, i - 1)
    else RewriteFrom(rv, name, ws, i - 1)
  }

  /** What passes validation is found by the rewrite: its last error is never reached. */
  lemma {:induction false} ValidIsRewritten(rv: Term, t: Term, ws: seq<Term>, i: int)
    requires i < |ws| && ValidateFrom(t, ws, i).Valid?
    ensures RewriteFrom(rv, t.windowName, ws, i).Some?
    decreases i
  {
    if i >= 0 {
      if t.windowName == ws[i].asWindowName {
        if !ws[i].IsBase() {
          ValidIsRewritten(Inherit(rv, ws[i]), ws[i], ws, i - 1);
        }
      } else {
        ValidIsRewritten(rv, t, ws, i - 1);
      }
    }
  }

  /** The single scan down the list follows the chain of lookups by name. */
  lemma {:induction false} ScanFollowsChain(rv: Term, ws: seq<Term>, j: nat, i: int)
    requires WellFormed(ws, |ws|) && j <= i < |ws|
    ensures RewriteFrom(rv, ws[j].asWindowName, ws, i) == Some(InheritAll(rv, Chain(ws, j)))
    decreases i
  {
    if i == j {
      var rv' := Inherit(rv, ws[i]);
      if !ws[i].IsBase() {
        ReferencesGoBack(ws, i);
        var k := Lookup(ws, ws[i].windowName);
        ScanFollowsChain(rv', ws, k, i - 1);
        assert Chain(ws, i)[1..] == Chain(ws, k);
      } else {
        assert Chain(ws, i)[1..] == [];
      }
    } else {
      ScanFollowsChain(rv, ws, j, i - 1);
    }
  }

  /** The term of an OVER clause, which the rewrite completes in place. */
  class WindowTerm {
    const windowName: string
    var partitionBy: Option<seq<string>>
    var orderBy: Option<string>
    var windowFrame: Option<string>
    const asWindowName: string
    const flag: bool

    function Now(): Term
      reads this
    {
      Term(windowName, partitionBy, orderBy, windowFrame, asWindowName, flag)
    }

    constructor (t: Term)
      ensures Now() == t
    {
      windowName, partitionBy, orderBy := t.windowName, t.partitionBy, t.orderBy;
      windowFrame, asWindowName, flag := t.windowFrame, t.asWindowName, t.flag;
    }

    method RewriteToNewWindowTerm(ws: seq<Term>) returns (c: Check)
      modifies this
      ensures c == ValidateTerm(old(Now()), ws, |ws| - 1)
      ensures !c.Valid? || windowName == "" ==> Now() == old(Now())
      ensures c.Valid? && windowName != "" ==> RewriteFrom(old(Now()), windowName, ws, |ws| - 1) == Some(Now())
    {
      if windowName == "" {
        return Valid;
      }
      c := ValidateWindowTerm(Now(), ws, |ws| - 1);
      if !c.Valid? {
        return;
      }
      ValidIsRewritten(Now(), Now(), ws, |ws| - 1);
      var name := windowName;
      var i := |ws| - 1;
      while i >= 0
        invariant i < |ws|
        invariant RewriteFrom(old(Now()), windowName, ws, |ws| - 1) == RewriteFrom(Now(), name, ws, i)
        decreases i
      {
        var w := ws[i];
        if name == w.asWindowName {
          if w.partitionBy.Some? {
            partitionBy := w.partitionBy;
          }
          if w.orderBy.Some? {
            orderBy := w.orderBy;
          }
          if w.windowFrame.Some? {
            windowFrame := w.windowFrame;
          }
          if w.IsBase() {
            return Valid;
          }
          name := w.windowName;
        }
        i := i - 1;
      }
      assert false;
    }
  }

  /** Under an accepted WINDOW clause a reference is resolved exactly when the window exists and may be referred to. */
  lemma {:induction false} RewriteIsLookup(t: Term, ws: seq<Term>)
    requires ValidateUpTo(ws, |ws|).Valid? && !t.IsBase()
    ensures ValidateTerm(t, ws, |ws| - 1).Valid?
       <==> exists j :: 0 <= j < |ws| && ws[j].asWindowName == t.windowName && Conflict(t, ws[j]) == None
    ensures WellFormed(ws, |ws|)
    ensures ValidateTerm(t, ws, |ws| - 1).Valid? ==>
      RewriteFrom(t, t.windowName, ws, |ws| - 1) == Some(InheritAll(t, Chain(ws, Lookup(ws, t.windowName))))
  {
    AcceptedExactly(ws, |ws|);
    ValidateFromExactly(t, ws, |ws| - 1);
    if ValidateTerm(t, ws, |ws| - 1).Valid? {
      ScanFollowsChain(t, ws, Lookup(ws, t.windowName), |ws| - 1);
    }
  }

  /** The last clause of a list that is present, else the own one. */
  function Deepest<T>(own: Option<T>, clauses: seq<Option<T>>): Option<T> {
    if clauses == [] then own
    else if clauses[|clauses| - 1].Some? then clauses[|clauses| - 1]
    else Deepest(own, clauses[..|clauses| - 1])
  }

  lemma {:induction false} DeepestFromFront<T>(own: Option<T>, clauses: seq<Option<T>>)
    requires clauses != []
    ensures Deepest(own, clauses) == Deepest(Override(own, clauses[0]), clauses[1..])
  {
    if |clauses| > 1 && clauses[|clauses| - 1].None? {
      var init := clauses[..|clauses| - 1];
      DeepestFromFront(own, init);
      assert init[1..] == clauses[1..][..|clauses| - 2];
    }
  }

  function Partitions(chain: seq<Term>): seq<Option<seq<string>>> {
    seq(|chain|, i requires 0 <= i < |chain| => chain[i].partitionBy)
  }

  function Orders(chain: seq<Term>): seq<Option<string>> {
    seq(|chain|, i requires 0 <= i < |chain| => chain[i].orderBy)
  }

  function Frames(chain: seq<Term>): seq<Option<string>> {
    seq(|chain|, i requires 0 <= i < |chain| => chain[i].windowFrame)
  }

  /** Each clause of the rewritten term comes from the deepest window that has it. */
  lemma {:induction false} InheritsFromDeepest(t: Term, chain: seq<Term>)
    ensures InheritAll(t, chain) ==
      t.(partitionBy := Deepest(t.partitionBy, Partitions(chain)), orderBy := Deepest(t.orderBy, Orders(chain)),
         windowFrame := Deepest(t.windowFrame, Frames(chain)))
    decreases |chain|
  {
    if chain != [] {
      InheritsFromDeepest(Inherit(t, chain[0]), chain[1..]);
      DeepestFromFront(t.partitionBy, Partitions(chain));
      DeepestFromFront(t.orderBy, Orders(chain));
      DeepestFromFront(t.windowFrame, Frames(chain));
      assert Partitions(chain)[1..] == Partitions(chain[1..]) && Orders(chain)[1..] == Orders(chain[1..]);
      assert Frames(chain)[1..] == Frames(chain[1..]);
    }
  }

  /**
   Validation compares only neighbours in the chain. A term may order, its window not, and the window
   below again: all is accepted, and the order of the term itself is lost.
   */
  lemma {:induction false} OwnOrderIsLost()
    ensures
      var base := Term("", None, Some("a"), None, "w1", false);
      var middle := Term("w1", None, None, None, "w2", false);
      var t := Term("w2", None, Some("b"), None, "", false);
      && ValidateUpTo([base, middle], 2).Valid? && ValidateTerm(t, [base, middle], 1).Valid?
      && RewriteFrom(t, "w2", [base, middle], 1) == Some(t.(orderBy := Some("a")))
  {
    var ws := [Term("", None, Some("a"), None, "w1", false), Term("w1", None, None, None, "w2", false)];
    AcceptedExactly(ws, 2);
    assert StandsOn(ws, 0);
    assert ws[0].asWindowName == ws[1].windowName && Conflict(ws[1], ws[0]) == None;
    assert StandsOn(ws, 1);
    assert ws[0].asWindowName != ws[1].asWindowName by {
      assert "w1"[1] != "w2"[1];
    }
  }

  lemma {:induction false} DeepestIsOwn<T>(own: Option<T>, clauses: seq<Option<T>>)
    requires own.Some?
    ensures Deepest(own, clauses) == own <==>
      forall i :: 0 <= i < |clauses| && clauses[i].Some? && (forall k :: i < k < |clauses| ==> clauses[k].None?) ==> clauses[i] == own
  {
    if clauses != [] && clauses[|clauses| - 1].None? {
      var init := clauses[..|clauses| - 1];
      DeepestIsOwn(own, init);
      assert forall i :: 0 <= i < |init| ==> init[i] == clauses[i];
    }
  }

  /** An order of its own survives the rewrite exactly when no window of the chain has one, or the deepest has the same. */
  lemma {:induction false} OwnOrderIsKeptExactly(t: Term, ws: seq<Term>)
    requires ValidateUpTo(ws, |ws|).Valid? && !t.IsBase() && ValidateTerm(t, ws, |ws| - 1).Valid? && t.orderBy.Some?
    ensures WellFormed(ws, |ws|) && (exists j :: 0 <= j < |ws| && ws[j].asWindowName == t.windowName)
    ensures
      var orders := Orders(Chain(ws, Lookup(ws, t.windowName)));
      && RewriteFrom(t, t.windowName, ws, |ws| - 1).Some?
      && (RewriteFrom(t, t.windowName, ws, |ws| - 1).value.orderBy == t.orderBy <==>
          forall i :: 0 <= i < |orders| && orders[i].Some? && (forall k :: i < k < |orders| ==> orders[k].None?)
                 ==> orders[i] == t.orderBy)
  {
    RewriteIsLookup(t, ws);
    var chain := Chain(ws, Lookup(ws, t.windowName));
    InheritsFromDeepest(t, chain);
    DeepestIsOwn(t.orderBy, Orders(chain));
  }

  /** What the grammar builds: OVER with a bare name has no clauses of its own. */
  predicate FromGrammar(t: Term) {
    t.flag ==> t.partitionBy == None && t.orderBy == None && t.windowFrame == None
  }

  /** A window that others refer to, other than by a bare name, has no frame. */
  lemma {:induction false} ChainHasNoFrames(ws: seq<Term>, i: nat)
    requires WellFormed(ws, |ws|) && i < |ws| && forall w :: w in ws ==> !w.flag
    requires ws[i].windowFrame == None
    ensures forall k :: 0 <= k < |Chain(ws, i)| ==> Chain(ws, i)[k].windowFrame == None
    decreases i
  {
    if !ws[i].IsBase() {
      ReferencesGoBack(ws, i);
      assert ws[i] in ws;
      ChainHasNoFrames(ws, Lookup(ws, ws[i].windowName));
    }
  }

  lemma {:induction false} DeepestOfNone<T>(own: Option<T>, clauses: seq<Option<T>>)
    requires forall i :: 0 <= i < |clauses| ==> clauses[i] == None
    ensures Deepest(own, clauses) == own
  {
    if clauses != [] {
      DeepestOfNone(own, clauses[..|clauses| - 1]);
    }
  }

  /** Of the clauses of its own, an accepted term can lose only its order: it has no partitioning, and keeps its frame. */
  lemma {:induction false} OnlyOrderCanBeLost(t: Term, ws: seq<Term>)
    requires ValidateUpTo(ws, |ws|).Valid? && !t.IsBase() && ValidateTerm(t, ws, |ws| - 1).Valid?
    requires FromGrammar(t) && forall w :: w in ws ==> !w.flag
    ensures t.partitionBy.Some? ==> t.partitionBy.value == []
    ensures
      var r := RewriteFrom(t, t.windowName, ws, |ws| - 1);
      r.Some? && (t.windowFrame.Some? ==> r.value.windowFrame == t.windowFrame)
  {
    RewriteIsLookup(t, ws);
    var j := Lookup(ws, t.windowName);
    var k :| 0 <= k < |ws| && ws[k].asWindowName == t.windowName && Conflict(t, ws[k]) == None;
    LookupIs(ws, k);
    InheritsFromDeepest(t, Chain(ws, j));
    if t.windowFrame.Some? {
      ChainHasNoFrames(ws, j);
      DeepestOfNone(t.windowFrame, Frames(Chain(ws, j)));
    }
  }
}
