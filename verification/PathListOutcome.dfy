/**
 Which texts the reader of path lists accepts, refuses with an error, or slices out of range on
 (`ParseAndValidatePathList` in algebra/path.go), decided from the text and the length of the query context.
 */
module PathListOutcome {
  import opened PathText
  import opened PathList

  // ---- What the text says at a position

  predicate Plain(s: string, i: nat, c: char)
    requires i < |s|
  {
    !Ticks(s, i) && s[i] == c
  }

  /** There is nothing but spaces between the last delimiter and `i`. */
  predicate Blank(s: string, i: nat)
    requires i <= |s|
  {
    || i == 0
    || Plain(s, i - 1, ':') || Plain(s, i - 1, '.') || Plain(s, i - 1, ',')
    || (!Ticks(s, i - 1) && IsSpace(s[i - 1]) && Blank(s, i - 1))
  }

  /** A closing back tick, or a space after an element, comes right before `i`. */
  predicate Sealed(s: string, i: nat)
    requires i <= |s|
  {
    i > 0 && if Ticks(s, i - 1) then s[i - 1] == '`' else IsSpace(s[i - 1]) && !Blank(s, i - 1)
  }

  /** The dots since the last comma. */
  function Dots(s: string, i: nat): nat
    requires i <= |s|
  {
    if i == 0 || Plain(s, i - 1, ',') then 0 else Dots(s, i - 1) + if Plain(s, i - 1, '.') then 1 else 0
  }

  /** The element before `i` is a pair of back ticks, perhaps followed by spaces. */
  predicate EmptyQuoted(s: string, i: nat)
    requires i <= |s|
  {
    i > 0 && if Ticks(s, i - 1) then s[i - 1] == '`' && i >= 2 && s[i - 2] == '`' else IsSpace(s[i - 1]) && EmptyQuoted(s, i - 1)
  }

  /** The last colon since the last comma ends a name that is not empty. */
  predicate Named(s: string, i: nat)
    requires i <= |s|
  {
    i > 0 && !Plain(s, i - 1, ',') && if Plain(s, i - 1, ':') then !EmptyQuoted(s, i - 1) else Named(s, i - 1)
  }

  /** The number of parts of a path that ends at `i`; the namespace is one of them even when it is not written. */
  function PartCount(s: string, i: nat): nat
    requires i <= |s|
  {
    if Dots(s, i) == 0 then if Blank(s, i) then 0 else 2 else Dots(s, i) + if Blank(s, i) then 1 else 2
  }

  /** A path of `count` parts, with or without a namespace, that a query context of `n` elements does not complete. */
  predicate Refused(count: nat, named: bool, n: nat) {
    match count
    case 2 => !named && (n == 2 || n >= 4)
    case 3 => named || n != 2
    case 4 => false
    case _ => true
  }

  /** The text goes wrong at `i`. */
  predicate Offence(s: string, i: nat, n: nat)
    requires i < |s|
  {
    if s[i] == '`' then Sealed(s, i) || !(Ticks(s, i) || Blank(s, i))
    else if Ticks(s, i) then false
    else if s[i] == ':' then Blank(s, i) || Dots(s, i) > 0
    else if s[i] == '.' then Blank(s, i)
    else if s[i] == ',' then Refused(PartCount(s, i), Named(s, i), n)
    else !IsSpace(s[i]) && Sealed(s, i)
  }

  /** A dot, or a colon before any dot, with no element before it. */
  predicate BareSeparator(s: string, i: nat)
    requires i < |s|
  {
    Blank(s, i) && (Plain(s, i, '.') || (Plain(s, i, ':') && Dots(s, i) == 0))
  }

  ghost predicate NoOffence(s: string, i: nat, n: nat) {
    forall j :: i <= j < |s| ==> !Offence(s, j, n)
  }

  /** From `i` on, the first offence is a separator with no element before it. */
  ghost predicate BreaksAtSeparator(s: string, i: nat, n: nat) {
    exists j :: i <= j < |s| && Offence(s, j, n) && BareSeparator(s, j) && forall k :: i <= k < j ==> !Offence(s, k, n)
  }

  // ---- The scan follows the text

  ghost predicate Tracks(s: string, st: ListScan, i: nat) {
    && i <= |s| && st.quotes == Ticks(s, i) && st.mustBeDelim == Sealed(s, i)
    && (if st.quotes then i > 0 && (st.start + 1 == i <==> s[i - 1] == '`')
        else (st.end == -1 <==> Blank(s, i)) && (st.end != -1 ==> st.start < i && (st.start == st.end <==> EmptyQuoted(s, i))))
    && |st.parts| == (if Dots(s, i) == 0 then 0 else Dots(s, i) + 1)
    && (st.namespace != "" <==> Named(s, i)) && (st.parts != [] ==> st.parts[0] == st.namespace)
  }

  lemma {:induction false} NextQuotes(s: string, i: nat)
    requires i < |s|
    ensures Ticks(s, i + 1) == if s[i] == '`' then !Ticks(s, i) else Ticks(s, i)
    ensures Sealed(s, i + 1) == if Ticks(s, i) then s[i] == '`' else IsSpace(s[i]) && !Blank(s, i)
  {
  }

  lemma {:induction false} NextElement(s: string, i: nat)
    requires i < |s|
    ensures Blank(s, i + 1) <==> !Ticks(s, i) && (s[i] == ':' || s[i] == '.' || s[i] == ',' || (IsSpace(s[i]) && Blank(s, i)))
    ensures EmptyQuoted(s, i + 1) == if Ticks(s, i) then s[i] == '`' && i > 0 && s[i - 1] == '`' else IsSpace(s[i]) && EmptyQuoted(s, i)
  {
  }

  lemma {:induction false} NextPath(s: string, i: nat)
    requires i < |s|
    ensures Dots(s, i + 1) == if Plain(s, i, ',') then 0 else Dots(s, i) + if Plain(s, i, '.') then 1 else 0
    ensures Named(s, i + 1) <==> !Plain(s, i, ',') && if Plain(s, i, ':') then !EmptyQuoted(s, i) else Named(s, i)
  {
  }

  lemma {:induction false} SeparatorsAreNoSpaces()
    ensures !IsSpace(':') && !IsSpace('.') && !IsSpace(',') && !IsSpace('`')
  {
  }

  /** `Resolve` looks at the number of parts, at whether there is a namespace, and at the length of the context. */
  lemma {:induction false} ResolveExactly(parts: seq<string>, dn: string, qc: Path)
    requires |parts| != 1
    ensures var r := Resolve(parts, dn, qc); !r.Fault? && (r.Paths? <==> !Refused(|parts|, parts != [] && parts[0] != "", |qc|))
  {
  }

  lemma {:induction false} TickTracks(s: string, st: ListScan, i: nat, dn: string, qc: Path)
    requires i < |s| && InRange(st, i) && Tracks(s, st, i) && s[i] == '`'
    ensures
      var n := ListStep(s, st, i, dn, qc);
      if Offence(s, i, |qc|) then n.Stop? && n.r.Error? else n.Go? && Tracks(s, n.st, i + 1)
  {
    hide Ticks, Blank, Sealed, Dots, EmptyQuoted, Named, IsSpace;
    SeparatorsAreNoSpaces();
    NextQuotes(s, i);
    NextElement(s, i);
    NextPath(s, i);
  }

  lemma {:induction false} QuotedTracks(s: string, st: ListScan, i: nat, dn: string, qc: Path)
    requires i < |s| && InRange(st, i) && Tracks(s, st, i) && s[i] != '`' && st.quotes
    ensures
      var n := ListStep(s, st, i, dn, qc);
      !Offence(s, i, |qc|) && n.Go? && Tracks(s, n.st, i + 1)
  {
    hide Ticks, Blank, Sealed, Dots, EmptyQuoted, Named, IsSpace;
    NextQuotes(s, i);
    NextElement(s, i);
    NextPath(s, i);
  }

  lemma {:induction false} SeparatorTracks(s: string, st: ListScan, i: nat, dn: string, qc: Path)
    requires i < |s| && InRange(st, i) && Tracks(s, st, i) && (s[i] == ':' || s[i] == '.') && !st.quotes
    ensures
      var n := ListStep(s, st, i, dn, qc);
      if Offence(s, i, |qc|) then n.Stop? && !n.r.Paths? && (n.r.Fault? <==> BareSeparator(s, i)) else n.Go? && Tracks(s, n.st, i + 1)
  {
    hide Ticks, Blank, Sealed, Dots, EmptyQuoted, Named, IsSpace;
    SeparatorsAreNoSpaces();
    NextQuotes(s, i);
    NextElement(s, i);
    NextPath(s, i);
  }

  lemma {:induction false} CommaTracks(s: string, st: ListScan, i: nat, dn: string, qc: Path)
    requires i < |s| && InRange(st, i) && Tracks(s, st, i) && s[i] == ',' && !st.quotes
    ensures
      var n := ListStep(s, st, i, dn, qc);
      if Offence(s, i, |qc|) then n.Stop? && !n.r.Paths? && !n.r.Fault? else n.Go? && Tracks(s, n.st, i + 1)
  {
    hide Ticks, Blank, Sealed, Dots, EmptyQuoted, Named, IsSpace, Resolve;
    SeparatorsAreNoSpaces();
    NextQuotes(s, i);
    NextElement(s, i);
    NextPath(s, i);
    ResolveExactly(if st.start != i then Push(st, s[st.start..st.end]) else st.parts, dn, qc);
  }

  lemma {:induction false} OtherTracks(s: string, st: ListScan, i: nat, dn: string, qc: Path)
    requires i < |s| && InRange(st, i) && Tracks(s, st, i) && s[i] !in {'`', ':', '.', ','} && !st.quotes
    ensures
      var n := ListStep(s, st, i, dn, qc);
      if Offence(s, i, |qc|) then n.Stop? && n.r.Error? else n.Go? && Tracks(s, n.st, i + 1)
  {
    hide Ticks, Blank, Sealed, Dots, EmptyQuoted, Named, IsSpace;
    NextQuotes(s, i);
    NextElement(s, i);
    NextPath(s, i);
  }

  /** One character: the scan goes on exactly when the text does not go wrong, and slices out of range exactly at a bare separator. */
  lemma {:induction false} StepTracks(s: string, st: ListScan, i: nat, dn: string, qc: Path)
    requires i < |s| && InRange(st, i) && Tracks(s, st, i)
    ensures
      var n := ListStep(s, st, i, dn, qc);
      if Offence(s, i, |qc|) then n.Stop? && !n.r.Paths? && (n.r.Fault? <==> BareSeparator(s, i)) else n.Go? && Tracks(s, n.st, i + 1)
  {
    hide ListStep, Offence, InRange;
    assert st.quotes == Ticks(s, i);
    assert BareSeparator(s, i) ==> !Ticks(s, i) && (s[i] == ':' || s[i] == '.');
    hide Tracks, BareSeparator;
    if s[i] == '`' {
      TickTracks(s, st, i, dn, qc);
    } else if st.quotes {
      QuotedTracks(s, st, i, dn, qc);
    } else if s[i] == ':' || s[i] == '.' {
      SeparatorTracks(s, st, i, dn, qc);
    } else if s[i] == ',' {
      CommaTracks(s, st, i, dn, qc);
    } else {
      OtherTracks(s, st, i, dn, qc);
    }
  }

  lemma {:induction false} OutcomeFrom(s: string, st: ListScan, i: nat, dn: string, qc: Path)
    requires i <= |s| && InRange(st, i) && Tracks(s, st, i)
    ensures
      var r := ListFrom(s, st, i, dn, qc);
      && (r.Fault? <==> BreaksAtSeparator(s, i, |qc|))
      && (!r.Internal? ==> (r.Paths? <==> NoOffence(s, i, |qc|) && !Ticks(s, |s|)))
    decreases |s| - i
  {
    hide ListStep, Offence, InRange, BareSeparator, Ticks;
    ListFromUnfolds(s, st, i, dn, qc);
    if i < |s| {
      StepTracks(s, st, i, dn, qc);
      var n := ListStep(s, st, i, dn, qc);
      if n.Go? {
        OutcomeFrom(s, n.st, i + 1, dn, qc);
        LaterBreak(s, i, |qc|);
      } else if n.r.Fault? {
        assert Offence(s, i, |qc|) && BareSeparator(s, i);
      }
    }
  }

  lemma {:induction false} LaterBreak(s: string, i: nat, n: nat)
    requires i < |s| && !Offence(s, i, n)
    ensures BreaksAtSeparator(s, i, n) <==> BreaksAtSeparator(s, i + 1, n)
    ensures NoOffence(s, i, n) <==> NoOffence(s, i + 1, n)
  {
    hide Offence, BareSeparator;
    if BreaksAtSeparator(s, i, n) {
      var j :| i <= j < |s| && Offence(s, j, n) && BareSeparator(s, j) && forall k :: i <= k < j ==> !Offence(s, k, n);
      assert j != i;
    }
    if BreaksAtSeparator(s, i + 1, n) {
      var j :| i + 1 <= j < |s| && Offence(s, j, n) && BareSeparator(s, j) && forall k :: i + 1 <= k < j ==> !Offence(s, k, n);
      assert forall k :: i <= k < j ==> !Offence(s, k, n);
    }
  }

  // ---- The outcome of any text

  lemma {:induction false} StartTracks(s: string)
    ensures Tracks(s, EMPTY, 0)
  {
  }

  lemma {:induction false} CommasAtTheEnd(s: string, n: nat)
    requires |s| >= 2 && s[|s| - 1] == ',' && s[|s| - 2] == ','
    ensures !NoOffence(s, 0, n) || Ticks(s, |s|)
  {
    var i := |s| - 1;
    NextQuotes(s, i);
    NextQuotes(s, i - 1);
    NextElement(s, i - 1);
    NextPath(s, i - 1);
    assert !Ticks(s, i) ==> Offence(s, i, n);
  }

  /** A text is accepted if and only if it goes wrong nowhere and its back ticks are closed. */
  lemma {:induction false} AcceptedExactly(pathsStr: string, defaultNamespace: string, queryContext: string)
    ensures
      var s, n := TrimRight(TrimLeft(pathsStr)) + ",", |Context(defaultNamespace, queryContext)|;
      ParseList(pathsStr, defaultNamespace, queryContext).Paths? <==> NoOffence(s, 0, n) && !Ticks(s, |s|)
  {
    hide ListStep, Offence, Ticks, Context, BreaksAtSeparator, NoOffence;
    var t, qc := TrimRight(TrimLeft(pathsStr)), Context(defaultNamespace, queryContext);
    StartTracks(t + ",");
    OutcomeFrom(t + ",", EMPTY, 0, defaultNamespace, qc);
    ListIsNeverInternal(pathsStr, defaultNamespace, queryContext);
    if t != "" && t[|t| - 1] == ',' {
      CommasAtTheEnd(t + ",", |qc|);
    }
  }

  /** A text makes the reader slice out of range if and only if it does not end in a comma and first goes wrong at a separator with no element before it. */
  lemma {:induction false} FaultsExactly(pathsStr: string, defaultNamespace: string, queryContext: string)
    ensures
      var t, n := TrimRight(TrimLeft(pathsStr)), |Context(defaultNamespace, queryContext)|;
      ParseList(pathsStr, defaultNamespace, queryContext).Fault?
      <==> (t == "" || t[|t| - 1] != ',') && BreaksAtSeparator(t + ",", 0, n)
  {
    hide ListStep, Offence, Ticks, Context, BreaksAtSeparator, NoOffence;
    var t, qc := TrimRight(TrimLeft(pathsStr)), Context(defaultNamespace, queryContext);
    StartTracks(t + ",");
    OutcomeFrom(t + ",", EMPTY, 0, defaultNamespace, qc);
  }

  /** A separator with nothing before it is the case the original does not guard. */
  lemma {:induction false} SeparatorWithoutElementFaults(defaultNamespace: string, queryContext: string)
    ensures ParseList(":a", defaultNamespace, queryContext).Fault?
  {
    var s := ":a";
    SeparatorsAreNoSpaces();
    assert !IsSpace('a');
    assert TrimRight(TrimLeft(s)) == s;
    assert Offence(s + ",", 0, |Context(defaultNamespace, queryContext)|) && BareSeparator(s + ",", 0);
    FaultsExactly(s, defaultNamespace, queryContext);
  }

  // ---- Which names an accepted text keeps

  /** The names of one path as they are written; the first `colons` of them end in a colon, the others in a dot or comma. */
  datatype Names = Names(written: seq<string>, colons: nat)

  /** The parts the reader makes of them: of the names before a colon only the last counts. */
  function PartsOf(h: Names): seq<string>
    requires h.colons <= |h.written|
  {
    [if h.colons == 0 then "" else h.written[h.colons - 1]] + h.written[h.colons..]
  }

  /** The colons since the last comma. */
  function Colons(s: string, i: nat): nat
    requires i <= |s|
  {
    if i == 0 || Plain(s, i - 1, ',') then 0 else Colons(s, i - 1) + if Plain(s, i - 1, ':') then 1 else 0
  }

  /** The names at the next character. */
  function Heard(s: string, st: ListScan, h: Names, i: nat): Names
    requires i < |s| && InRange(st, i)
  {
    if st.quotes || st.end == -1 || s[i] !in {':', '.', ','} then if s[i] == ',' && !st.quotes then Names([], 0) else h
    else if s[i] == ':' then Names(h.written + [s[st.start..st.end]], h.colons + 1)
    else if s[i] == '.' then Names(h.written + [s[st.start..st.end]], h.colons)
    else Names([], 0)
  }

  /** The names at a comma, with the element that it ends. */
  function Finished(s: string, st: ListScan, h: Names, i: nat): Names
    requires i < |s| && InRange(st, i) && !st.quotes
  {
    if st.start != i then Names(h.written + [s[st.start..st.end]], h.colons) else h
  }

  /** The names of all paths that end from `i` on. */
  function AllNames(s: string, st: ListScan, h: Names, i: nat, dn: string, qc: Path): seq<Names>
    requires i <= |s| && InRange(st, i)
    decreases |s| - i
  {
    if i == |s| then []
    else
      var now := if s[i] == ',' && !st.quotes then [Finished(s, st, h, i)] else [];
      match ListStep(s, st, i, dn, qc)
      case Stop(_) => now
      case Go(st') => now + AllNames(s, st', Heard(s, st, h, i), i + 1, dn, qc)
  }

  ghost predicate Agrees(st: ListScan, h: Names) {
    && h.colons <= |h.written|
    && st.namespace == (if h.colons == 0 then "" else h.written[h.colons - 1])
    && if st.parts == [] then |h.written| == h.colons else |h.written| > h.colons && st.parts == PartsOf(h)
  }

  lemma {:induction false} PushAgrees(st: ListScan, h: Names, e: string)
    requires Agrees(st, h)
    ensures Push(st, e) == PartsOf(Names(h.written + [e], h.colons))
  {
  }

  lemma {:induction false} StepAgrees(s: string, st: ListScan, h: Names, i: nat, dn: string, qc: Path)
    requires i < |s| && InRange(st, i) && Agrees(st, h)
    ensures var n := ListStep(s, st, i, dn, qc); n.Go? ==> Agrees(n.st, Heard(s, st, h, i))
  {
    hide Resolve, IsSpace;
    if !st.quotes && st.end != -1 {
      PushAgrees(st, h, s[st.start..st.end]);
    }
  }

  /** The paths that the names of a text stand for. */
  function Resolved(hs: seq<Names>, dn: string, qc: Path): seq<Path>
    requires forall k :: 0 <= k < |hs| ==> hs[k].colons <= |hs[k].written|
  {
    if hs == [] then []
    else
      var r := Resolve(PartsOf(hs[0]), dn, qc);
      (if r.Paths? then r.paths else []) + Resolved(hs[1..], dn, qc)
  }

  lemma {:induction false} FinishedAgrees(s: string, st: ListScan, h: Names, i: nat)
    requires i < |s| && InRange(st, i) && !st.quotes && Agrees(st, h)
    ensures Finished(s, st, h, i).colons <= |Finished(s, st, h, i).written|
    ensures st.start != i ==> Push(st, s[st.start..st.end]) == PartsOf(Finished(s, st, h, i))
    ensures st.start == i && st.parts != [] ==> st.parts == PartsOf(Finished(s, st, h, i))
  {
    if st.start != i {
      PushAgrees(st, h, s[st.start..st.end]);
    }
  }

  ghost predicate Formed(hs: seq<Names>) {
    forall k :: 0 <= k < |hs| ==> hs[k].colons <= |hs[k].written|
  }

  lemma {:induction false} ResolvedFirst(h: Names, hs: seq<Names>, dn: string, qc: Path)
    requires h.colons <= |h.written| && Formed(hs)
    ensures Formed([h] + hs)
    ensures Resolve(PartsOf(h), dn, qc).Paths? ==> Resolved([h] + hs, dn, qc) == Resolve(PartsOf(h), dn, qc).paths + Resolved(hs, dn, qc)
  {
    hide Resolve, PartsOf;
    assert ([h] + hs)[1..] == hs;
  }

  lemma {:induction false} NamesUnfold(s: string, st: ListScan, h: Names, i: nat, dn: string, qc: Path)
    requires i < |s| && InRange(st, i)
    ensures
      var now := if s[i] == ',' && !st.quotes then [Finished(s, st, h, i)] else [];
      var n := ListStep(s, st, i, dn, qc);
      AllNames(s, st, h, i, dn, qc) == if n.Go? then now + AllNames(s, n.st, Heard(s, st, h, i), i + 1, dn, qc) else now
  {
    hide Finished, Heard, ListStep;
  }

  lemma {:induction false} CommaReads(s: string, st: ListScan, h: Names, i: nat, dn: string, qc: Path)
    requires i < |s| && InRange(st, i) && s[i] == ',' && !st.quotes && Agrees(st, h)
    ensures Finished(s, st, h, i).colons <= |Finished(s, st, h, i).written|
    ensures
      var n, r := ListStep(s, st, i, dn, qc), Resolve(PartsOf(Finished(s, st, h, i)), dn, qc);
      n.Go? ==> r.Paths? && n.st.paths == st.paths + r.paths
  {
    FinishedAgrees(s, st, h, i);
    assert Resolve([], dn, qc) == Error("empty path");
    hide Resolve, PartsOf, Finished, Agrees;
  }

  lemma {:induction false} OtherReads(s: string, st: ListScan, i: nat, dn: string, qc: Path)
    requires i < |s| && InRange(st, i) && (s[i] != ',' || st.quotes)
    ensures var n := ListStep(s, st, i, dn, qc); if n.Go? then n.st.paths == st.paths else !n.r.Paths?
  {
    hide IsSpace;
  }

  /** What the reader makes of a text is decided by the names alone. */
  lemma {:induction false} ReadFrom(s: string, st: ListScan, h: Names, i: nat, dn: string, qc: Path)
    requires i <= |s| && InRange(st, i) && Agrees(st, h)
    ensures Formed(AllNames(s, st, h, i, dn, qc))
    ensures
      var r := ListFrom(s, st, i, dn, qc);
      r.Paths? ==> r.paths == st.paths + Resolved(AllNames(s, st, h, i, dn, qc), dn, qc)
    decreases |s| - i
  {
    hide Agrees, InRange, PartsOf, Resolve, ListStep, Finished, Heard;
    ListFromUnfolds(s, st, i, dn, qc);
    if i < |s| {
      StepAgrees(s, st, h, i, dn, qc);
      NamesUnfold(s, st, h, i, dn, qc);
      var n := ListStep(s, st, i, dn, qc);
      if n.Go? {
        ReadFrom(s, n.st, Heard(s, st, h, i), i + 1, dn, qc);
      }
      if s[i] == ',' && !st.quotes {
        CommaReads(s, st, h, i, dn, qc);
        CommaNeverAccepts(s, st, i, dn, qc);
        if n.Go? {
          ResolvedFirst(Finished(s, st, h, i), AllNames(s, n.st, Heard(s, st, h, i), i + 1, dn, qc), dn, qc);
        }
      } else {
        OtherReads(s, st, i, dn, qc);
        if n.Go? {
          var rest := AllNames(s, n.st, Heard(s, st, h, i), i + 1, dn, qc);
          assert [] + rest == rest;
        }
      }
    }
  }

  lemma {:induction false} CommaNeverAccepts(s: string, st: ListScan, i: nat, dn: string, qc: Path)
    requires i < |s| && InRange(st, i) && s[i] == ',' && !st.quotes
    ensures var n := ListStep(s, st, i, dn, qc); n.Stop? ==> !n.r.Paths?
  {
    hide Resolve;
  }

  // ---- The names and the colons of the text

  lemma {:induction false} NextColons(s: string, i: nat)
    requires i < |s|
    ensures Colons(s, i + 1) == if Plain(s, i, ',') then 0 else Colons(s, i) + if Plain(s, i, ':') then 1 else 0
  {
  }

  lemma {:induction false} HeardColons(s: string, st: ListScan, h: Names, i: nat, dn: string, qc: Path)
    requires i < |s| && InRange(st, i) && Tracks(s, st, i) && h.colons == Colons(s, i) && ListStep(s, st, i, dn, qc).Go?
    ensures Heard(s, st, h, i).colons == Colons(s, i + 1)
  {
    hide IsSpace, Resolve, Colons;
    NextColons(s, i);
    SeparatorsAreNoSpaces();
  }

  /** No colon from `i` on follows another of the same path. */
  ghost predicate OneColonEach(s: string, i: nat) {
    forall j :: i <= j < |s| && Plain(s, j, ':') ==> Colons(s, j) == 0
  }

  ghost predicate AllKept(hs: seq<Names>) {
    forall k :: 0 <= k < |hs| ==> hs[k].colons <= 1
  }

  lemma {:induction false} KeptFrom(s: string, st: ListScan, h: Names, i: nat, dn: string, qc: Path)
    requires i <= |s| && InRange(st, i) && Tracks(s, st, i) && h.colons == Colons(s, i)
    requires s != "" && s[|s| - 1] == ',' && ListFrom(s, st, i, dn, qc).Paths?
    ensures AllKept(AllNames(s, st, h, i, dn, qc)) <==> Colons(s, i) <= 1 && OneColonEach(s, i)
    decreases |s| - i
  {
    hide InRange, ListStep, Heard, Colons, Tracks, Ticks, OneColonEach, AllKept;
    ListFromUnfolds(s, st, i, dn, qc);
    if i < |s| {
      StepTracks(s, st, i, dn, qc);
      NamesUnfold(s, st, h, i, dn, qc);
      NextColons(s, i);
      TracksQuotes(s, st, i);
      HeardColons(s, st, h, i, dn, qc);
      var n, h' := ListStep(s, st, i, dn, qc), Heard(s, st, h, i);
      KeptFrom(s, n.st, h', i + 1, dn, qc);
      OneColonStep(s, i);
      if Plain(s, i, ',') {
        FirstKept(Finished(s, st, h, i), AllNames(s, n.st, h', i + 1, dn, qc));
      } else {
        assert [] + AllNames(s, n.st, h', i + 1, dn, qc) == AllNames(s, n.st, h', i + 1, dn, qc);
      }
    } else {
      TracksQuotes(s, st, i);
      NextColons(s, i - 1);
      NextQuotes(s, i - 1);
      NoneLeft(s);
    }
  }

  lemma {:induction false} FirstKept(h: Names, hs: seq<Names>)
    ensures AllKept([h] + hs) <==> h.colons <= 1 && AllKept(hs)
  {
    assert ([h] + hs)[0] == h;
    assert forall k :: 0 <= k < |hs| ==> ([h] + hs)[k + 1] == hs[k];
  }

  lemma {:induction false} OneColonStep(s: string, i: nat)
    requires i < |s|
    ensures OneColonEach(s, i) <==> OneColonEach(s, i + 1) && (Plain(s, i, ':') ==> Colons(s, i) == 0)
  {
    hide Plain, Colons;
  }

  lemma {:induction false} NoneLeft(s: string)
    ensures OneColonEach(s, |s|) && AllKept([])
  {
  }

  lemma {:induction false} TracksQuotes(s: string, st: ListScan, i: nat)
    requires Tracks(s, st, i)
    ensures st.quotes == Ticks(s, i)
  {
  }

  /** The parts are the names as written, after an empty namespace if none is written. */
  predicate KeepsNames(h: Names)
    requires h.colons <= |h.written|
  {
    PartsOf(h) == (if h.colons == 0 then [""] else []) + h.written
  }

  lemma {:induction false} KeepsNamesExactly(h: Names)
    requires h.colons <= |h.written|
    ensures KeepsNames(h) <==> h.colons <= 1
  {
    if h.colons > 1 {
      assert |PartsOf(h)| < |h.written|;
    } else if h.colons == 1 {
      assert h.written == [h.written[0]] + h.written[1..];
    }
  }

  /** An accepted text stands for the paths of its names, and keeps all of them if and only if no path has two colons outside back ticks. */
  lemma {:induction false} NamesAreKeptExactly(pathsStr: string, defaultNamespace: string, queryContext: string)
    requires ParseList(pathsStr, defaultNamespace, queryContext).Paths?
    ensures
      var s, qc := TrimRight(TrimLeft(pathsStr)) + ",", Context(defaultNamespace, queryContext);
      var hs := AllNames(s, EMPTY, Names([], 0), 0, defaultNamespace, qc);
      && Formed(hs) && ParseList(pathsStr, defaultNamespace, queryContext) == Paths(Resolved(hs, defaultNamespace, qc))
      && ((forall k :: 0 <= k < |hs| ==> KeepsNames(hs[k])) <==> OneColonEach(s, 0))
  {
    hide ListStep, Context, KeepsNames, Resolve, IsSpace, Plain, Colons;
    var s, qc := TrimRight(TrimLeft(pathsStr)) + ",", Context(defaultNamespace, queryContext);
    var hs := AllNames(s, EMPTY, Names([], 0), 0, defaultNamespace, qc);
    StartTracks(s);
    StartColons(s);
    ReadFrom(s, EMPTY, Names([], 0), 0, defaultNamespace, qc);
    KeptFrom(s, EMPTY, Names([], 0), 0, defaultNamespace, qc);
    forall k | 0 <= k < |hs| ensures KeepsNames(hs[k]) <==> hs[k].colons <= 1 {
      KeepsNamesExactly(hs[k]);
    }
  }

  lemma {:induction false} OneStep(s: string, st: ListScan, i: nat, st': ListScan, dn: string, qc: Path)
    requires i < |s| && InRange(st, i) && ListStep(s, st, i, dn, qc) == Go(st')
    ensures ListFrom(s, st, i, dn, qc) == ListFrom(s, st', i + 1, dn, qc)
  {
    hide ListStep;
  }

  /** A plain letter and the separator after it. */
  lemma {:induction false} LetterAndColon(s: string, st: ListScan, i: nat, dn: string, qc: Path)
    requires i + 1 < |s| && FreshElement(st, i) && st.parts == [] && s[i] in {'a', 'b'} && s[i + 1] == ':'
    ensures ListFrom(s, st, i, dn, qc) == ListFrom(s, st.(namespace := [s[i]], start := i + 2), i + 2, dn, qc)
  {
    assert s[i..i + 1] == [s[i]];
    OneStep(s, st, i, st.(end := i + 1), dn, qc);
    OneStep(s, st.(end := i + 1), i + 1, st.(namespace := [s[i]], start := i + 2), dn, qc);
  }

  lemma {:induction false} ReadRepeated(dn: string, qc: Path)
    ensures ListFrom("a:b:c,", EMPTY, 0, dn, qc) == Paths([["b", "c"]])
  {
    var s := "a:b:c,";
    LetterAndColon(s, EMPTY, 0, dn, qc);
    var st := EMPTY.(namespace := "a", start := 2);
    LetterAndColon(s, st, 2, dn, qc);
    st := EMPTY.(namespace := "b", start := 4);
    assert s[4..5] == "c";
    OneStep(s, st, 4, st.(end := 5), dn, qc);
    assert Push(st, "c") == ["b", "c"] && Resolve(["b", "c"], dn, qc) == Paths([["b", "c"]]);
    assert [] + [["b", "c"]] == [["b", "c"]];
    OneStep(s, st.(end := 5), 5, EMPTY.(paths := [["b", "c"]], start := 6), dn, qc);
    ListFromUnfolds(s, EMPTY.(paths := [["b", "c"]], start := 6), 6, dn, qc);
  }

  /** The text a:b:c is accepted under any query context, and a is dropped. */
  lemma {:induction false} RepeatedNamespaceIsDropped(defaultNamespace: string, queryContext: string)
    ensures ParseList("a:b:c", defaultNamespace, queryContext) == Paths([["b", "c"]])
  {
    hide Context, ListStep;
    assert !IsSpace('a') && !IsSpace('c');
    assert TrimRight(TrimLeft("a:b:c")) == "a:b:c" && "a:b:c" + "," == "a:b:c,";
    ReadRepeated(defaultNamespace, Context(defaultNamespace, queryContext));
  }

  lemma {:induction false} StartColons(s: string)
    ensures Colons(s, 0) == 0
  {
  }
}
