/**
 Reading keyspace paths back (`parsePathOrContext` in algebra/path.go): a scan over the
 characters that cuts elements at colons and dots outside back ticks.
 */
module PathScanner {
  import opened PathText

  /** The local variables of the scan. */
  datatype Scan = Scan(elements: seq<string>, hasNamespace: bool, start: nat, end: nat, inBackTicks: bool, endBackTicks: bool)

  const INITIAL := Scan([], false, 0, 0, false, false)

  /** Before character `i` the positions allow the next slice. */
  ghost predicate Safe(st: Scan, i: nat) {
    && st.start <= i && st.end <= i
    && (st.endBackTicks ==> st.start <= st.end && !st.inBackTicks)
    && (st.hasNamespace <==> st.elements != [])
  }

  /** The element that would be cut at position `i`. */
  function Token(s: string, st: Scan, i: nat): string
    requires Safe(st, i) && i <= |s|
  {
    if st.endBackTicks then s[st.start..st.end] else s[st.start..i]
  }

  /** One character. */
  function Step(s: string, st: Scan, i: nat): (st': Scan)
    requires Safe(st, i) && i < |s|
    ensures Safe(st', i + 1)
  {
    match s[i]
    case '`' =>
      if !st.inBackTicks then st.(inBackTicks := true, start := i + 1, endBackTicks := false)
      else st.(inBackTicks := false, end := i, endBackTicks := true)
    case ':' =>
      if st.inBackTicks then st
      else
        var end := if st.endBackTicks then st.end else i;
        st.(elements := st.elements + [s[st.start..end]], end := end, start := i + 1, endBackTicks := false, hasNamespace := true)
    case '.' =>
      if st.inBackTicks then st
      else
        var end := if st.endBackTicks then st.end else i;
        var before := if st.hasNamespace then st.elements else st.elements + [""];
        st.(elements := before + [s[st.start..end]], end := end, start := i + 1, endBackTicks := false, hasNamespace := true)
    case _ => st.(endBackTicks := false)
  }

  /** Characters `i..j`. */
  function Run(s: string, st: Scan, i: nat, j: nat): (st': Scan)
    requires i <= j <= |s| && Safe(st, i)
    ensures Safe(st', j)
    decreases j - i
  {
    if i == j then st else Run(s, Step(s, st, i), i + 1, j)
  }

  /** After the last character. */
  function Finish(s: string, st: Scan): (r: Path)
    requires Safe(st, |s|)
    ensures r != []
  {
    var elements := if st.hasNamespace then st.elements else st.elements + [""];
    if st.start < |s| then
      elements + [if st.start < st.end then s[st.start..st.end] else s[st.start..]]
    else elements
  }

  function Parse(s: string): (r: Path)
    ensures r != []
  {
    Finish(s, Run(s, INITIAL, 0, |s|))
  }

  /** `parsePathOrContext`: no slice is out of range, whatever the string. */
  method ParsePathOrContext(queryContext: string) returns (elements: Path)
    ensures elements == Parse(queryContext)
  {
    elements := [];
    var hasNamespace, start, end, inBackTicks, endBackTicks := false, 0, 0, false, false;
    for i := 0 to |queryContext|
      invariant Safe(Scan(elements, hasNamespace, start, end, inBackTicks, endBackTicks), i)
      invariant Run(queryContext, Scan(elements, hasNamespace, start, end, inBackTicks, endBackTicks), i, |queryContext|)
             == Run(queryContext, INITIAL, 0, |queryContext|)
    {
      match queryContext[i]
      case '`' =>
        inBackTicks := !inBackTicks;
        if inBackTicks {
          start, endBackTicks := i + 1, false;
        } else {
          end, endBackTicks := i, true;
        }
      case ':' =>
        if !inBackTicks {
          if !endBackTicks {
            end := i;
          }
          elements := elements + [queryContext[start..end]];
          start, endBackTicks, hasNamespace := i + 1, false, true;
        }
      case '.' =>
        if !inBackTicks {
          if !hasNamespace {
            elements, hasNamespace := elements + [""], true;
          }
          if !endBackTicks {
            end := i;
          }
          elements := elements + [queryContext[start..end]];
          start, endBackTicks := i + 1, false;
        }
      case _ => endBackTicks := false;
    }
    if !hasNamespace {
      elements := elements + [""];
    }
    if start < |queryContext| {
      if start < end {
        elements := elements + [queryContext[start..end]];
      } else {
        elements := elements + [queryContext[start..]];
      }
    }
  }

  /** `ParseQueryContext`; the two contexts it treats apart are no exception. */
  function ParseQueryContext(queryContext: string): (r: Path)
    ensures r == Parse(queryContext)
  {
    ShortContexts();
    if queryContext == "" || queryContext == ":" then [""] else Parse(queryContext)
  }

  lemma {:induction false} ShortContexts()
    ensures Parse("") == [""] && Parse(":") == [""]
  {
    var s := ":";
    assert Run(s, INITIAL, 0, 1) == Run(s, Step(s, INITIAL, 0), 1, 1);
  }

  // ---- Pieces of text inside a string

  ghost predicate Has(s: string, i: nat, t: string) {
    i + |t| <= |s| && forall k :: i <= k < i + |t| ==> s[k] == t[k - i]
  }

  lemma {:induction false} HasConcat(s: string, i: nat, t: string, u: string)
    requires Has(s, i, t + u)
    ensures Has(s, i, t) && Has(s, i + |t|, u)
  {
    assert forall k :: i <= k < i + |t| ==> s[k] == (t + u)[k - i];
  }

  lemma {:induction false} HasSlice(s: string, i: nat, t: string)
    requires Has(s, i, t)
    ensures s[i..i + |t|] == t
  {
  }

  lemma {:induction false} RunSplits(s: string, st: Scan, i: nat, j: nat, k: nat)
    requires i <= j <= k <= |s| && Safe(st, i)
    ensures Run(s, st, i, k) == Run(s, Run(s, st, i, j), j, k)
    decreases j - i
  {
    if i < j {
      RunSplits(s, Step(s, st, i), i + 1, j, k);
    }
  }

  // ---- One printed element

  lemma {:induction false} RunInside(s: string, st: Scan, i: nat, j: nat)
    requires i <= j <= |s| && Safe(st, i) && st.inBackTicks
    requires forall k :: i <= k < j ==> s[k] != '`'
    ensures Run(s, st, i, j) == st
    decreases j - i
  {
    if i < j {
      RunInside(s, st, i + 1, j);
    }
  }

  lemma {:induction false} RunPlain(s: string, st: Scan, i: nat, j: nat)
    requires i <= j <= |s| && Safe(st, i) && !st.inBackTicks && !st.endBackTicks
    requires forall k :: i <= k < j ==> s[k] != '`' && s[k] != ':' && s[k] != '.'
    ensures Run(s, st, i, j) == st
    decreases j - i
  {
    if i < j {
      RunPlain(s, st, i + 1, j);
    }
  }

  /** A quoted element is cut out without its back ticks. */
  lemma {:induction false} RunQuoted(s: string, st: Scan, i: nat, e: string)
    requires Safe(st, i) && !st.inBackTicks && Has(s, i, "`" + e + "`") && '`' !in e
    ensures Run(s, st, i, i + |e| + 2) == st.(start := i + 1, end := i + 1 + |e|, endBackTicks := true)
  {
    var j := i + 1 + |e|;
    HasConcat(s, i, "`" + e, "`");
    HasConcat(s, i, "`", e);
    assert s[i] == '`' && s[j] == '`';
    var st1 := Step(s, st, i);
    RunInside(s, st1, i + 1, j);
    RunSplits(s, st1, i + 1, j, j + 1);
    assert Run(s, st1, j, j + 1) == Step(s, st1, j);
  }

  /** The element is printed in back ticks. */
  predicate Quoted(force: bool, e: string) {
    force || '.' in e
  }

  /** Not printed in back ticks, yet holding a colon: the scan would cut it. */
  predicate Cut(force: bool, e: string) {
    !Quoted(force, e) && ':' in e
  }

  function AfterElement(st: Scan, i: nat, quoted: bool, e: string): Scan {
    if quoted then st.(start := i + 1, end := i + 1 + |e|, endBackTicks := true) else st
  }

  /** At the beginning of an element. */
  ghost predicate Fresh(st: Scan, i: nat) {
    Safe(st, i) && st.start == i && !st.inBackTicks && !st.endBackTicks
  }

  lemma {:induction false} RunElement(s: string, st: Scan, i: nat, force: bool, e: string)
    requires Fresh(st, i) && Has(s, i, Shown(force, e)) && '`' !in e && !Cut(force, e)
    ensures
      var j := i + |Shown(force, e)|;
      var st' := AfterElement(st, i, Quoted(force, e), e);
      Run(s, st, i, j) == st' && Safe(st', j) && Token(s, st', j) == e
  {
    if Quoted(force, e) {
      RunQuoted(s, st, i, e);
      HasConcat(s, i, "`" + e, "`");
      HasConcat(s, i, "`", e);
      HasSlice(s, i + 1, e);
    } else {
      RunPlain(s, st, i, i + |e|);
      HasSlice(s, i, e);
    }
  }

  /** Having read elements `..k` of a path; an empty namespace shows up only at the first dot. */
  ghost predicate ReadSoFar(st: Scan, i: nat, p: Path, k: nat) {
    && Fresh(st, i) && 1 <= k <= |p|
    && if st.hasNamespace then st.elements == p[..k] else k == 1 && p[0] == ""
  }

  /** An element and its separator. */
  lemma {:induction false} RunOneMore(s: string, st: Scan, i: nat, force: bool, p: Path, k: nat)
    requires ReadSoFar(st, i, p, k) && k < |p| && Has(s, i, Shown(force, p[k]) + ".")
    requires '`' !in p[k] && !Cut(force, p[k])
    ensures var j := i + |Shown(force, p[k])| + 1; ReadSoFar(Run(s, st, i, j), j, p, k + 1)
  {
    hide Run, Shown;
    var j := i + |Shown(force, p[k])|;
    HasConcat(s, i, Shown(force, p[k]), ".");
    RunElement(s, st, i, force, p[k]);
    RunSplits(s, st, i, j, j + 1);
    assert s[j] == '.';
    RunOne(s, Run(s, st, i, j), j);
    assert p[..k + 1] == p[..k] + [p[k]];
  }

  /** What reading gives: an empty last element is lost, or comes out as a stray back tick. */
  function Reread(force: bool, p: Path): Path
    requires p != []
  {
    if p[|p| - 1] != "" then p else p[..|p| - 1] + if force then ["`"] else []
  }

  function Known(st: Scan): Path {
    if st.hasNamespace then st.elements else st.elements + [""]
  }

  lemma {:induction false} LastElement(s: string, st: Scan, i: nat, force: bool, e: string)
    requires Fresh(st, i) && Has(s, i, Shown(force, e)) && i + |Shown(force, e)| == |s|
    requires '`' !in e && !Cut(force, e)
    ensures Finish(s, Run(s, st, i, |s|)) == Known(st) + if e != "" then [e] else if force then ["`"] else []
  {
    RunElement(s, st, i, force, e);
    assert s[i..|s|] == s[i..];
    if e == "" && force {
      HasConcat(s, i, "`" + e, "`");
      assert s[i + 1..] == "`";
    }
  }

  lemma {:induction false} FinishElement(s: string, st: Scan, i: nat, force: bool, p: Path)
    requires |p| >= 2 && ReadSoFar(st, i, p, |p| - 1)
    requires var e := p[|p| - 1];
      Has(s, i, Shown(force, e)) && i + |Shown(force, e)| == |s| && '`' !in e && !Cut(force, e)
    ensures Finish(s, Run(s, st, i, |s|)) == Reread(force, p)
  {
    hide Run, Finish, Has, Shown;
    LastElement(s, st, i, force, p[|p| - 1]);
    assert p == p[..|p| - 1] + [p[|p| - 1]];
    assert Known(st) == p[..|p| - 1];
  }

  lemma {:induction false} ReadRest(s: string, st: Scan, i: nat, force: bool, p: Path, k: nat)
    requires ReadSoFar(st, i, p, k) && 1 <= k < |p|
    requires NoBackTick(p) && forall m :: 0 <= m < |p| ==> !Cut(force, p[m])
    requires var t := PrintFrom(force, false, p, k, |p| - 1); Has(s, i, t) && i + |t| == |s|
    ensures Finish(s, Run(s, st, i, |s|)) == Reread(force, p)
    decreases |p| - k
  {
    hide Run, Finish, Has, Shown;
    var shown := Shown(force, p[k]);
    if k == |p| - 1 {
      assert PrintFrom(force, false, p, k, |p| - 1) == shown + "" + "" == shown;
      FinishElement(s, st, i, force, p);
    } else {
      var rest := PrintFrom(force, false, p, k + 1, |p| - 1);
      HasConcat(s, i, shown + ".", rest);
      RunOneMore(s, st, i, force, p, k);
      var j := i + |shown| + 1;
      RunSplits(s, st, i, j, |s|);
      ReadRest(s, Run(s, st, i, j), j, force, p, k + 1);
    }
  }

  /** Reading what was printed, for any path of two or more elements none of which gets cut. */
  lemma {:induction false} ReadPrinted(force: bool, p: Path)
    requires |p| >= 2 && NoBackTick(p) && forall m :: 0 <= m < |p| ==> !Cut(force, p[m])
    ensures Parse(Print(force, p)) == Reread(force, p)
  {
    var s, n := Print(force, p), |p|;
    if p[0] == "" {
      ReadRest(s, INITIAL, 0, force, p, 1);
    } else {
      var shown, rest := Shown(force, p[0]), PrintFrom(force, false, p, 1, n - 1);
      assert s == shown + ":" + rest;
      HasConcat(s, 0, shown + ":", rest);
      RunNamespace(s, force, p);
      RunSplits(s, INITIAL, 0, |shown| + 1, |s|);
      ReadRest(s, Run(s, INITIAL, 0, |shown| + 1), |shown| + 1, force, p, 1);
    }
  }

  lemma {:induction false} RunNamespace(s: string, force: bool, p: Path)
    requires p != [] && '`' !in p[0] && !Cut(force, p[0]) && Has(s, 0, Shown(force, p[0]) + ":")
    ensures var j := |Shown(force, p[0])| + 1; ReadSoFar(Run(s, INITIAL, 0, j), j, p, 1)
  {
    var j := |Shown(force, p[0])|;
    HasConcat(s, 0, Shown(force, p[0]), ":");
    RunElement(s, INITIAL, 0, force, p[0]);
    RunSplits(s, INITIAL, 0, j, j + 1);
    var st := Run(s, INITIAL, 0, j);
    assert s[j] == ':';
    assert Run(s, st, j, j + 1) == Step(s, st, j);
    assert p[..1] == [p[0]];
  }

  // ---- What the scan of unforced text can never give

  /** An element that would be printed in back ticks if it holds a colon. */
  predicate Dotted(e: string) {
    ':' in e ==> '.' in e
  }

  ghost predicate AllDotted(p: Path) {
    forall m :: 0 <= m < |p| ==> Dotted(p[m])
  }

  ghost predicate Uncut(s: string, st: Scan, i: nat) {
    && i <= |s| && Safe(st, i) && !st.inBackTicks
    && (if st.endBackTicks then st.start < st.end else st.end <= st.start)
    && AllDotted(st.elements) && Dotted(Token(s, st, i))
  }

  lemma {:induction false} UncutStep(s: string, st: Scan, i: nat)
    requires i < |s| && Uncut(s, st, i) && s[i] != '`' && (st.endBackTicks ==> s[i] == ':' || s[i] == '.')
    ensures Uncut(s, Step(s, st, i), i + 1) && !Step(s, st, i).endBackTicks
    ensures s[i] == ':' || s[i] == '.' ==> Fresh(Step(s, st, i), i + 1)
  {
    var st' := Step(s, st, i);
    if s[i] != ':' && s[i] != '.' {
      assert s[st.start..i + 1] == s[st.start..i] + [s[i]];
    } else {
      hide Dotted;
      CutIsDotted(s, st, i);
      assert Token(s, st', i + 1) == "";
      assert Dotted("") by { NothingIsDotted(); }
    }
  }

  lemma {:induction false} NothingIsDotted()
    ensures Dotted("")
  {
  }

  /** The elements stay dotted when one more is cut. */
  lemma {:induction false} CutIsDotted(s: string, st: Scan, i: nat)
    requires i < |s| && Uncut(s, st, i) && (s[i] == ':' || s[i] == '.')
    ensures AllDotted(Step(s, st, i).elements)
  {
    hide Dotted;
    NothingIsDotted();
    assert Step(s, st, i).elements == (if s[i] == ':' || st.hasNamespace then st.elements else st.elements + [""]) + [Token(s, st, i)];
  }

  lemma {:induction false} UncutPlain(s: string, st: Scan, i: nat, j: nat)
    requires i <= j <= |s| && Uncut(s, st, i) && !st.endBackTicks
    requires forall k :: i <= k < j ==> s[k] != '`' && s[k] != '.'
    ensures Uncut(s, Run(s, st, i, j), j)
    decreases j - i
  {
    if i < j {
      UncutStep(s, st, i);
      UncutPlain(s, Step(s, st, i), i + 1, j);
    }
  }

  lemma {:induction false} UncutElement(s: string, st: Scan, i: nat, e: string)
    requires Fresh(st, i) && Uncut(s, st, i) && Has(s, i, Shown(false, e)) && '`' !in e
    ensures Uncut(s, Run(s, st, i, i + |Shown(false, e)|), i + |Shown(false, e)|)
  {
    if '.' in e {
      RunElement(s, st, i, false, e);
    } else {
      UncutPlain(s, st, i, i + |e|);
    }
  }

  lemma {:induction false} UncutPiece(s: string, st: Scan, i: nat, e: string, separator: string)
    requires Fresh(st, i) && Uncut(s, st, i) && Has(s, i, Shown(false, e) + separator) && '`' !in e
    requires separator in {"", ":", "."}
    ensures
      var j := i + |Shown(false, e)| + |separator|;
      Uncut(s, Run(s, st, i, j), j) && (separator != "" ==> Fresh(Run(s, st, i, j), j))
  {
    hide Shown, Dotted;
    var j := i + |Shown(false, e)|;
    HasConcat(s, i, Shown(false, e), separator);
    UncutElement(s, st, i, e);
    if separator != "" {
      hide Step;
      var st' := Run(s, st, i, j);
      assert s[j] == separator[0];
      UncutStep(s, st', j);
      RunSplits(s, st, i, j, j + 1);
      RunOne(s, st', j);
    }
  }

  lemma {:induction false} RunOne(s: string, st: Scan, i: nat)
    requires i < |s| && Safe(st, i)
    ensures Run(s, st, i, i + 1) == Step(s, st, i)
  {
  }

  lemma {:induction false} UncutRest(s: string, st: Scan, i: nat, isContext: bool, p: Path, k: nat, last: int)
    requires last < |p| && NoBackTick(p) && Safe(st, i) && Uncut(s, st, i) && (k <= last ==> Fresh(st, i))
    requires var t := PrintFrom(false, isContext, p, k, last); Has(s, i, t) && i + |t| == |s|
    ensures Uncut(s, Run(s, st, i, |s|), |s|)
    decreases last + 1 - k
  {
    hide Run, Uncut, Has, Shown;
    if k > last {
      NothingToRun(s, st);
    } else if k == 0 && p[k] == "" {
      UncutRest(s, st, i, isContext, p, k + 1, last);
    } else {
      var shown, separator := Shown(false, p[k]), Separator(isContext, k, last);
      HasConcat(s, i, shown + separator, PrintFrom(false, isContext, p, k + 1, last));
      UncutPiece(s, st, i, p[k], separator);
      var j := i + |shown| + |separator|;
      BeforeTheEnd(s, i, shown, separator, PrintFrom(false, isContext, p, k + 1, last));
      RunSplits(s, st, i, j, |s|);
      UncutRest(s, Run(s, st, i, j), j, isContext, p, k + 1, last);
    }
  }

  lemma {:induction false} NothingToRun(s: string, st: Scan)
    requires Safe(st, |s|)
    ensures Run(s, st, |s|, |s|) == st
  {
  }

  lemma {:induction false} BeforeTheEnd(s: string, i: nat, t: string, u: string, v: string)
    requires i + |t + u + v| == |s|
    ensures i <= i + |t| + |u| <= |s| && i + |t| + |u| + |v| == |s|
  {
  }

  /** No element read back from unforced text has a colon without a dot. */
  lemma {:induction false} ReadIsDotted(isContext: bool, p: Path, last: int)
    requires last < |p| && NoBackTick(p)
    ensures AllDotted(Parse(PrintFrom(false, isContext, p, 0, last)))
  {
    var s := PrintFrom(false, isContext, p, 0, last);
    UncutRest(s, INITIAL, 0, isContext, p, 0, last);
    var st := Run(s, INITIAL, 0, |s|);
    assert st.endBackTicks ==> Token(s, st, |s|) == s[st.start..st.end];
    assert s[st.start..|s|] == s[st.start..];
  }

  // ---- Exactly which paths survive printing and reading

  /** Two or more elements, the last not empty, and none that the scan would cut; or the lone empty namespace. */
  predicate Survives(force: bool, p: Path) {
    || p == [""]
    || (|p| >= 2 && p[|p| - 1] != "" && forall m :: 0 <= m < |p| ==> !Cut(force, p[m]))
  }

  /** Reading undoes printing exactly for the paths that survive. */
  lemma {:induction false} RoundTripExactly(force: bool, p: Path)
    requires NoBackTick(p)
    ensures Parse(Print(force, p)) == p <==> Survives(force, p)
  {
    hide Run, Finish, Has, Shown, Parse, PrintFrom;
    if m :| 0 <= m < |p| && Cut(force, p[m]) {
      ReadIsDotted(false, p, |p| - 1);
      assert !Dotted(p[m]);
    } else if |p| >= 2 {
      ReadPrinted(force, p);
      assert p == p[..|p| - 1] + [p[|p| - 1]];
    } else if |p| == 1 {
      ReadSingle(force, p[0]);
      assert p == [p[0]];
    } else {
      PrintEnds(force, false, p, 0, -1);
      ShortContexts();
    }
  }

  lemma {:induction false} ReadSingle(force: bool, e: string)
    requires '`' !in e && !Cut(force, e)
    ensures Parse(Print(force, [e])) == if e == "" then [""] else ["", e]
  {
    var p := [e];
    PrintStep(force, false, p, 0, 0);
    PrintEnds(force, false, p, 1, 0);
    if e == "" {
      ShortContexts();
    } else {
      assert Shown(force, e) + "" + "" == Shown(force, e);
      LastElement(Shown(force, e), INITIAL, 0, force, e);
    }
  }

  /** A query context read back gives all elements but the last, exactly when these survive. */
  lemma {:induction false} ContextRoundTripExactly(p: Path)
    requires NoBackTick(p) && p != []
    ensures ParseQueryContext(PrintContext(p)) == p[..|p| - 1]
       <==> |p| >= 2 && if |p| == 2 then !Cut(false, p[0]) else Survives(false, p[..|p| - 1])
  {
    hide Run, Finish, Has, Shown, Parse, PrintFrom;
    if |p| >= 3 {
      ContextPrintsLikePath(p, 0);
      RoundTripExactly(false, p[..|p| - 1]);
    } else if |p| == 2 {
      assert p[..1] == [p[0]];
      if Cut(false, p[0]) {
        ReadIsDotted(true, p, 0);
      } else {
        ReadNamespace(p);
      }
    } else {
      PrintEnds(false, true, p, 0, -1);
      ShortContexts();
    }
  }

  lemma {:induction false} ReadNamespace(p: Path)
    requires |p| == 2 && NoBackTick(p) && !Cut(false, p[0])
    ensures Parse(PrintContext(p)) == [p[0]]
  {
    PrintStep(false, true, p, 0, 0);
    PrintEnds(false, true, p, 1, 0);
    if p[0] == "" {
      ShortContexts();
    } else {
      var s := PrintContext(p);
      assert s == Shown(false, p[0]) + ":" + "" == Shown(false, p[0]) + ":";
      RunNamespace(s, false, p);
      assert p[..1] == [p[0]];
    }
  }
}
