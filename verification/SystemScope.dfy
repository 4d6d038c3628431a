/**
 The test whether a privilege target lies in a system scope (`isInSystemScope` in auth/auth.go): a
 fourth scan over keyspace paths, which must agree with what the printer wrote.
 */
module SystemScope {
  import opened Wrappers
  import opened PathText
  import opened PathScanner

  /** The local variables of the scan. */
  datatype ScopeScan = ScopeScan(part: nat, start: nat, end: nat, inBackTicks: bool)

  /** Scopes that begin with an underscore are system scopes, all but `_default`. */
  predicate SystemName(scope: string) {
    |scope| > 0 && scope[0] == '_' && scope != "_default"
  }

  /** The answer from character `i` on; nothing when the original would slice out of range. */
  function ScopeFrom(t: string, st: ScopeScan, i: nat): Option<bool>
    requires i <= |t| && st.start <= i && st.end <= i
    decreases |t| - i
  {
    if i == |t| then Some(st.part == 1 && st.start < |t| && SystemName(t[st.start..]))
    else
      match t[i]
      case '`' =>
        if st.inBackTicks then ScopeFrom(t, st.(inBackTicks := false, end := i), i + 1)
        else ScopeFrom(t, st.(inBackTicks := true, start := i + 1), i + 1)
      case ':' =>
        if st.inBackTicks then ScopeFrom(t, st, i + 1)
        else ScopeFrom(t, st.(end := if st.end != i - 1 then i else st.end, start := i + 1), i + 1)
      case '.' =>
        if st.inBackTicks then ScopeFrom(t, st, i + 1)
        else if st.part + 1 == 2 then
          var end := if st.end != i - 1 then i else st.end;
          if st.start <= end then Some(SystemName(t[st.start..end])) else None
        else if i + 1 >= |t| || (t[i + 1] != '_' && t[i + 1] != '`') then Some(false)
        else ScopeFrom(t, st.(part := st.part + 1, start := i + 1), i + 1)
      case _ => ScopeFrom(t, st, i + 1)
  }

  const START := ScopeScan(0, 0, 0, false)

  function InSystemScope(target: string): Option<bool> {
    ScopeFrom(target, START, 0)
  }

  /** `isInSystemScope`; a slice out of range is the outcome `None`. */
  method IsInSystemScope(target: string) returns (r: Option<bool>)
    ensures r == InSystemScope(target)
  {
    var part: nat, start: nat, end: nat, inBackTicks := 0, 0, 0, false;
    for i := 0 to |target|
      invariant start <= i && end <= i
      invariant InSystemScope(target) == ScopeFrom(target, ScopeScan(part, start, end, inBackTicks), i)
    {
      match target[i]
      case '`' =>
        inBackTicks := !inBackTicks;
        if inBackTicks {
          start := i + 1;
        } else {
          end := i;
        }
      case ':' =>
        if !inBackTicks {
          if end != i - 1 {
            end := i;
          }
          start := i + 1;
        }
      case '.' =>
        if !inBackTicks {
          part := part + 1;
          if part == 2 {
            if end != i - 1 {
              end := i;
            }
            if start > end {
              return None;
            }
            var scope := target[start..end];
            return Some(|scope| > 0 && scope[0] == '_' && scope != "_default");
          } else if i + 1 >= |target| || (target[i + 1] != '_' && target[i + 1] != '`') {
            return Some(false);
          }
          start := i + 1;
        }
      case _ =>
    }
    if part == 1 && start < |target| {
      var scope := target[start..];
      return Some(|scope| > 0 && scope[0] == '_' && scope != "_default");
    }
    return Some(false);
  }

  /** One character outside back ticks. */
  lemma {:induction false} ScopeStep(t: string, st: ScopeScan, i: nat)
    requires i < |t| && Outside(st, i) && t[i] != '`'
    ensures t[i] == ':' ==>
      ScopeFrom(t, st, i) == ScopeFrom(t, st.(end := if st.end != i - 1 then i else st.end, start := i + 1), i + 1)
    ensures t[i] != ':' && t[i] != '.' ==> ScopeFrom(t, st, i) == ScopeFrom(t, st, i + 1)
  {
  }

  /** The decision at the second dot, or at the end after one dot. */
  lemma {:induction false} ScopeDecides(t: string, st: ScopeScan, i: nat)
    requires i <= |t| && Outside(st, i) && st.part == 1 && (i < |t| ==> t[i] == '.')
    ensures ScopeFrom(t, st, i) ==
      if i == |t| then Some(st.start < |t| && SystemName(t[st.start..]))
      else
        var end := if st.end != i - 1 then i else st.end;
        if st.start <= end then Some(SystemName(t[st.start..end])) else None
  {
  }

  // ---- Which targets make the scan slice out of range

  /** The scan has just set the end of an element: a closing back tick, or a colon whose end was not set just before. */
  predicate JustEnded(t: string, i: nat)
    requires i <= |t|
  {
    i == 1 || (i > 1 && if Ticks(t, i - 1) then t[i - 1] == '`' else t[i - 1] == ':' && !JustEnded(t, i - 1))
  }

  predicate PlainDot(t: string, i: nat)
    requires i < |t|
  {
    t[i] == '.' && !Ticks(t, i)
  }

  /** The dots outside back ticks before `i`. */
  function DotsBefore(t: string, i: nat): nat
    requires i <= |t|
  {
    if i == 0 then 0 else DotsBefore(t, i - 1) + if PlainDot(t, i - 1) then 1 else 0
  }

  /** Every dot before `i` may be followed by a system scope. */
  predicate DotsPass(t: string, i: nat)
    requires i <= |t|
  {
    forall j :: 0 <= j < i && PlainDot(t, j) ==> j + 1 < |t| && (t[j + 1] == '_' || t[j + 1] == '`')
  }

  /** The second dot comes right after a colon that has just ended an element. */
  predicate OverrunsAt(t: string, i: int) {
    0 < i < |t| && PlainDot(t, i) && DotsBefore(t, i) == 1 && DotsPass(t, i) && t[i - 1] == ':' && JustEnded(t, i)
  }

  ghost predicate Overruns(t: string) {
    exists i :: OverrunsAt(t, i)
  }

  ghost predicate Follows(t: string, st: ScopeScan, i: nat) {
    && i <= |t| && st.start <= i && st.end <= i
    && st.inBackTicks == Ticks(t, i) && st.part == DotsBefore(t, i) <= 1 && DotsPass(t, i)
    && (i > 0 ==> (st.end == i - 1 <==> JustEnded(t, i)) && st.end < i)
    && (i > 0 && !st.inBackTicks ==> (st.start == i <==> t[i - 1] == ':' || PlainDot(t, i - 1)))
  }

  lemma {:induction false} NextScopeText(t: string, i: nat)
    requires i < |t|
    ensures Ticks(t, i + 1) == if t[i] == '`' then !Ticks(t, i) else Ticks(t, i)
    ensures DotsBefore(t, i + 1) == DotsBefore(t, i) + if PlainDot(t, i) then 1 else 0
    ensures JustEnded(t, i + 1) <==> i == 0 || if Ticks(t, i) then t[i] == '`' else t[i] == ':' && !JustEnded(t, i)
  {
  }

  lemma {:induction false} PassesOn(t: string, i: nat)
    requires i < |t| && DotsPass(t, i)
    ensures DotsPass(t, i + 1) <==> (PlainDot(t, i) ==> i + 1 < |t| && (t[i + 1] == '_' || t[i + 1] == '`'))
  {
    hide PlainDot;
  }

  lemma {:induction false} DotsGrow(t: string, i: nat, j: nat)
    requires i <= j <= |t|
    ensures DotsBefore(t, i) <= DotsBefore(t, j)
  {
    if i < j {
      DotsGrow(t, i, j - 1);
    }
  }

  /** The scan after a character that does not decide. */
  function Moved(t: string, st: ScopeScan, i: nat): ScopeScan
    requires i < |t|
  {
    if t[i] == '`' then if st.inBackTicks then st.(inBackTicks := false, end := i) else st.(inBackTicks := true, start := i + 1)
    else if st.inBackTicks then st
    else if t[i] == ':' then st.(end := if st.end != i - 1 then i else st.end, start := i + 1)
    else if t[i] == '.' then st.(part := st.part + 1, start := i + 1)
    else st
  }

  lemma {:induction false} MovedFollows(t: string, st: ScopeScan, i: nat)
    requires i < |t| && Follows(t, st, i) && (PlainDot(t, i) ==> st.part == 0 && DotsPass(t, i + 1))
    ensures Follows(t, Moved(t, st, i), i + 1)
    ensures ScopeFrom(t, st, i) == ScopeFrom(t, Moved(t, st, i), i + 1)
  {
    NextScopeText(t, i);
    PassesOn(t, i);
    assert PlainDot(t, i) ==> i + 1 < |t| && (t[i + 1] == '_' || t[i + 1] == '`');
    hide Ticks, DotsBefore, JustEnded, DotsPass, SystemName;
  }

  /** At a dot that decides, the slice is out of range exactly if the dot overruns, and no later dot can. */
  lemma {:induction false} Decided(t: string, st: ScopeScan, i: nat)
    requires i < |t| && Follows(t, st, i) && PlainDot(t, i) && (st.part == 1 || !DotsPass(t, i + 1))
    ensures ScopeFrom(t, st, i).None? <==> OverrunsAt(t, i)
    ensures forall j :: OverrunsAt(t, j) ==> j <= i
  {
    NextScopeText(t, i);
    PassesOn(t, i);
    forall j | OverrunsAt(t, j) ensures j <= i {
      if i < j {
        DotsGrow(t, i + 1, j);
      }
    }
    SecondIsApart(t, i);
    hide Ticks, DotsBefore, JustEnded, DotsPass, SystemName;
  }

  lemma {:induction false} SecondIsApart(t: string, i: nat)
    requires i < |t| && DotsPass(t, i) && PlainDot(t, i)
    ensures i > 0 ==> !PlainDot(t, i - 1)
    ensures i == 0 ==> DotsBefore(t, i) == 0
  {
  }

  lemma {:induction false} OverrunsFrom(t: string, st: ScopeScan, i: nat)
    requires Follows(t, st, i)
    ensures ScopeFrom(t, st, i).None? <==> exists j :: i <= j && OverrunsAt(t, j)
    decreases |t| - i
  {
    if i < |t| {
      hide SystemName, OverrunsAt, Moved, ScopeFrom;
      if PlainDot(t, i) && (st.part == 1 || !DotsPass(t, i + 1)) {
        Decided(t, st, i);
      } else {
        MovedFollows(t, st, i);
        OverrunsFrom(t, Moved(t, st, i), i + 1);
        NotHere(t, st, i);
      }
    } else {
      assert ScopeFrom(t, st, i).Some?;
    }
  }

  lemma {:induction false} NotHere(t: string, st: ScopeScan, i: nat)
    requires i < |t| && Follows(t, st, i) && (PlainDot(t, i) ==> st.part == 0)
    ensures !OverrunsAt(t, i)
  {
  }

  /** The scan slices out of range if and only if the second dot comes right after a colon that has just ended an element. */
  lemma {:induction false} OverrunsExactly(target: string)
    ensures InSystemScope(target).None? <==> Overruns(target)
  {
    hide ScopeFrom, OverrunsAt;
    OverrunsFrom(target, START, 0);
    forall j | OverrunsAt(target, j) ensures 0 <= j {
      OverrunIsInside(target, j);
    }
  }

  lemma {:induction false} OverrunIsInside(t: string, j: int)
    requires OverrunsAt(t, j)
    ensures 0 <= j < |t|
  {
  }

  // ---- Printed elements

  /** The text after the last colon. */
  function AfterColon(e: string): string {
    if e == "" || e[|e| - 1] == ':' then "" else AfterColon(e[..|e| - 1]) + [e[|e| - 1]]
  }

  /** Positions between two elements. */
  ghost predicate Outside(st: ScopeScan, i: nat) {
    st.start <= i && st.end <= i && !st.inBackTicks
  }

  lemma {:induction false} ScopeInside(t: string, st: ScopeScan, i: nat, e: string)
    requires Has(t, i, e) && '`' !in e && st.inBackTicks && st.start <= i && st.end <= i
    ensures ScopeFrom(t, st, i) == ScopeFrom(t, st, i + |e|)
    decreases |e|
  {
    if e != "" {
      assert t[i] == e[0];
      ScopeInside(t, st, i + 1, e[1..]);
    }
  }

  lemma {:induction false} ScopeQuoted(t: string, st: ScopeScan, i: nat, e: string)
    requires Has(t, i, "`" + e + "`") && '`' !in e && Outside(st, i)
    ensures ScopeFrom(t, st, i) == ScopeFrom(t, st.(start := i + 1, end := i + 1 + |e|), i + |e| + 2)
    ensures t[i + 1..i + 1 + |e|] == e
  {
    HasConcat(t, i, "`" + e, "`");
    HasConcat(t, i, "`", e);
    HasSlice(t, i + 1, e);
    assert t[i] == '`' && t[i + 1 + |e|] == '`';
    ScopeInside(t, st.(inBackTicks := true, start := i + 1), i + 1, e);
  }

  /** Text without back ticks and dots; only colons move the positions. */
  lemma {:induction false} ScopePlain(t: string, st: ScopeScan, i: nat, e: string) returns (st': ScopeScan)
    requires Has(t, i, e) && '`' !in e && '.' !in e && Outside(st, i)
    ensures st'.part == st.part && Outside(st', i + |e|)
    ensures ScopeFrom(t, st, i) == ScopeFrom(t, st', i + |e|)
    ensures ':' !in e ==> st' == st
    ensures ':' in e ==> st'.start == i + |e| - |AfterColon(e)| && st'.end < st'.start
    decreases |e|
  {
    hide ScopeFrom, Has;
    if e == "" {
      st' := st;
    } else {
      var init, c, j := e[..|e| - 1], e[|e| - 1], i + |e| - 1;
      assert e == init + [c];
      HasConcat(t, i, init, [c]);
      st' := ScopePlain(t, st, i, init);
      assert t[j] == c by { HasSlice(t, j, [c]); }
      ScopeStep(t, st', j);
      if c == ':' {
        st' := st'.(end := if st'.end != j - 1 then j else st'.end, start := j + 1);
      }
    }
  }

  /** Any printed element before the scope only moves the positions. */
  lemma {:induction false} ScopeElement(t: string, st: ScopeScan, i: nat, force: bool, e: string) returns (st': ScopeScan)
    requires Has(t, i, Shown(force, e)) && '`' !in e && Outside(st, i)
    ensures st'.part == st.part && Outside(st', i + |Shown(force, e)|)
    ensures ScopeFrom(t, st, i) == ScopeFrom(t, st', i + |Shown(force, e)|)
  {
    if Quoted(force, e) {
      ScopeQuoted(t, st, i, e);
      st' := st.(start := i + 1, end := i + 1 + |e|);
    } else {
      st' := ScopePlain(t, st, i, e);
    }
  }

  lemma {:induction false} AfterColonIsSuffix(e: string)
    ensures |AfterColon(e)| <= |e| && e[|e| - |AfterColon(e)|..] == AfterColon(e)
  {
    if e != "" && e[|e| - 1] != ':' {
      AfterColonIsSuffix(e[..|e| - 1]);
    }
  }

  /** The scan reaches the dot before the scope with nothing decided. */
  lemma {:induction false} ReachScope(force: bool, p: Path) returns (st: ScopeScan, i: nat)
    requires |p| >= 3 && NoBackTick(p)
    ensures var s, rest := Print(force, p), PrintFrom(force, false, p, 2, |p| - 1);
      && i < |s| && s[i] == '.' && Has(s, i + 1, rest) && i + 1 + |rest| == |s|
      && st.part == 0 && Outside(st, i) && InSystemScope(s) == ScopeFrom(s, st, i)
  {
    hide PrintFrom, Shown, ScopeFrom;
    var s, n := Print(force, p), |p|;
    PrintStep(force, false, p, 1, n - 1);
    st, i := ReachBucket(force, p);
    HasConcat(s, i, Shown(force, p[1]) + ".", PrintFrom(force, false, p, 2, n - 1));
    HasConcat(s, i, Shown(force, p[1]), ".");
    st := ScopeElement(s, st, i, force, p[1]);
    i := i + |Shown(force, p[1])|;
    assert s[i] == '.';
  }

  lemma {:induction false} ReachBucket(force: bool, p: Path) returns (st: ScopeScan, i: nat)
    requires |p| >= 2 && NoBackTick(p)
    ensures var s, rest := Print(force, p), PrintFrom(force, false, p, 1, |p| - 1);
      && i <= |s| && Has(s, i, rest) && i + |rest| == |s|
      && st.part == 0 && Outside(st, i) && InSystemScope(s) == ScopeFrom(s, st, i)
  {
    hide PrintFrom, Shown, ScopeFrom;
    var s, rest := Print(force, p), PrintFrom(force, false, p, 1, |p| - 1);
    PrintStep(force, false, p, 0, |p| - 1);
    st, i := START, 0;
    if p[0] != "" {
      HasConcat(s, 0, Shown(force, p[0]) + ":", rest);
      HasConcat(s, 0, Shown(force, p[0]), ":");
      st := ScopeElement(s, START, 0, force, p[0]);
      i := |Shown(force, p[0])|;
      assert s[i] == ':';
      ScopeStep(s, st, i);
      st := st.(end := if st.end != i - 1 then i else st.end, start := i + 1);
      i := i + 1;
    }
  }

  /** The first test, on the character after the dot, already settles most scopes. */
  predicate Passes(force: bool, scope: string) {
    Quoted(force, scope) || (scope != "" && scope[0] == '_')
  }

  lemma {:induction false} PassScope(t: string, st: ScopeScan, i: nat, force: bool, scope: string, rest: string)
    requires i < |t| && t[i] == '.' && st.part == 0 && Outside(st, i)
    requires Has(t, i + 1, Shown(force, scope) + rest) && i + 1 + |Shown(force, scope) + rest| == |t|
    requires (rest == "" || rest[0] == '.') && '`' !in scope
    ensures ScopeFrom(t, st, i) ==
      if Passes(force, scope) then ScopeFrom(t, st.(part := 1, start := i + 1), i + 1) else Some(false)
  {
    HasConcat(t, i + 1, Shown(force, scope), rest);
    if Quoted(force, scope) {
      assert t[i + 1] == '`';
    } else if scope != "" {
      assert t[i + 1] == scope[0];
      assert '.' !in scope;
    }
  }

  /** A scope followed by a collection. */
  lemma {:induction false} ScopeThenDot(t: string, st: ScopeScan, i: nat, force: bool, scope: string)
    requires st.part == 1 && Outside(st, i) && st.start == i && st.end < i
    requires Has(t, i, Shown(force, scope) + ".") && '`' !in scope && Passes(force, scope)
    ensures !Cut(force, scope) ==> ScopeFrom(t, st, i) == Some(SystemName(scope))
    ensures Cut(force, scope) ==> (ScopeFrom(t, st, i) == Some(true) <==> SystemName(AfterColon(scope)))
  {
    hide ScopeFrom, SystemName, AfterColon;
    var j := i + |Shown(force, scope)|;
    HasConcat(t, i, Shown(force, scope), ".");
    assert t[j] == '.';
    if Quoted(force, scope) {
      ScopeQuoted(t, st, i, scope);
      ScopeDecides(t, st.(start := i + 1, end := i + 1 + |scope|), j);
    } else {
      PlainScopeThenDot(t, st, i, scope);
    }
  }

  lemma {:induction false} PlainScopeThenDot(t: string, st: ScopeScan, i: nat, scope: string)
    requires st.part == 1 && Outside(st, i) && st.start == i && st.end < i
    requires Has(t, i, scope) && i + |scope| < |t| && t[i + |scope|] == '.' && '`' !in scope && '.' !in scope
    ensures ':' !in scope && scope != "" ==> ScopeFrom(t, st, i) == Some(SystemName(scope))
    ensures ':' in scope ==> (ScopeFrom(t, st, i) == Some(true) <==> SystemName(AfterColon(scope)))
  {
    hide ScopeFrom, Has;
    var st' := ScopePlain(t, st, i, scope);
    ScopeDecides(t, st', i + |scope|);
    AfterColonIsSuffix(scope);
    HasSuffix(t, i, scope, st'.start);
  }

  lemma {:induction false} HasSuffix(t: string, i: nat, e: string, start: nat)
    requires Has(t, i, e) && i <= start <= i + |e|
    ensures t[start..i + |e|] == e[start - i..]
    ensures i + |e| == |t| ==> t[start..] == e[start - i..]
  {
  }

  /** A scope at the end of the target: a closing back tick is taken for part of the name. */
  lemma {:induction false} ScopeAtEnd(t: string, st: ScopeScan, i: nat, force: bool, scope: string)
    requires st.part == 1 && Outside(st, i) && st.start == i && st.end < i
    requires Has(t, i, Shown(force, scope)) && i + |Shown(force, scope)| == |t| && '`' !in scope && Passes(force, scope)
    ensures Quoted(force, scope) ==> ScopeFrom(t, st, i) == Some(scope != "" && scope[0] == '_')
    ensures !Quoted(force, scope) && ':' !in scope ==> ScopeFrom(t, st, i) == Some(SystemName(scope))
    ensures Cut(force, scope) ==> ScopeFrom(t, st, i) == Some(SystemName(AfterColon(scope)))
  {
    hide ScopeFrom;
    if Quoted(force, scope) {
      QuotedScopeAtEnd(t, st, i, scope);
    } else {
      var st' := ScopePlain(t, st, i, scope);
      ScopeDecides(t, st', |t|);
      AfterColonIsSuffix(scope);
      HasSuffix(t, i, scope, st'.start);
    }
  }

  lemma {:induction false} QuotedScopeAtEnd(t: string, st: ScopeScan, i: nat, scope: string)
    requires st.part == 1 && Outside(st, i)
    requires Has(t, i, "`" + scope + "`") && i + |scope| + 2 == |t| && '`' !in scope
    ensures ScopeFrom(t, st, i) == Some(scope != "" && scope[0] == '_')
  {
    hide ScopeFrom;
    ScopeQuoted(t, st, i, scope);
    ScopeDecides(t, st.(start := i + 1, end := i + 1 + |scope|), |t|);
    HasConcat(t, i, "`" + scope, "`");
    assert t[i + 1..] == scope + "`";
    assert scope + "`" != "_default" by {
      assert (scope + "`")[|scope|] == '`';
      assert '`' !in "_default";
    }
  }

  /** A scope with a colon is not `_default`, and one that the scan does not pass is no system scope. */
  lemma {:induction false} SystemNames(force: bool, scope: string)
    ensures Cut(force, scope) ==> scope != "" && (SystemName(scope) <==> scope[0] == '_')
    ensures !Passes(force, scope) ==> !SystemName(scope)
    ensures Cut(force, scope) ==> (Passes(force, scope) <==> scope[0] == '_')
  {
    if ':' in scope {
      assert ':' !in "_default";
    }
  }

  /** For a collection the scan agrees with the scope exactly when no unquoted colon hides a system name. */
  lemma {:induction false} CollectionScopeExactly(force: bool, p: Path)
    requires |p| == 4 && NoBackTick(p)
    ensures InSystemScope(Print(force, p)) == Some(SystemName(p[2]))
       <==> Cut(force, p[2]) && p[2][0] == '_' ==> SystemName(AfterColon(p[2]))
  {
    hide PrintFrom, Shown, ScopeFrom, Has, SystemName, AfterColon, Cut, Passes;
    var s, scope := Print(force, p), p[2];
    SystemNames(force, scope);
    var st, i := ReachScope(force, p);
    PrintStep(force, false, p, 2, 3);
    var rest := "." + PrintFrom(force, false, p, 3, 3);
    assert Shown(force, scope) + "." + PrintFrom(force, false, p, 3, 3) == Shown(force, scope) + rest;
    PassScope(s, st, i, force, scope, rest);
    if Passes(force, scope) {
      HasConcat(s, i + 1, Shown(force, scope) + ".", PrintFrom(force, false, p, 3, 3));
      ScopeThenDot(s, st.(part := 1, start := i + 1), i + 1, force, scope);
    }
  }

  /** For a scope as target the scan fails exactly for a quoted `_default` and for hidden system names. */
  lemma {:induction false} ScopeTargetExactly(force: bool, p: Path)
    requires |p| == 3 && NoBackTick(p)
    ensures InSystemScope(Print(force, p)) == Some(SystemName(p[2]))
       <==> && (Quoted(force, p[2]) ==> p[2] != "_default")
            && (Cut(force, p[2]) && p[2][0] == '_' ==> SystemName(AfterColon(p[2])))
  {
    hide PrintFrom, Shown, ScopeFrom, Has;
    var s, scope := Print(force, p), p[2];
    var st, i := ReachScope(force, p);
    PrintStep(force, false, p, 2, 2);
    PrintEnds(force, false, p, 3, 2);
    assert Shown(force, scope) + "" + "" == Shown(force, scope) == Shown(force, scope) + "";
    PassScope(s, st, i, force, scope, "");
    if Passes(force, scope) {
      ScopeAtEnd(s, st.(part := 1, start := i + 1), i + 1, force, scope);
    }
  }

  /** The scope `_default`, printed in back ticks, is taken for a system scope. */
  lemma {:induction false} QuotedDefaultIsMistaken()
    ensures InSystemScope(Print(true, ["default", "travel", "_default"])) != Some(SystemName("_default"))
  {
    var p := ["default", "travel", "_default"];
    ScopeTargetExactly(true, p);
  }
}
