/**
 Checking keyspace paths (`validatePathOrContext` in algebra/path.go) and building a path from a
 dynamic keyspace string, where the validator and the scanner must agree.
 */
module PathValidator {
  import opened PathText
  import opened PathScanner

  /** The local variables of the validator. */
  datatype Check = Check(hasNamespace: bool, parts: nat, countPart: bool, lastTerminator: int, lastBackTick: int, inBackTick: bool)

  datatype Verdict = Bad(reason: string) | Good(parts: nat)

  datatype Next = Go(st: Check) | Stop(reason: string)

  const INITIAL_CHECK := Check(false, 0, true, -1, -1, false)

  /** One character. */
  function CheckStep(st: Check, c: char, i: nat): Next {
    match c
    case '`' =>
      if !st.inBackTick then
        if st.lastTerminator >= 0 && st.lastTerminator != i - 1 then Stop("invalid use of back ticks")
        else Go(st.(inBackTick := true))
      else Go(st.(inBackTick := false, lastBackTick := i))
    case ':' =>
      if st.inBackTick then Go(st)
      else if st.hasNamespace then Stop("repeated namespace")
      else if st.lastBackTick >= 0 && st.lastBackTick != i - 1 then Stop("invalid use of back ticks")
      else Go(st.(parts := if st.parts == 0 then 1 else st.parts, hasNamespace := true, countPart := true, lastTerminator := i))
    case '.' =>
      if st.inBackTick then Go(st)
      else if st.countPart then Stop("missing bucket")
      else if st.lastBackTick >= 0 && st.lastBackTick != i - 1 then Stop("invalid use of back ticks")
      else Go(st.(parts := if st.hasNamespace then st.parts else st.parts + 1,
                  hasNamespace := true, countPart := true, lastTerminator := i))
    case _ => Go(if st.countPart then st.(parts := st.parts + 1, countPart := false) else st)
  }

  /** The verdict on the characters from `i` on. */
  function CheckFrom(s: string, st: Check, i: nat): Verdict
    requires i <= |s|
    decreases |s| - i
  {
    if i == |s| then
      if st.inBackTick then Bad("back tick not terminated") else Good(st.parts)
    else
      match CheckStep(st, s[i], i)
      case Stop(reason) => Bad(reason)
      case Go(st') => CheckFrom(s, st', i + 1)
  }

  function Validate(s: string): Verdict {
    CheckFrom(s, INITIAL_CHECK, 0)
  }

  method ValidatePathOrContext(queryContext: string) returns (v: Verdict)
    ensures v == Validate(queryContext)
  {
    var hasNamespace, parts: nat, countPart := false, 0, true;
    var lastTerminator, lastBackTick, inBackTick := -1, -1, false;
    for i := 0 to |queryContext|
      invariant Validate(queryContext)
             == CheckFrom(queryContext, Check(hasNamespace, parts, countPart, lastTerminator, lastBackTick, inBackTick), i)
    {
      match queryContext[i]
      case '`' =>
        inBackTick := !inBackTick;
        if inBackTick {
          if lastTerminator >= 0 && lastTerminator != i - 1 {
            return Bad("invalid use of back ticks");
          }
        } else {
          lastBackTick := i;
        }
      case ':' =>
        if !inBackTick {
          if hasNamespace {
            return Bad("repeated namespace");
          }
          if lastBackTick >= 0 && lastBackTick != i - 1 {
            return Bad("invalid use of back ticks");
          }
          if parts == 0 {
            parts := parts + 1;
          }
          hasNamespace, countPart, lastTerminator := true, true, i;
        }
      case '.' =>
        if !inBackTick {
          if countPart {
            return Bad("missing bucket");
          }
          if lastBackTick >= 0 && lastBackTick != i - 1 {
            return Bad("invalid use of back ticks");
          }
          if !hasNamespace {
            parts, hasNamespace := parts + 1, true;
          }
          countPart, lastTerminator := true, i;
        }
      case _ =>
        if countPart {
          parts, countPart := parts + 1, false;
        }
    }
    if inBackTick {
      return Bad("back tick not terminated");
    }
    return Good(parts);
  }

  // ---- Elements the validator can see

  /** Some character other than a dot or a colon; the validator counts no other elements. */
  predicate Countable(e: string) {
    exists k :: 0 <= k < |e| && e[k] != '.' && e[k] != ':'
  }

  predicate AllCountable(p: Path, k: nat) {
    forall m :: k <= m < |p| ==> Countable(p[m])
  }

  function Counted(st: Check, e: string): Check {
    if st.countPart && Countable(e) then st.(parts := st.parts + 1, countPart := false) else st
  }

  lemma {:induction false} CheckInside(s: string, st: Check, i: nat, e: string)
    requires Has(s, i, e) && '`' !in e && st.inBackTick
    ensures CheckFrom(s, st, i) == CheckFrom(s, Counted(st, e), i + |e|)
    decreases |e|
  {
    if e != "" {
      var rest := e[1..];
      assert s[i] == e[0];
      assert Has(s, i + 1, rest);
      assert Countable(e) <==> (e[0] != '.' && e[0] != ':') || Countable(rest) by {
        if k :| 0 <= k < |rest| && rest[k] != '.' && rest[k] != ':' {
          assert e[k + 1] == rest[k];
        }
        if k :| 0 <= k < |e| && e[k] != '.' && e[k] != ':' {
          assert k > 0 ==> rest[k - 1] == e[k];
        }
      }
      match CheckStep(st, s[i], i)
      case Go(st') => CheckInside(s, st', i + 1, rest);
    }
  }

  /** A quoted element at the start or after a separator. */
  lemma {:induction false} CheckQuoted(s: string, st: Check, i: nat, e: string)
    requires Has(s, i, "`" + e + "`") && '`' !in e && !st.inBackTick
    requires st.lastTerminator < 0 || st.lastTerminator == i - 1
    ensures CheckFrom(s, st, i) == CheckFrom(s, Counted(st, e).(lastBackTick := i + 1 + |e|), i + |e| + 2)
  {
    HasConcat(s, i, "`" + e, "`");
    HasConcat(s, i, "`", e);
    assert s[i] == '`' && s[i + 1 + |e|] == '`';
    CheckInside(s, st.(inBackTick := true), i + 1, e);
  }

  /** Before element `k` of a protected path. */
  ghost predicate Before(st: Check, i: nat) {
    st.countPart && !st.inBackTick && (st.lastTerminator < 0 || st.lastTerminator == i - 1)
  }

  lemma {:induction false} CountableStep(p: Path, k: nat)
    requires k < |p|
    ensures AllCountable(p, k) <==> Countable(p[k]) && (k < |p| - 1 ==> AllCountable(p, k + 1))
    ensures k < |p| - 1 ==> (AllCountable(p[..|p| - 1], k) <==> Countable(p[k]) && AllCountable(p[..|p| - 1], k + 1))
    ensures k == |p| - 1 ==> AllCountable(p[..|p| - 1], k)
  {
    hide Countable;
  }

  lemma {:induction false} CheckRest(s: string, st: Check, i: nat, p: Path, k: nat)
    requires 1 <= k < |p| && NoBackTick(p) && Before(st, i)
    requires var t := PrintFrom(true, false, p, k, |p| - 1); Has(s, i, t) && i + |t| == |s|
    ensures
      var full := st.parts + (|p| - k) + if !st.hasNamespace && k < |p| - 1 then 1 else 0;
      if AllCountable(p, k) then CheckFrom(s, st, i) == Good(full)
      else if AllCountable(p[..|p| - 1], k) then CheckFrom(s, st, i) == Good(full - 1)
      else CheckFrom(s, st, i).Bad?
    decreases |p| - k
  {
    hide Countable, AllCountable, Has, PrintFrom, CheckFrom;
    var e := p[k];
    var shown := "`" + e + "`";
    PrintStep(true, false, p, k, |p| - 1);
    CountableStep(p, k);
    if k == |p| - 1 {
      PrintEnds(true, false, p, k + 1, |p| - 1);
      assert shown + "" + "" == shown;
      CheckLast(s, st, i, e);
    } else {
      HasConcat(s, i, shown + ".", PrintFrom(true, false, p, k + 1, |p| - 1));
      CheckNamed(s, st, i, e);
      if Countable(e) {
        CheckRest(s, AfterName(st, i, e), i + |e| + 3, p, k + 1);
      }
    }
  }

  lemma {:induction false} CheckLast(s: string, st: Check, i: nat, e: string)
    requires Before(st, i) && Has(s, i, "`" + e + "`") && i + |e| + 2 == |s| && '`' !in e
    ensures CheckFrom(s, st, i) == Good(st.parts + if Countable(e) then 1 else 0)
  {
    hide Countable;
    CheckQuoted(s, st, i, e);
  }

  function AfterName(st: Check, i: nat, e: string): Check {
    st.(parts := st.parts + (if st.hasNamespace then 1 else 2), hasNamespace := true, countPart := true,
        lastTerminator := i + |e| + 2, lastBackTick := i + |e| + 1)
  }

  /** A quoted element and the dot after it. */
  lemma {:induction false} CheckNamed(s: string, st: Check, i: nat, e: string)
    requires Before(st, i) && Has(s, i, "`" + e + "`" + ".") && '`' !in e
    ensures if Countable(e) then CheckFrom(s, st, i) == CheckFrom(s, AfterName(st, i, e), i + |e| + 3)
            else CheckFrom(s, st, i).Bad?
  {
    hide Countable;
    HasConcat(s, i, "`" + e + "`", ".");
    CheckQuoted(s, st, i, e);
    assert s[i + |e| + 2] == '.';
  }

  /** The number of parts of a path as the validator counts them; a lone name without namespace is one part. */
  function FullCount(p: Path): nat
    requires |p| >= 2
  {
    if p[0] == "" && |p| == 2 then 1 else |p|
  }

  /**
   The verdict on a protected path: the right number of parts exactly when the validator can see every name, one less
   exactly when it cannot see the last, and an error exactly when it cannot see a name before a dot.
   */
  lemma {:induction false} ValidateExactly(p: Path)
    requires NoBackTick(p) && |p| >= 2
    ensures
      var v := Validate(Print(true, p));
      if AllCountable(p, 1) then v == Good(FullCount(p))
      else if AllCountable(p[..|p| - 1], 1) then v == Good(FullCount(p) - 1)
      else v.Bad?
  {
    var s, n := Print(true, p), |p|;
    PrintStep(true, false, p, 0, n - 1);
    if p[0] == "" {
      CheckRest(s, INITIAL_CHECK, 0, p, 1);
    } else {
      var shown, rest := "`" + p[0] + "`", PrintFrom(true, false, p, 1, n - 1);
      HasConcat(s, 0, shown + ":", rest);
      HasConcat(s, 0, shown, ":");
      CheckQuoted(s, INITIAL_CHECK, 0, p[0]);
      var j := |shown|;
      assert s[j] == ':';
      var st := Counted(INITIAL_CHECK, p[0]).(lastBackTick := j - 1);
      CheckRest(s, CheckStep(st, ':', j).st, j + 1, p, 1);
    }
  }

  // ---- Dynamic keyspaces

  datatype Built = Ok(path: Path) | Invalid

  /** `NewPathWithContext`: a single name under a query context. */
  function NewPathWithContext(keyspace: string, namespace: string, queryContext: string): Path {
    if queryContext == "" then [namespace, keyspace]
    else
      var elems := ParseQueryContext(queryContext);
      var named := if elems[0] == "" then elems[0 := namespace] else elems;
      (if |named| == 2 then named + ["_default"] else named) + [keyspace]
  }

  /** `NewVariablePathWithContext`. With three parts and no colon only the first of the two names is used. */
  function NewVariablePathWithContext(keyspace: string, namespace: string, queryContext: string): Built {
    match Validate(keyspace)
    case Bad(_) => Invalid
    case Good(parts) =>
      if parts == 0 then Invalid
      else if parts == 1 then Ok(NewPathWithContext(keyspace, namespace, queryContext))
      else
        var elems := Parse(keyspace);
        if parts == 3 then
          if ':' in keyspace then Invalid
          else
            ThreePartsHaveTwoNames(keyspace);
            Ok(NewPathWithContext(elems[1], namespace, queryContext))
        else Ok(if elems[0] == "" then elems[0 := namespace] else elems)
  }

  /** Check and scan side by side, on text without colons. */
  lemma {:induction false} SideBySide(s: string, check: Check, scan: Scan, i: nat)
    requires i <= |s| && ':' !in s && Safe(scan, i)
    requires check.inBackTick == scan.inBackTicks && check.hasNamespace == scan.hasNamespace
    requires if scan.hasNamespace then |scan.elements| >= 2 else check.parts <= if check.countPart then 0 else 1
    ensures CheckFrom(s, check, i) == Good(3) ==> |Finish(s, Run(s, scan, i, |s|))| >= 2
    decreases |s| - i
  {
    if i < |s| {
      match CheckStep(check, s[i], i)
      case Stop(_) =>
      case Go(check') => SideBySide(s, check', Step(s, scan, i), i + 1);
    }
  }

  lemma {:induction false} ThreePartsHaveTwoNames(s: string)
    requires Validate(s) == Good(3) && ':' !in s
    ensures |Parse(s)| >= 2
  {
    SideBySide(s, INITIAL_CHECK, INITIAL, 0);
  }

  lemma {:induction false} CountableSurvives(p: Path)
    requires NoBackTick(p) && |p| >= 2 && AllCountable(p, 1)
    ensures Parse(Print(true, p)) == p
  {
    assert Countable(p[|p| - 1]);
    RoundTripExactly(true, p);
  }

  lemma {:induction false} ProtectedHasColon(p: Path)
    requires |p| >= 2 && p[0] != ""
    ensures ':' in Print(true, p)
  {
    PrintStep(true, false, p, 0, |p| - 1);
    var shown := "`" + p[0] + "`";
    var s := Print(true, p);
    assert s == shown + ":" + PrintFrom(true, false, p, 1, |p| - 1);
    assert s[|shown|] == ':';
  }

  lemma {:induction false} ProtectedHasTicks(p: Path)
    requires |p| >= 2
    ensures '`' in Print(true, p)
  {
    var k := if p[0] == "" then 1 else 0;
    PrintStep(true, false, p, 0, |p| - 1);
    PrintStep(true, false, p, k, |p| - 1);
    assert Print(true, p)[0] == '`';
  }

  /** The path with the default namespace where it has none. */
  function InNamespace(p: Path, namespace: string): Path
    requires p != []
  {
    if p[0] == "" then p[0 := namespace] else p
  }

  /**
   A protected path is rebuilt, in its own or the default namespace and under any context, exactly when the validator can
   see every name and it is not a lone name without namespace.
   */
  lemma {:induction false} VariablePathExactly(p: Path, namespace: string, queryContext: string)
    requires NoBackTick(p) && (|p| == 2 || |p| == 4)
    ensures NewVariablePathWithContext(Print(true, p), namespace, queryContext) == Ok(InNamespace(p, namespace))
       <==> AllCountable(p, 1) && (p[0] == "" ==> |p| == 4)
  {
    hide Parse, Countable, PrintFrom, Validate;
    ValidateExactly(p);
    ProtectedHasTicks(p);
    if p[0] != "" {
      ProtectedHasColon(p);
    }
    if AllCountable(p, 1) {
      CountableSurvives(p);
    }
    if |p| == 2 && Validate(Print(true, p)) == Good(1) {
      var q := NewPathWithContext(Print(true, p), namespace, queryContext);
      assert q[|q| - 1] == Print(true, p) && InNamespace(p, namespace)[1] == p[1];
    }
    if |p| == 4 && Validate(Print(true, p)) == Good(3) && ':' !in Print(true, p) {
      ReadPrinted(true, p);
      assert Countable(p[..3][1]);
      var q := NewPathWithContext(p[1], namespace, queryContext);
      assert q[|q| - 1] == p[1] && InNamespace(p, namespace)[3] == p[3];
    }
  }

  /** A name of dots and colons only defeats the validator: `default`:`.` is taken for a single name. */
  lemma {:induction false} DotsAreNotSeen(namespace: string, queryContext: string)
    ensures NewVariablePathWithContext(Print(true, ["default", "."]), namespace, queryContext) != Ok(["default", "."])
  {
    var p := ["default", "."];
    assert !Countable(p[1]);
    VariablePathExactly(p, namespace, queryContext);
  }

  /** Of two names under a bucket context the second is dropped, whatever it is. */
  lemma {:induction false} SecondNameIsDropped(scope: string, collection: string, namespace: string, queryContext: string)
    requires '`' !in scope && '`' !in collection && Countable(scope) && Countable(collection)
    requires ':' !in scope && ':' !in collection
    ensures NewVariablePathWithContext(Print(true, ["", scope, collection]), namespace, queryContext)
         == Ok(NewPathWithContext(scope, namespace, queryContext))
  {
    hide Countable, NewPathWithContext, Parse;
    var p := ["", scope, collection];
    ValidateExactly(p);
    CountableSurvives(p);
    PrintStep(true, false, p, 0, 2);
    PrintStep(true, false, p, 1, 2);
    PrintStep(true, false, p, 2, 2);
    PrintEnds(true, false, p, 3, 2);
    assert ':' !in Print(true, p);
  }
}
