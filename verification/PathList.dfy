/**
 Reading a comma-separated list of paths (`ParseAndValidatePathList` in algebra/path.go). A colon
 or a dot with no element before it makes the original slice with a negative bound; that case is
 the explicit outcome `Fault`.
 */
module PathList {
  import opened PathText
  import opened PathScanner

  datatype ListResult = Paths(paths: seq<Path>) | Error(reason: string) | Internal | Fault

  /** The local variables of the scan; `end` is -1 while the current element is empty. */
  datatype ListScan = ListScan(paths: seq<Path>, parts: seq<string>, namespace: string,
                               mustBeDelim: bool, quotes: bool, start: nat, end: int)

  datatype Next = Go(st: ListScan) | Stop(r: ListResult)

  predicate IsSpace(c: char) {
    || c in {'\t', '\n', '\U{0B}', '\U{0C}', '\r', ' ', '\U{85}', '\U{A0}', '\U{1680}'}
    || '\U{2000}' <= c <= '\U{200a}'
    || c in {'\U{2028}', '\U{2029}', '\U{202f}', '\U{205f}', '\U{3000}'}
  }

  function TrimLeft(s: string): string {
    if s != "" && IsSpace(s[0]) then TrimLeft(s[1..]) else s
  }

  function TrimRight(s: string): string {
    if s != "" && IsSpace(s[|s| - 1]) then TrimRight(s[..|s| - 1]) else s
  }

  /** A complete path at a comma: its parts, completed from the context. */
  function Resolve(parts: seq<string>, defaultNamespace: string, qc: Path): ListResult {
    match |parts|
    case 0 => Error("empty path")
    case 1 => Internal
    case 2 =>
      if parts[0] != "" then Paths([parts])
      else
        (match |qc|
         case 0 => Paths([parts[0 := defaultNamespace]])
         case 1 => Paths([parts[0 := qc[0]]])
         case 2 => Error("missing scope")
         case 3 => Paths([[qc[0], qc[1], qc[2], parts[1]]])
         case _ => Error("too many elements"))
    case 3 =>
      if |qc| == 0 || |qc| == 1 || parts[0] != "" then Error("missing collection")
      else if |qc| == 2 then Paths([[qc[0], qc[1], parts[1], parts[2]]])
      else Error("too many elements")
    case 4 => Paths([if parts[0] == "" then parts[0 := defaultNamespace] else parts])
    case _ => Error("too many elements")
  }

  /** Positions before character `i`: outside quotes a started element can be sliced. */
  ghost predicate InRange(st: ListScan, i: nat) {
    && st.start <= i
    && if st.quotes then st.start < i && st.end == -1 && !st.mustBeDelim
       else if st.end == -1 then st.start == i && !st.mustBeDelim
       else st.start <= st.end <= i && (!st.mustBeDelim ==> st.start < i)
  }

  /** The parts with the element that ends here; the namespace, perhaps empty, goes first. */
  function Push(st: ListScan, e: string): seq<string> {
    (if st.parts == [] then [st.namespace] else st.parts) + [e]
  }

  /** One character. */
  function ListStep(s: string, st: ListScan, i: nat, defaultNamespace: string, qc: Path): (n: Next)
    requires i < |s| && InRange(st, i)
    ensures n.Go? ==> InRange(n.st, i + 1)
  {
    var r := s[i];
    if r == '`' then
      if st.mustBeDelim then Stop(Error("invalid element quoting"))
      else if !st.quotes && st.start != i then Stop(Error("invalid element quoting"))
      else if st.quotes then Go(st.(mustBeDelim := true, start := st.start + 1, end := i, quotes := false))
      else Go(st.(quotes := true))
    else if st.quotes then Go(st)
    else if r == ':' then
      if st.parts != [] then Stop(Error("namespace must be the first element"))
      else if st.end == -1 then Stop(Fault)
      else Go(st.(mustBeDelim := false, namespace := s[st.start..st.end], start := i + 1, end := -1))
    else if r == '.' then
      if st.end == -1 then Stop(Fault)
      else Go(st.(mustBeDelim := false, parts := Push(st, s[st.start..st.end]), start := i + 1, end := -1))
    else if r == ',' then
      var parts := if st.start != i then Push(st, s[st.start..st.end]) else st.parts;
      match Resolve(parts, defaultNamespace, qc)
      case Paths(ps) => Go(ListScan(st.paths + ps, [], "", false, false, i + 1, -1))
      case bad => Stop(bad)
    else if IsSpace(r) then
      if st.end == -1 then Go(st.(start := st.start + 1)) else Go(st.(mustBeDelim := true))
    else if st.mustBeDelim then Stop(Error("invalid or missing element quoting"))
    else Go(st.(end := i + 1))
  }

  function ListFrom(s: string, st: ListScan, i: nat, defaultNamespace: string, qc: Path): ListResult
    requires i <= |s| && InRange(st, i)
    decreases |s| - i
  {
    if i == |s| then
      if st.quotes then Error("missing closing quote")
      else if st.start < |s| then Internal
      else Paths(st.paths)
    else
      match ListStep(s, st, i, defaultNamespace, qc)
      case Stop(r) => r
      case Go(st') => ListFrom(s, st', i + 1, defaultNamespace, qc)
  }

  lemma {:induction false} ListFromUnfolds(s: string, st: ListScan, i: nat, defaultNamespace: string, qc: Path)
    requires i <= |s| && InRange(st, i)
    ensures ListFrom(s, st, i, defaultNamespace, qc) ==
      if i == |s| then
        if st.quotes then Error("missing closing quote") else if st.start < |s| then Internal else Paths(st.paths)
      else
        match ListStep(s, st, i, defaultNamespace, qc)
        case Stop(r) => r
        case Go(st') => ListFrom(s, st', i + 1, defaultNamespace, qc)
  {
  }

  const EMPTY := ListScan([], [], "", false, false, 0, -1)

  /** The query context, nothing for an empty one. */
  function Context(defaultNamespace: string, queryContext: string): Path {
    var qc := ParseQueryContext(queryContext);
    if qc == [""] then [] else if qc[0] == "" then qc[0 := defaultNamespace] else qc
  }

  function ParseList(pathsStr: string, defaultNamespace: string, queryContext: string): ListResult {
    var s := TrimRight(TrimLeft(pathsStr));
    if s != "" && s[|s| - 1] == ',' then Error("empty path")
    else ListFrom(s + ",", EMPTY, 0, defaultNamespace, Context(defaultNamespace, queryContext))
  }

  /** `ParseAndValidatePathList`, with its moving positions and flags. */
  method ParseAndValidatePathList(pathsStr: string, defaultNamespace: string, queryContext: string) returns (r: ListResult)
    ensures r == ParseList(pathsStr, defaultNamespace, queryContext)
  {
    hide Resolve, IsSpace, ListFrom, Parse;
    var qc := Context(defaultNamespace, queryContext);
    var s := TrimRight(TrimLeft(pathsStr));
    if s != "" && s[|s| - 1] == ',' {
      return Error("empty path");
    }
    s := s + ",";
    var paths: seq<Path>, parts: seq<string>, namespace := [], [], "";
    var mustBeDelim, quotes, start: nat, end := false, false, 0, -1;
    for i := 0 to |s|
      invariant InRange(ListScan(paths, parts, namespace, mustBeDelim, quotes, start, end), i)
      invariant ListFrom(s, EMPTY, 0, defaultNamespace, qc)
             == ListFrom(s, ListScan(paths, parts, namespace, mustBeDelim, quotes, start, end), i, defaultNamespace, qc)
    {
      ListFromUnfolds(s, ListScan(paths, parts, namespace, mustBeDelim, quotes, start, end), i, defaultNamespace, qc);
      var c := s[i];
      if c == '`' {
        if mustBeDelim || (!quotes && start != i) {
          return Error("invalid element quoting");
        } else if quotes {
          mustBeDelim, start, end := true, start + 1, i;
        }
        quotes := !quotes;
      } else if quotes {
      } else if c == ':' {
        mustBeDelim := false;
        if |parts| != 0 {
          return Error("namespace must be the first element");
        }
        if end == -1 {
          return Fault;
        }
        namespace, start, end := s[start..end], i + 1, -1;
      } else if c == '.' {
        mustBeDelim := false;
        if end == -1 {
          return Fault;
        }
        if |parts| == 0 {
          parts := [namespace];
        }
        parts, start, end := parts + [s[start..end]], i + 1, -1;
      } else if c == ',' {
        mustBeDelim := false;
        if start != i {
          if |parts| == 0 {
            parts := [namespace];
          }
          parts := parts + [s[start..end]];
        }
        var resolved := Resolve(parts, defaultNamespace, qc);
        if !resolved.Paths? {
          return resolved;
        }
        paths := paths + resolved.paths;
        start, end, namespace, parts := i + 1, -1, "", [];
      } else if IsSpace(c) {
        if end == -1 {
          start := start + 1;
        } else {
          mustBeDelim := true;
        }
      } else if mustBeDelim {
        return Error("invalid or missing element quoting");
      } else {
        end := i + 1;
      }
    }
    ListFromUnfolds(s, ListScan(paths, parts, namespace, mustBeDelim, quotes, start, end), |s|, defaultNamespace, qc);
    if quotes {
      return Error("missing closing quote");
    } else if start < |s| {
      return Internal;
    }
    return Paths(paths);
  }

  // ---- Whatever is accepted is complete

  /** Two or four elements and a namespace. */
  predicate Complete(p: Path) {
    (|p| == 2 || |p| == 4) && p[0] != ""
  }

  ghost predicate AllComplete(ps: seq<Path>) {
    forall m :: 0 <= m < |ps| ==> Complete(ps[m])
  }

  lemma {:induction false} ResolveCompletes(parts: seq<string>, defaultNamespace: string, qc: Path)
    requires defaultNamespace != "" && (qc != [] ==> qc[0] != "")
    ensures var r := Resolve(parts, defaultNamespace, qc); r.Paths? ==> AllComplete(r.paths)
  {
  }

  lemma {:induction false} AcceptedIsComplete(s: string, st: ListScan, i: nat, defaultNamespace: string, qc: Path)
    requires i <= |s| && InRange(st, i) && AllComplete(st.paths)
    requires defaultNamespace != "" && (qc != [] ==> qc[0] != "")
    ensures var r := ListFrom(s, st, i, defaultNamespace, qc); r.Paths? ==> AllComplete(r.paths)
    decreases |s| - i
  {
    hide Resolve, IsSpace, Complete;
    if i < |s| {
      match ListStep(s, st, i, defaultNamespace, qc)
      case Stop(_) =>
      case Go(st') =>
        if s[i] == ',' && !st.quotes {
          ResolveCompletes(if st.start != i then Push(st, s[st.start..st.end]) else st.parts, defaultNamespace, qc);
        }
        AcceptedIsComplete(s, st', i + 1, defaultNamespace, qc);
    }
  }

  /** Any string that is accepted, under any context, gives paths of two or four elements with a namespace. */
  lemma {:induction false} ListAcceptsOnlyCompletePaths(pathsStr: string, defaultNamespace: string, queryContext: string)
    requires defaultNamespace != ""
    ensures var r := ParseList(pathsStr, defaultNamespace, queryContext); r.Paths? ==> AllComplete(r.paths)
  {
    hide ListFrom, Parse;
    var s := TrimRight(TrimLeft(pathsStr));
    AcceptedIsComplete(s + ",", EMPTY, 0, defaultNamespace, Context(defaultNamespace, queryContext));
  }

  // ---- The outcomes the source calls impossible

  lemma {:induction false} NeverInternalFrom(s: string, st: ListScan, i: nat, defaultNamespace: string, qc: Path)
    requires i <= |s| && InRange(st, i) && |st.parts| != 1
    requires s != "" && s[|s| - 1] == ',' && (i > 0 && s[i - 1] == ',' && !st.quotes ==> st.start == i)
    ensures !ListFrom(s, st, i, defaultNamespace, qc).Internal?
    decreases |s| - i
  {
    hide IsSpace;
    if i < |s| {
      match ListStep(s, st, i, defaultNamespace, qc)
      case Stop(_) =>
      case Go(st') => NeverInternalFrom(s, st', i + 1, defaultNamespace, qc);
    }
  }

  /** Neither branch marked as an internal error is ever taken. */
  lemma {:induction false} ListIsNeverInternal(pathsStr: string, defaultNamespace: string, queryContext: string)
    ensures !ParseList(pathsStr, defaultNamespace, queryContext).Internal?
  {
    hide ListFrom, Parse;
    var s := TrimRight(TrimLeft(pathsStr));
    NeverInternalFrom(s + ",", EMPTY, 0, defaultNamespace, Context(defaultNamespace, queryContext));
  }

  // ---- Reading back a printed list

  /** Protected paths, each followed by a comma. */
  function Text(ps: seq<Path>): string {
    if ps == [] then "" else Print(true, ps[0]) + "," + Text(ps[1..])
  }

  /** Protected paths, joined by commas. */
  function Joined(ps: seq<Path>): string
    requires ps != []
  {
    if |ps| == 1 then Print(true, ps[0]) else Print(true, ps[0]) + "," + Joined(ps[1..])
  }

  /** At the beginning of an element. */
  ghost predicate FreshElement(st: ListScan, i: nat) {
    st.start == i && st.end == -1 && !st.quotes && !st.mustBeDelim
  }

  lemma {:induction false} ListInside(s: string, st: ListScan, i: nat, e: string, dn: string, qc: Path)
    requires Has(s, i, e) && '`' !in e && st.quotes && InRange(st, i)
    ensures ListFrom(s, st, i, dn, qc) == ListFrom(s, st, i + |e|, dn, qc)
    decreases |e|
  {
    hide Resolve, IsSpace;
    if e != "" {
      assert s[i] == e[0];
      ListFromUnfolds(s, st, i, dn, qc);
      ListInside(s, st, i + 1, e[1..], dn, qc);
    }
  }

  lemma {:induction false} ListQuoted(s: string, st: ListScan, i: nat, e: string, dn: string, qc: Path)
    requires FreshElement(st, i) && Has(s, i, "`" + e + "`") && '`' !in e
    ensures ListFrom(s, st, i, dn, qc)
         == ListFrom(s, st.(mustBeDelim := true, start := i + 1, end := i + 1 + |e|), i + |e| + 2, dn, qc)
    ensures s[i + 1..i + 1 + |e|] == e
  {
    hide Resolve, IsSpace, ListFrom;
    HasConcat(s, i, "`" + e, "`");
    HasConcat(s, i, "`", e);
    HasSlice(s, i + 1, e);
    assert s[i] == '`' && s[i + 1 + |e|] == '`';
    ListFromUnfolds(s, st, i, dn, qc);
    ListFromUnfolds(s, st.(quotes := true), i + 1 + |e|, dn, qc);
    ListInside(s, st.(quotes := true), i + 1, e, dn, qc);
  }

  /** A quoted element and the separator after it. */
  lemma {:induction false} ListPiece(s: string, st: ListScan, i: nat, e: string, separator: char, dn: string, qc: Path)
    requires FreshElement(st, i) && Has(s, i, "`" + e + "`" + [separator]) && '`' !in e
    requires separator == '.' || (separator == ':' && st.parts == [])
    ensures ListFrom(s, st, i, dn, qc) == ListFrom(s,
      (if separator == ':' then st.(namespace := e) else st.(parts := Push(st, e))).(start := i + |e| + 3, end := -1),
      i + |e| + 3, dn, qc)
  {
    hide Resolve, IsSpace;
    HasConcat(s, i, "`" + e + "`", [separator]);
    ListQuoted(s, st, i, e, dn, qc);
    assert s[i + |e| + 2] == separator;
  }

  /** What becomes of the list when the path that ends before position `j` is resolved. */
  function After(s: string, paths: seq<Path>, resolved: ListResult, j: nat, dn: string, qc: Path): ListResult
    requires j <= |s|
  {
    match resolved
    case Paths(ps) => ListFrom(s, ListScan(paths + ps, [], "", false, false, j, -1), j, dn, qc)
    case bad => bad
  }

  /** The last element of a path and its comma. */
  lemma {:induction false} ListLast(s: string, st: ListScan, i: nat, e: string, p: Path, dn: string, qc: Path)
    requires FreshElement(st, i) && Has(s, i, "`" + e + "`" + ",") && '`' !in e
    requires Push(st, e) == p
    ensures ListFrom(s, st, i, dn, qc) == After(s, st.paths, Resolve(p, dn, qc), i + |e| + 3, dn, qc)
  {
    hide Resolve;
    HasConcat(s, i, "`" + e + "`", ",");
    ListQuoted(s, st, i, e, dn, qc);
    assert s[i + |e| + 2] == ',';
  }

  /** Elements `k..` of a path and its comma. */
  lemma {:induction false} ListElements(s: string, st: ListScan, i: nat, p: Path, k: nat, dn: string, qc: Path)
    requires FreshElement(st, i) && NoBackTick(p) && 1 <= k < |p|
    requires st.namespace == p[0] && st.parts == if k == 1 then [] else p[..k]
    requires Has(s, i, PrintFrom(true, false, p, k, |p| - 1) + ",")
    ensures i + |PrintFrom(true, false, p, k, |p| - 1)| + 1 <= |s|
    ensures ListFrom(s, st, i, dn, qc)
         == After(s, st.paths, Resolve(p, dn, qc), i + |PrintFrom(true, false, p, k, |p| - 1)| + 1, dn, qc)
    decreases |p| - k
  {
    hide ListFrom, Has, PrintFrom, Resolve, IsSpace, After;
    WithinBounds(s, i, PrintFrom(true, false, p, k, |p| - 1) + ",");
    var e := p[k];
    var shown := "`" + e + "`";
    var rest := PrintFrom(true, false, p, k + 1, |p| - 1);
    PrintStep(true, false, p, k, |p| - 1);
    PushIsPrefix(st, p, k);
    if k == |p| - 1 {
      PrintEnds(true, false, p, k + 1, |p| - 1);
      assert shown + "" + "" == shown;
      ListLast(s, st, i, e, p, dn, qc);
    } else {
      Regroup(shown, ".", rest, ",");
      HasConcat(s, i, shown + ".", rest + ",");
      ListPiece(s, st, i, e, '.', dn, qc);
      ListElements(s, st.(parts := Push(st, e), start := i + |e| + 3, end := -1), i + |e| + 3, p, k + 1, dn, qc);
    }
  }

  lemma {:induction false} PushIsPrefix(st: ListScan, p: Path, k: nat)
    requires 1 <= k < |p| && st.namespace == p[0] && st.parts == if k == 1 then [] else p[..k]
    ensures Push(st, p[k]) == p[..k + 1] && (k == |p| - 1 ==> Push(st, p[k]) == p)
  {
    assert p[..1] == [p[0]];
  }

  lemma {:induction false} WithinBounds(s: string, i: nat, t: string)
    requires Has(s, i, t)
    ensures i + |t| <= |s|
  {
  }

  /** A whole path and its comma. */
  lemma {:induction false} ListPath(s: string, st: ListScan, i: nat, p: Path, dn: string, qc: Path)
    requires FreshElement(st, i) && st.parts == [] && st.namespace == "" && |p| >= 2 && NoBackTick(p)
    requires Has(s, i, Print(true, p) + ",")
    ensures i + |Print(true, p)| + 1 <= |s|
    ensures ListFrom(s, st, i, dn, qc) == After(s, st.paths, Resolve(p, dn, qc), i + |Print(true, p)| + 1, dn, qc)
  {
    hide ListFrom, Has, PrintFrom, Resolve, IsSpace, After;
    WithinBounds(s, i, Print(true, p) + ",");
    var e, n := p[0], |p|;
    var rest := PrintFrom(true, false, p, 1, n - 1);
    PrintStep(true, false, p, 0, n - 1);
    if e == "" {
      ListElements(s, st, i, p, 1, dn, qc);
    } else {
      Regroup("`" + e + "`", ":", rest, ",");
      HasConcat(s, i, "`" + e + "`" + ":", rest + ",");
      ListPiece(s, st, i, e, ':', dn, qc);
      ListElements(s, st.(namespace := e, start := i + |e| + 3, end := -1), i + |e| + 3, p, 1, dn, qc);
    }
  }

  lemma {:induction false} ListAll(s: string, st: ListScan, i: nat, ps: seq<Path>, dn: string, qc: Path)
    requires FreshElement(st, i) && st.parts == [] && st.namespace == "" && AllComplete(ps) && forall m :: 0 <= m < |ps| ==> NoBackTick(ps[m])
    requires Has(s, i, Text(ps)) && i + |Text(ps)| == |s|
    ensures ListFrom(s, st, i, dn, qc) == Paths(st.paths + ps)
    decreases |ps|
  {
    hide Has, PrintFrom, ListStep;
    if ps == [] {
      assert st.paths + ps == st.paths;
    } else {
      var p, j := ps[0], i + |Print(true, ps[0])| + 1;
      HasConcat(s, i, Print(true, p) + ",", Text(ps[1..]));
      ListPath(s, st, i, p, dn, qc);
      assert Resolve(p, dn, qc) == Paths([p]) by { assert Complete(p); }
      ListAll(s, ListScan(st.paths + [p], [], "", false, false, j, -1), j, ps[1..], dn, qc);
      assert st.paths + [p] + ps[1..] == st.paths + ps;
    }
  }

  lemma {:induction false} JoinedIsText(ps: seq<Path>)
    requires ps != []
    ensures Joined(ps) + "," == Text(ps)
    decreases |ps|
  {
    hide PrintFrom;
    if |ps| == 1 {
      assert Text(ps[1..]) == "";
    } else {
      JoinedIsText(ps[1..]);
      Regroup(Print(true, ps[0]), ",", Joined(ps[1..]), ",");
    }
  }

  /** Protected text begins and ends with a back tick. */
  ghost predicate Ticked(s: string) {
    s != "" && s[0] == '`' && s[|s| - 1] == '`'
  }

  lemma {:induction false} PrintIsTicked(p: Path, k: nat)
    requires k < |p| && (k == 0 ==> p[0] != "")
    ensures Ticked(PrintFrom(true, false, p, k, |p| - 1))
    decreases |p| - k
  {
    hide PrintFrom;
    PrintStep(true, false, p, k, |p| - 1);
    if k == |p| - 1 {
      PrintEnds(true, false, p, k + 1, |p| - 1);
    } else {
      PrintIsTicked(p, k + 1);
    }
  }

  lemma {:induction false} JoinedIsTicked(ps: seq<Path>)
    requires ps != [] && AllComplete(ps)
    ensures Ticked(Joined(ps))
    decreases |ps|
  {
    hide PrintFrom;
    PrintIsTicked(ps[0], 0);
    if |ps| > 1 {
      JoinedIsTicked(ps[1..]);
    }
  }

  /** A printed list of complete paths without back ticks is read back, under any default namespace and context. */
  lemma {:induction false} ListRoundTrip(ps: seq<Path>, defaultNamespace: string, queryContext: string)
    requires ps != [] && AllComplete(ps) && forall m :: 0 <= m < |ps| ==> NoBackTick(ps[m])
    ensures ParseList(Joined(ps), defaultNamespace, queryContext) == Paths(ps)
  {
    hide ListFrom, Parse, PrintFrom;
    var s := Joined(ps);
    JoinedIsTicked(ps);
    assert !IsSpace('`');
    assert TrimRight(TrimLeft(s)) == s;
    JoinedIsText(ps);
    ListAll(s + ",", EMPTY, 0, ps, defaultNamespace, Context(defaultNamespace, queryContext));
    assert [] + ps == ps;
  }
}
