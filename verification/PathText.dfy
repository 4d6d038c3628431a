/**
 Printing keyspace paths (algebra/path.go). A path is a namespace followed by one or three
 names (keyspace, or bucket, scope and collection). Strings are sequences of single units.
 */
module PathText {

  type Path = seq<string>

  predicate NoBackTick(p: Path) {
    forall i :: 0 <= i < |p| ==> '`' !in p[i]
  }

  /** An element as printed: in back ticks when forced to, or when it holds a dot. */
  function Shown(force: bool, e: string): string {
    if force || '.' in e then "`" + e + "`" else e
  }

  /** What follows element `i` when `last` is the last one printed. */
  function Separator(isContext: bool, i: nat, last: int): string {
    if i < last then (if i == 0 then ":" else ".")
    else if isContext && i == 0 then ":" else ""
  }

  /** Elements `i..last`; an empty namespace is left out together with its separator. */
  function PrintFrom(force: bool, isContext: bool, p: Path, i: nat, last: int): string
    requires last < |p|
    decreases last + 1 - i
  {
    if i > last then ""
    else if i == 0 && p[i] == "" then PrintFrom(force, isContext, p, i + 1, last)
    else Shown(force, p[i]) + Separator(isContext, i, last) + PrintFrom(force, isContext, p, i + 1, last)
  }

  /** `FullName` when not forced, `ProtectedString` when forced. */
  function Print(force: bool, p: Path): string {
    PrintFrom(force, false, p, 0, |p| - 1)
  }

  /** `QueryContext`: all but the last element; a namespace on its own keeps its colon. */
  function PrintContext(p: Path): string {
    if p == [] then "" else PrintFrom(false, true, p, 0, |p| - 2)
  }

  /** The character at `i` is between back ticks. */
  predicate Ticks(s: string, i: nat)
    requires i <= |s|
  {
    i > 0 && if s[i - 1] == '`' then !Ticks(s, i - 1) else Ticks(s, i - 1)
  }

  /** `pathFromParts`, with its string builder. */
  method PathFromParts(force: bool, isContext: bool, elements: Path) returns (sb: string)
    ensures !isContext ==> sb == PrintFrom(force, false, elements, 0, |elements| - 1)
    ensures isContext && elements != [] ==> sb == PrintFrom(force, true, elements, 0, |elements| - 2)
    ensures isContext && elements == [] ==> sb == ""
  {
    hide PrintFrom;
    sb := "";
    var lastIndex := |elements| - 1;
    if isContext {
      lastIndex := lastIndex - 1;
    }
    ghost var whole := PrintFrom(force, isContext, elements, 0, lastIndex);
    var i := 0;
    while i <= lastIndex
      invariant 0 <= i && whole == sb + PrintFrom(force, isContext, elements, i, lastIndex)
      decreases lastIndex + 1 - i
    {
      PrintStep(force, isContext, elements, i, lastIndex);
      var s := elements[i];
      ghost var before := sb;
      if i == 0 && s == "" {
        i := i + 1;
        continue;
      }
      ghost var shown, separator := Shown(force, s), Separator(isContext, i, lastIndex);
      Regroup(sb, shown, separator, PrintFrom(force, isContext, elements, i + 1, lastIndex));
      if force || '.' in s {
        sb := sb + ("`" + s + "`");
      } else {
        sb := sb + s;
      }
      if i < lastIndex {
        sb := sb + if i == 0 then ":" else ".";
      } else if isContext && i == 0 {
        sb := sb + ":";
      }
      assert separator == "" ==> before + shown + separator == before + shown;
      i := i + 1;
    }
    PrintEnds(force, isContext, elements, i, lastIndex);
    if lastIndex < 0 {
      PrintEnds(force, isContext, elements, 0, lastIndex);
    }
  }

  lemma {:induction false} PrintStep(force: bool, isContext: bool, p: Path, i: nat, last: int)
    requires i <= last < |p|
    ensures PrintFrom(force, isContext, p, i, last) ==
      if i == 0 && p[i] == "" then PrintFrom(force, isContext, p, i + 1, last)
      else Shown(force, p[i]) + Separator(isContext, i, last) + PrintFrom(force, isContext, p, i + 1, last)
  {
  }

  lemma {:induction false} PrintEnds(force: bool, isContext: bool, p: Path, i: nat, last: int)
    requires last < i && last < |p|
    ensures PrintFrom(force, isContext, p, i, last) == ""
  {
  }

  lemma {:induction false} Regroup(a: string, b: string, c: string, d: string)
    ensures a + (b + c + d) == a + b + c + d == a + b + (c + d)
  {
  }

  /** A context of at least two elements prints like the path of these elements. */
  lemma {:induction false} ContextPrintsLikePath(p: Path, i: nat)
    requires |p| >= 3 && i < |p| - 1
    ensures PrintFrom(false, true, p, i, |p| - 2) == PrintFrom(false, false, p[..|p| - 1], i, |p| - 2)
    decreases |p| - i
  {
    if i < |p| - 2 {
      ContextPrintsLikePath(p, i + 1);
    }
  }
}
