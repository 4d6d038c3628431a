/**
 Which texts the path validator accepts, quoted or not, and how many parts it counts.
 */
module PathValidatorOutcome {
  import opened PathText
  import opened PathScannerOutcome
  import opened PathValidator

  /** A character that makes an element count, quoted or not. */
  predicate Visible(s: string, t: int) {
    0 <= t < |s| && s[t] != '`' && s[t] != ':' && s[t] != '.'
  }

  /** The element before position `i` has such a character. */
  ghost predicate Begun(s: string, i: int) {
    exists t :: 0 <= t < i && Visible(s, t) && forall u :: t < u < i ==> !Cuts(s, u)
  }

  ghost predicate CutBefore(s: string, i: int) {
    exists t :: 0 <= t < i && Cuts(s, t)
  }

  ghost predicate ClosedBefore(s: string, i: int) {
    exists t :: 0 <= t < i && Closes(s, t)
  }

  /**
   A back tick opens inside an element that follows a cut; a colon is not the first cut; a cut does not come right after
   the last closing back tick; a dot has no element before it.
   */
  ghost predicate Offends(s: string, i: int) {
    || (Opens(s, i) && CutBefore(s, i) && !Cuts(s, i - 1))
    || (Cuts(s, i) && s[i] == ':' && CutBefore(s, i))
    || (Cuts(s, i) && ClosedBefore(s, i) && !Closes(s, i - 1))
    || (Cuts(s, i) && s[i] == '.' && !Begun(s, i))
  }

  /** The elements before `i` that count. */
  ghost function Elements(s: string, i: nat): nat {
    if i == 0 then 0 else Elements(s, i - 1) + if Visible(s, i - 1) && !Begun(s, i - 1) then 1 else 0
  }

  /** A namespace is implied by a dot as first cut, and by a colon with nothing before it. */
  ghost function Implied(s: string, i: nat): nat {
    var f := FirstCut(s, i);
    if 0 <= f < |s| && (s[f] == '.' || Elements(s, f) == 0) then 1 else 0
  }

  // ---- What the check knows at a position

  ghost predicate Tracks(s: string, st: Check, i: nat) {
    && i <= |s|
    && st.inBackTick == Ticks(s, i)
    && (st.hasNamespace <==> CutBefore(s, i))
    && (st.countPart <==> !Begun(s, i))
    && -1 <= st.lastTerminator < i && (st.lastTerminator >= 0 <==> CutBefore(s, i))
    && (i > 0 ==> (st.lastTerminator == i - 1 <==> Cuts(s, i - 1)))
    && -1 <= st.lastBackTick < i && (st.lastBackTick >= 0 <==> ClosedBefore(s, i))
    && (i > 0 ==> (st.lastBackTick == i - 1 <==> Closes(s, i - 1)))
    && st.parts == Elements(s, i) + Implied(s, i)
  }

  lemma {:induction false} NextText(s: string, i: nat)
    requires i < |s|
    ensures Ticks(s, i + 1) == if s[i] == '`' then !Ticks(s, i) else Ticks(s, i)
    ensures CutBefore(s, i + 1) <==> CutBefore(s, i) || Cuts(s, i)
    ensures ClosedBefore(s, i + 1) <==> ClosedBefore(s, i) || Closes(s, i)
    ensures Begun(s, i + 1) <==> !Cuts(s, i) && (Begun(s, i) || Visible(s, i))
  {
    if Begun(s, i) && !Cuts(s, i) {
      var t :| 0 <= t < i && Visible(s, t) && forall u :: t < u < i ==> !Cuts(s, u);
      assert forall u :: t < u < i + 1 ==> !Cuts(s, u);
    }
    if Begun(s, i + 1) {
      var t :| 0 <= t < i + 1 && Visible(s, t) && forall u :: t < u < i + 1 ==> !Cuts(s, u);
      assert t < i || t == i;
    }
  }

  lemma {:induction false} NextCounts(s: string, i: nat)
    requires i < |s|
    ensures Elements(s, i + 1) == Elements(s, i) + if Visible(s, i) && !Begun(s, i) then 1 else 0
    ensures Implied(s, i + 1) == if CutBefore(s, i) then Implied(s, i) else if Cuts(s, i) && (s[i] == '.' || Elements(s, i) == 0) then 1 else 0
    ensures !CutBefore(s, i) ==> Implied(s, i) == 0
  {
    hide Begun, Visible;
    NextCuts(s, i);
    FirstIsBefore(s, i);
  }

  lemma {:induction false} FirstIsBefore(s: string, i: nat)
    ensures FirstCut(s, i) < i && (FirstCut(s, i) >= 0 <==> CutBefore(s, i))
  {
    if i > 0 {
      FirstIsBefore(s, i - 1);
    }
  }

  /** The check stops exactly at an offence. */
  lemma {:induction false} StepTracks(s: string, st: Check, i: nat)
    requires i < |s| && Tracks(s, st, i)
    ensures
      var next := CheckStep(st, s[i], i);
      && (next.Stop? <==> Offends(s, i))
      && (next.Go? ==> Tracks(s, next.st, i + 1))
  {
    hide Begun, CutBefore, ClosedBefore, Elements, Implied, Ticks;
    NextText(s, i);
    NextCounts(s, i);
  }

  lemma {:induction false} CheckFromExactly(s: string, st: Check, i: nat)
    requires Tracks(s, st, i)
    ensures CheckFrom(s, st, i).Good? <==> !Ticks(s, |s|) && forall j :: i <= j < |s| ==> !Offends(s, j)
    ensures CheckFrom(s, st, i).Good? ==> CheckFrom(s, st, i).parts == Elements(s, |s|) + Implied(s, |s|)
    decreases |s| - i
  {
    hide Offends, CheckStep, Elements, Implied, Ticks;
    if i < |s| {
      StepTracks(s, st, i);
      match CheckStep(st, s[i], i)
      case Stop(_) =>
      case Go(st') => CheckFromExactly(s, st', i + 1);
    }
  }

  /** A text is accepted exactly if its back ticks are closed and nothing in it offends, and its parts are the elements that count and an implied namespace. */
  lemma {:induction false} AcceptedExactly(s: string)
    ensures Validate(s).Good? <==> !Ticks(s, |s|) && forall i :: 0 <= i < |s| ==> !Offends(s, i)
    ensures Validate(s).Good? ==> Validate(s).parts == Elements(s, |s|) + Implied(s, |s|)
  {
    hide Offends, CheckFrom;
    FirstIsBefore(s, 0);
    CheckFromExactly(s, INITIAL_CHECK, 0);
  }
}
