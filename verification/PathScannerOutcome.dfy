/**
 What the path scanner reads from any text, printed or not: where it cuts, and which part of the text between two cuts
 becomes the element.
 */
module PathScannerOutcome {
  import opened PathText
  import opened PathScanner

  /** A colon or a dot outside back ticks. */
  predicate Cuts(s: string, t: int) {
    0 <= t < |s| && (s[t] == ':' || s[t] == '.') && !Ticks(s, t)
  }

  predicate Opens(s: string, t: int) {
    0 <= t < |s| && s[t] == '`' && !Ticks(s, t)
  }

  predicate Closes(s: string, t: int) {
    0 <= t < |s| && s[t] == '`' && Ticks(s, t)
  }

  /** The element up to `b` begins at `a`: after the last cut or opening back tick before `b`, or with the text. */
  ghost predicate Begins(s: string, a: int, b: int) {
    && 0 <= a <= b <= |s|
    && (a == 0 || Cuts(s, a - 1) || Opens(s, a - 1))
    && forall t :: a <= t < b ==> !Cuts(s, t) && !Opens(s, t)
  }

  function CutCount(s: string, i: nat): nat {
    if i == 0 then 0 else CutCount(s, i - 1) + if Cuts(s, i - 1) then 1 else 0
  }

  /** The first cut before `i`, or -1. */
  function FirstCut(s: string, i: nat): int {
    if i == 0 then -1
    else if FirstCut(s, i - 1) >= 0 then FirstCut(s, i - 1)
    else if Cuts(s, i - 1) then i - 1 else -1
  }

  /** Without a colon as first cut an empty namespace leads. */
  function Lead(s: string, i: nat): nat {
    if 0 <= FirstCut(s, i) < |s| && s[FirstCut(s, i)] == ':' then 0 else 1
  }

  /** The element that ends at the cut `c`: a back tick just before the cut is left out. */
  function Piece(s: string, a: nat, c: nat): string
    requires a <= c <= |s|
  {
    if a < c && Closes(s, c - 1) then s[a..c - 1] else s[a..c]
  }

  /** The last element: with a closing back tick it ends there, unless nothing is quoted, and what follows is dropped. */
  ghost predicate IsRest(s: string, a: int, e: string) {
    && 0 <= a < |s|
    && (forall t :: a < t < |s| && Closes(s, t) ==> e == s[a..t])
    && ((forall t :: a < t < |s| ==> !Closes(s, t)) ==> e == s[a..])
  }

  // ---- What the scan knows at a position

  /** Positions and flags. */
  ghost predicate At(s: string, st: Scan, i: nat) {
    && i <= |s| && Safe(st, i)
    && st.inBackTicks == Ticks(s, i)
    && Begins(s, st.start, i)
    && (st.inBackTicks ==> forall t :: st.start <= t < i ==> s[t] != '`')
    && (st.endBackTicks <==> Closes(s, i - 1))
    && (forall t :: st.start <= t < i && Closes(s, t) ==> st.end == t)
    && (st.start < st.end ==> st.end < i && Closes(s, st.end))
  }

  /** The elements so far. */
  ghost predicate Has(s: string, st: Scan, i: nat) {
    && (st.hasNamespace <==> FirstCut(s, i) >= 0)
    && |st.elements| == CutCount(s, i) + (if st.hasNamespace then Lead(s, i) else 0)
    && (st.hasNamespace && Lead(s, i) == 1 ==> st.elements[0] == "")
    && forall c, a :: 0 <= c < i && Cuts(s, c) && Begins(s, a, c) ==> HasPiece(s, st.elements, Lead(s, i), a, c)
  }

  ghost predicate HasPiece(s: string, elements: seq<string>, lead: nat, a: nat, c: nat)
    requires a <= c <= |s|
  {
    CutCount(s, c) + lead < |elements| && elements[CutCount(s, c) + lead] == Piece(s, a, c)
  }

  lemma {:induction false} NextCuts(s: string, i: nat)
    requires i < |s|
    ensures Ticks(s, i + 1) == if s[i] == '`' then !Ticks(s, i) else Ticks(s, i)
    ensures CutCount(s, i + 1) == CutCount(s, i) + if Cuts(s, i) then 1 else 0
    ensures FirstCut(s, i + 1) == if FirstCut(s, i) >= 0 then FirstCut(s, i) else if Cuts(s, i) then i else -1
  {
  }

  lemma {:induction false} BeginsOnce(s: string, a: int, a': int, b: int)
    requires Begins(s, a, b) && Begins(s, a', b)
    ensures a == a'
  {
  }

  lemma {:induction false} StepAt(s: string, st: Scan, i: nat)
    requires i < |s| && At(s, st, i)
    ensures At(s, Step(s, st, i), i + 1)
  {
    NextCuts(s, i);
    var st' := Step(s, st, i);
    if s[i] == '`' {
      TickAt(s, st, i);
    } else if Cuts(s, i) {
      assert Begins(s, i + 1, i + 1);
    } else {
      assert Begins(s, st.start, i + 1);
      assert !Closes(s, i);
    }
  }

  lemma {:induction false} TickAt(s: string, st: Scan, i: nat)
    requires i < |s| && At(s, st, i) && s[i] == '`'
    ensures At(s, Step(s, st, i), i + 1)
  {
    NextCuts(s, i);
    if st.inBackTicks {
      assert Begins(s, st.start, i + 1);
      assert forall t :: st.start <= t < i ==> !Closes(s, t);
    } else {
      assert Begins(s, i + 1, i + 1);
    }
  }

  lemma {:induction false} CountsStay(s: string, i: nat)
    ensures FirstCut(s, i) < i && (FirstCut(s, i) >= 0 ==> Cuts(s, FirstCut(s, i)))
    ensures FirstCut(s, i) >= 0 <==> CutCount(s, i) > 0
  {
    if i > 0 {
      CountsStay(s, i - 1);
    }
  }

  lemma {:induction false} FewerCuts(s: string, c: nat, i: nat)
    requires c < i <= |s| && Cuts(s, c)
    ensures CutCount(s, c) < CutCount(s, i)
  {
    if c < i - 1 {
      FewerCuts(s, c, i - 1);
    }
  }

  lemma {:induction false} CutHas(s: string, st: Scan, i: nat)
    requires i < |s| && At(s, st, i) && Has(s, st, i) && Cuts(s, i)
    ensures Has(s, Step(s, st, i), i + 1)
  {
    hide Begins, At, HasPiece;
    AtIsSafe(s, st, i);
    NextCuts(s, i);
    CountsStay(s, i);
    var st' := Step(s, st, i);
    CutElements(s, st, i);
    forall c, a | 0 <= c < i + 1 && Cuts(s, c) && Begins(s, a, c) ensures 0 <= a <= c && HasPiece(s, st'.elements, Lead(s, i + 1), a, c) {
      InsideText(s, a, c);
      if c < i {
        assert HasPiece(s, st.elements, Lead(s, i), a, c);
        PieceStays(s, st, i, a, c);
      } else {
        BeginsOnce(s, a, st.start, i);
      }
    }
  }

  lemma {:induction false} PieceStays(s: string, st: Scan, i: nat, a: nat, c: nat)
    requires i < |s| && At(s, st, i) && Has(s, st, i) && Cuts(s, i)
    requires a <= c < i && Cuts(s, c) && HasPiece(s, st.elements, Lead(s, i), a, c)
    ensures HasPiece(s, Step(s, st, i).elements, Lead(s, i + 1), a, c)
  {
    hide Begins, Piece;
    NextCuts(s, i);
    CountsStay(s, i);
    FewerCuts(s, c, i);
    assert st.hasNamespace;
  }

  /** The element of a cut, with an empty namespace before it if it is the first and a dot. */
  lemma {:induction false} CutElements(s: string, st: Scan, i: nat)
    requires i < |s| && At(s, st, i) && Has(s, st, i) && Cuts(s, i)
    ensures
      var st' := Step(s, st, i);
      && st'.hasNamespace && |st'.elements| == CutCount(s, i + 1) + Lead(s, i + 1)
      && (Lead(s, i + 1) == 1 ==> st'.elements[0] == "")
      && HasPiece(s, st'.elements, Lead(s, i + 1), st.start, i) && Begins(s, st.start, i)
  {
    hide Begins, Piece;
    NextCuts(s, i);
    CountsStay(s, i);
    CutPiece(s, st, i);
  }

  lemma {:induction false} InsideText(s: string, a: int, b: int)
    requires Begins(s, a, b)
    ensures 0 <= a <= b <= |s|
  {
  }

  lemma {:induction false} CutPiece(s: string, st: Scan, i: nat)
    requires i < |s| && At(s, st, i) && Cuts(s, i)
    ensures
      var elements := Step(s, st, i).elements;
      elements != [] && elements[|elements| - 1] == Piece(s, st.start, i)
  {
    if Closes(s, i - 1) {
      assert !Cuts(s, i - 1) && !Opens(s, i - 1);
    }
  }

  lemma {:induction false} OtherHas(s: string, st: Scan, i: nat)
    requires i < |s| && At(s, st, i) && Has(s, st, i) && !Cuts(s, i)
    ensures Has(s, Step(s, st, i), i + 1)
  {
    hide Begins;
    NextCuts(s, i);
    var st' := Step(s, st, i);
    assert st'.elements == st.elements && st'.hasNamespace == st.hasNamespace && Lead(s, i + 1) == Lead(s, i);
    forall c, a | 0 <= c < i + 1 && Cuts(s, c) && Begins(s, a, c) ensures 0 <= a <= c && HasPiece(s, st'.elements, Lead(s, i + 1), a, c) {
      InsideText(s, a, c);
      assert HasPiece(s, st.elements, Lead(s, i), a, c);
    }
  }

  lemma {:induction false} RunHas(s: string, st: Scan, i: nat)
    requires i <= |s| && At(s, st, i) && Has(s, st, i)
    ensures At(s, Run(s, st, i, |s|), |s|) && Has(s, Run(s, st, i, |s|), |s|)
    decreases |s| - i
  {
    hide At, Has;
    AtIsSafe(s, st, i);
    if i < |s| {
      StepAt(s, st, i);
      if Cuts(s, i) {
        CutHas(s, st, i);
      } else {
        OtherHas(s, st, i);
      }
      RunHas(s, Step(s, st, i), i + 1);
    }
  }

  lemma {:induction false} AtIsSafe(s: string, st: Scan, i: nat)
    requires At(s, st, i)
    ensures Safe(st, i)
  {
  }

  lemma {:induction false} StartHas(s: string)
    ensures At(s, INITIAL, 0) && Has(s, INITIAL, 0)
  {
  }

  /**
   Every cut ends an element, numbered by the cuts before it; an empty namespace leads unless the first cut is a colon;
   and what is left after the last cut and opening back tick is the last element.
   */
  lemma {:induction false} ReadExactly(s: string)
    ensures Lead(s, |s|) == 1 ==> Parse(s)[0] == ""
    ensures forall c, a :: 0 <= c < |s| && Cuts(s, c) && Begins(s, a, c) ==> HasPiece(s, Parse(s), Lead(s, |s|), a, c)
    ensures forall a :: Begins(s, a, |s|) ==>
      && |Parse(s)| == CutCount(s, |s|) + Lead(s, |s|) + (if a < |s| then 1 else 0)
      && (a < |s| ==> IsRest(s, a, Parse(s)[|Parse(s)| - 1]))
  {
    hide Begins;
    StartHas(s);
    RunHas(s, INITIAL, 0);
    var st := Run(s, INITIAL, 0, |s|);
    CountsStay(s, |s|);
    forall c, a | 0 <= c < |s| && Cuts(s, c) && Begins(s, a, c) ensures 0 <= a <= c && HasPiece(s, Parse(s), Lead(s, |s|), a, c) {
      InsideText(s, a, c);
      FewerCuts(s, c, |s|);
      assert HasPiece(s, st.elements, Lead(s, |s|), a, c);
    }
    forall a | Begins(s, a, |s|)
      ensures |Parse(s)| == CutCount(s, |s|) + Lead(s, |s|) + (if a < |s| then 1 else 0)
      ensures a < |s| ==> IsRest(s, a, Parse(s)[|Parse(s)| - 1])
    {
      BeginsOnce(s, a, st.start, |s|);
    }
  }
}
