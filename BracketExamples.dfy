// Worked examples of the bracket rule of the script-run iterator, on an
// Arabic word in parentheses. Each lemma follows script_iterator_next
// through the text one character or one stretch of letters at a time.
module BracketExamples {
  import opened Unicode
  import opened ScriptRuns
  import PairedChars

  /** Parentheses are the first two entries of the bracket table. */
  lemma ParenPairIndices()
    ensures PairIndexOf(0x28, Common) == 0 && PairIndexOf(0x29, Common) == 1
  {
    var table := PairedChars.PairedChars;
    assert table[0] == 0x28 && table[1] == 0x29 by {
      FrontOfJoin(PairedChars.Western, PairedChars.GeneralPunctuation);
      var w := PairedChars.Western + PairedChars.GeneralPunctuation;
      FrontOfJoin(w, PairedChars.MathBrackets);
      w := w + PairedChars.MathBrackets;
      FrontOfJoin(w, PairedChars.SupplementalPunctuation);
      w := w + PairedChars.SupplementalPunctuation;
      FrontOfJoin(w, PairedChars.CjkAndFullwidth);
    }
    FrontIndices(table);
  }

  lemma FrontOfJoin(a: seq<CodePoint>, b: seq<CodePoint>)
    requires |a| >= 2
    ensures |a + b| >= 2 && (a + b)[0] == a[0] && (a + b)[1] == a[1]
  {
  }

  lemma FrontIndices(table: seq<CodePoint>)
    requires |table| >= 2 && table[0] == 0x28 && table[1] == 0x29
    ensures PairedChars.IndexFrom(table, 0x28, 0) == 0 && PairedChars.IndexFrom(table, 0x29, 0) == 1
  {
  }

  /** A get_script that gives the parentheses Common and the letters of
      the Arabic word مرحبا Arabic. */
  predicate ArabicWordScripts(getScript: CodePoint -> Script) {
    && getScript(0x28) == Common && getScript(0x29) == Common
    && getScript(0x645) == Real(Arabic) && getScript(0x631) == Real(Arabic)
    && getScript(0x62D) == Real(Arabic) && getScript(0x628) == Real(Arabic)
    && getScript(0x627) == Real(Arabic)
  }

  /** The state of a new iterator (itemize.h). */
  const Fresh := IteratorState(0, Common, false, [], -1)

  /** The letters of the word extend an Arabic run from position lo to hi,
      leaving the stack alone. */
  lemma {:induction false} ArabicLetters(text: seq<CodeUnit>, getScript: CodePoint -> Script,
                                         frame: seq<ParenInfo>, lo: nat, hi: nat)
    requires lo <= hi < |text| && ArabicWordScripts(getScript)
    requires forall k :: lo <= k < hi ==> text[k] in {0x645, 0x631, 0x62D, 0x628, 0x627}
    ensures Scan(text, getScript, IteratorState(lo, Real(Arabic), false, frame, |frame| - 1))
            == Scan(text, getScript, IteratorState(hi, Real(Arabic), false, frame, |frame| - 1))
    decreases hi - lo
  {
    if lo < hi {
      var st := IteratorState(lo, Real(Arabic), false, frame, |frame| - 1);
      assert DecodeAt(text, lo).code == text[lo];
      SameScriptContinues(text, getScript, st);
      ScanStep(text, getScript, st);
      ArabicLetters(text, getScript, frame, lo + 1, hi);
    }
  }

  // ---------------------------------------------------------------------
  // "(مرحبا)"

  const Parenthesized: seq<CodeUnit> := [0x28, 0x645, 0x631, 0x62D, 0x628, 0x627, 0x29]

  /** The frame of the opening parenthesis once the word has resolved it. */
  const ArabicFrame := [ParenInfo(0, Real(Arabic))]

  /** The opening parenthesis is pushed with the running script, Common. */
  lemma ParenthesizedOpen(getScript: CodePoint -> Script)
    requires ArabicWordScripts(getScript)
    ensures Scan(Parenthesized, getScript, Fresh)
            == Scan(Parenthesized, getScript, IteratorState(1, Common, false, [ParenInfo(0, Common)], -1))
  {
    ParenPairIndices();
    assert StepOf(Parenthesized, getScript, Fresh).after
           == IteratorState(1, Common, false, [ParenInfo(0, Common)], -1);
    ScanStep(Parenthesized, getScript, Fresh);
  }

  /** The first letter makes the run Arabic and rewrites the waiting frame. */
  lemma ParenthesizedResolve(getScript: CodePoint -> Script)
    requires ArabicWordScripts(getScript)
    ensures Scan(Parenthesized, getScript, IteratorState(1, Common, false, [ParenInfo(0, Common)], -1))
            == Scan(Parenthesized, getScript, IteratorState(2, Real(Arabic), false, ArabicFrame, 0))
  {
    var st := IteratorState(1, Common, false, [ParenInfo(0, Common)], -1);
    assert StepOf(Parenthesized, getScript, st).after
           == IteratorState(2, Real(Arabic), false, ArabicFrame, 0);
    ScanStep(Parenthesized, getScript, st);
  }

  /** The closing parenthesis borrows Arabic from the frame and ends the text. */
  lemma ParenthesizedClose(getScript: CodePoint -> Script)
    requires ArabicWordScripts(getScript)
    ensures var st := IteratorState(6, Real(Arabic), false, ArabicFrame, 0);
            && StepOf(Parenthesized, getScript, st).item.effective == Real(Arabic)
            && Scan(Parenthesized, getScript, st) == IteratorState(7, Real(Arabic), false, ArabicFrame, 0)
  {
    ParenPairIndices();
    var st := IteratorState(6, Real(Arabic), false, ArabicFrame, 0);
    assert PopUnmatched(ArabicFrame, 0) == ArabicFrame;
    assert StepOf(Parenthesized, getScript, st).after == IteratorState(7, Real(Arabic), false, ArabicFrame, 0);
    ScanStep(Parenthesized, getScript, st);
  }

  /** "(مرحبا)" is one Arabic run: the opening parenthesis's frame, pushed
      while the run was still Common, is rewritten to Arabic by the first
      letter, and the closing parenthesis borrows Arabic from it. */
  lemma ParenthesizedArabic(getScript: CodePoint -> Script)
    requires ArabicWordScripts(getScript)
    ensures StepOf(Parenthesized, getScript, IteratorState(6, Real(Arabic), false, ArabicFrame, 0)).item.effective
            == Real(Arabic)
    ensures NextState(Parenthesized, getScript, Fresh) == IteratorState(7, Real(Arabic), true, ArabicFrame, 0)
  {
    ParenthesizedScan(getScript);
    ParenthesizedClose(getScript);
  }

  lemma ParenthesizedScan(getScript: CodePoint -> Script)
    requires ArabicWordScripts(getScript)
    ensures Scan(Parenthesized, getScript, Fresh) == IteratorState(7, Real(Arabic), false, ArabicFrame, 0)
  {
    ParenthesizedOpen(getScript);
    ParenthesizedResolve(getScript);
    ParenthesizedLetters(getScript);
    ParenthesizedClose(getScript);
  }

  lemma ParenthesizedLetters(getScript: CodePoint -> Script)
    requires ArabicWordScripts(getScript)
    ensures Scan(Parenthesized, getScript, IteratorState(2, Real(Arabic), false, ArabicFrame, 0))
            == Scan(Parenthesized, getScript, IteratorState(6, Real(Arabic), false, ArabicFrame, 0))
  {
    ArabicLetters(Parenthesized, getScript, ArabicFrame, 2, 6);
  }

  // ---------------------------------------------------------------------
  // "a(مرحبا)"

  const LatinBefore: seq<CodeUnit> := [0x61, 0x28, 0x645, 0x631, 0x62D, 0x628, 0x627, 0x29]

  /** The frame of the opening parenthesis, pushed during the Latin run. */
  const LatinFrame := [ParenInfo(0, Real(Latin))]

  /** "a(" is a Latin run; the parenthesis is pushed with Latin; the first
      Arabic letter ends the run. */
  lemma LatinRun(getScript: CodePoint -> Script)
    requires ArabicWordScripts(getScript) && getScript(0x61) == Real(Latin)
    ensures NextState(LatinBefore, getScript, Fresh) == IteratorState(2, Real(Latin), false, LatinFrame, 0)
  {
    ParenPairIndices();
    var s1 := IteratorState(1, Real(Latin), false, [], -1);
    assert StepOf(LatinBefore, getScript, Fresh).after == s1;
    ScanStep(LatinBefore, getScript, Fresh);
    LatinRunStop(getScript);
  }

  lemma LatinRunStop(getScript: CodePoint -> Script)
    requires ArabicWordScripts(getScript) && getScript(0x61) == Real(Latin)
    ensures Scan(LatinBefore, getScript, IteratorState(1, Real(Latin), false, [], -1))
            == IteratorState(2, Real(Latin), false, LatinFrame, 0)
  {
    ParenPairIndices();
    var s1 := IteratorState(1, Real(Latin), false, [], -1);
    var s2 := IteratorState(2, Real(Latin), false, LatinFrame, -1);
    assert StepOf(LatinBefore, getScript, s1).after == s2;
    ScanStep(LatinBefore, getScript, s1);
    assert !StepOf(LatinBefore, getScript, s2).continues;
    assert StepOf(LatinBefore, getScript, s2).after == IteratorState(2, Real(Latin), false, LatinFrame, 0);
    ScanStep(LatinBefore, getScript, s2);
  }

  /** The word is an Arabic run; the closing parenthesis, which borrows
      Latin from its frame, ends it. */
  lemma ArabicRun(getScript: CodePoint -> Script)
    requires ArabicWordScripts(getScript)
    ensures NextState(LatinBefore, getScript, IteratorState(2, Real(Latin), false, LatinFrame, 0))
            == IteratorState(7, Real(Arabic), false, LatinFrame, 0)
  {
    ArabicRunScan(getScript);
  }

  lemma ArabicRunScan(getScript: CodePoint -> Script)
    requires ArabicWordScripts(getScript)
    ensures Scan(LatinBefore, getScript, IteratorState(2, Common, false, LatinFrame, 0))
            == IteratorState(7, Real(Arabic), false, LatinFrame, 0)
  {
    ArabicRunStart(getScript);
    ArabicRunLetters(getScript);
    ArabicRunStop(getScript);
  }

  lemma ArabicRunLetters(getScript: CodePoint -> Script)
    requires ArabicWordScripts(getScript)
    ensures Scan(LatinBefore, getScript, IteratorState(3, Real(Arabic), false, LatinFrame, 0))
            == Scan(LatinBefore, getScript, IteratorState(7, Real(Arabic), false, LatinFrame, 0))
  {
    ArabicLetters(LatinBefore, getScript, LatinFrame, 3, 7);
  }

  lemma ArabicRunStart(getScript: CodePoint -> Script)
    requires ArabicWordScripts(getScript)
    ensures Scan(LatinBefore, getScript, IteratorState(2, Common, false, LatinFrame, 0))
            == Scan(LatinBefore, getScript, IteratorState(3, Real(Arabic), false, LatinFrame, 0))
  {
    var st := IteratorState(2, Common, false, LatinFrame, 0);
    assert StepOf(LatinBefore, getScript, st).after == IteratorState(3, Real(Arabic), false, LatinFrame, 0);
    ScanStep(LatinBefore, getScript, st);
  }

  lemma ArabicRunStop(getScript: CodePoint -> Script)
    requires ArabicWordScripts(getScript)
    ensures var st := IteratorState(7, Real(Arabic), false, LatinFrame, 0);
            && StepOf(LatinBefore, getScript, st).item.effective == Real(Latin)
            && Scan(LatinBefore, getScript, st) == st
  {
    ParenPairIndices();
    var st := IteratorState(7, Real(Arabic), false, LatinFrame, 0);
    assert PopUnmatched(LatinFrame, 0) == LatinFrame;
    assert StepOf(LatinBefore, getScript, st).after == st;
    ScanStep(LatinBefore, getScript, st);
  }

  /** The closing parenthesis starts a run of its own, takes Latin from its
      frame, pops the frame, and ends the text. */
  lemma ClosingRun(getScript: CodePoint -> Script)
    requires ArabicWordScripts(getScript)
    ensures NextState(LatinBefore, getScript, IteratorState(7, Real(Arabic), false, LatinFrame, 0))
            == IteratorState(8, Real(Latin), true, [], -1)
  {
    ParenPairIndices();
    var st := IteratorState(7, Common, false, LatinFrame, 0);
    assert PopUnmatched(LatinFrame, 0) == LatinFrame;
    assert StepOf(LatinBefore, getScript, st).after == IteratorState(8, Real(Latin), false, [], -1);
    ScanStep(LatinBefore, getScript, st);
  }

  /** In "a(مرحبا)" the closing parenthesis does not join the Arabic run:
      it borrows Latin from the frame of its opener, pushed during the
      Latin run, so the text splits into "a(", the Arabic word and ")". */
  lemma ClosingParenFollowsOpener(getScript: CodePoint -> Script)
    requires ArabicWordScripts(getScript) && getScript(0x61) == Real(Latin)
    ensures var first := NextState(LatinBefore, getScript, Fresh);
            var second := NextState(LatinBefore, getScript, first);
            var third := NextState(LatinBefore, getScript, second);
            && first.offset == 2 && first.script == Real(Latin) && !first.done
            && second.offset == 7 && second.script == Real(Arabic) && !second.done
            && third == IteratorState(8, Real(Latin), true, [], -1)
  {
    LatinRun(getScript);
    ArabicRun(getScript);
    ClosingRun(getScript);
  }
}
