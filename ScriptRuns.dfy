// The script-run iterator of the itemizer: each call reports the script of
// the run starting at the current offset and moves the offset past it.
// Common and Inherited characters join the run around them (the heuristic of
// section 5.1 of Unicode Standard Annex #24), and a closing bracket takes the
// script of the text before its opening bracket, which a stack of open
// brackets remembers. The code-point-to-script table behind get_script is
// not part of this model: it is the parameter getScript.
module ScriptRuns {
  import opened Unicode
  import PairedChars

  // ---------------------------------------------------------------------
  // Surrogate pairs (section 2.2 of RFC 2781).

  /** A code point and the number of code units it takes. */
  datatype Decoded = Decoded(code: CodePoint, jump: nat)

  predicate IsHighSurrogate(u: int) {
    0xD800 <= u <= 0xDBFF
  }

  predicate IsLowSurrogate(u: int) {
    0xDC00 <= u <= 0xDFFF
  }

  /** The code point at position i: a high surrogate followed by a low one
      is one supplementary code point taking two units; any other unit, a
      lone surrogate included, stands for itself. */
  function DecodeAt(text: seq<CodeUnit>, i: nat): (d: Decoded)
    requires i < |text|
    ensures d.jump == 1 || d.jump == 2
    ensures i + d.jump <= |text|
  {
    if i + 1 < |text| && IsHighSurrogate(text[i]) && IsLowSurrogate(text[i + 1]) then
      Decoded((text[i] as int - 0xD800) * 0x400 + (text[i + 1] as int - 0xDC00) + 0x10000, 2)
    else
      Decoded(text[i], 1)
  }

  /** The encoding side of section 2.2 of RFC 2781: a supplementary code
      point as a high and a low surrogate. */
  function EncodeSupplementary(c: int): (units: seq<CodeUnit>)
    requires 0x10000 <= c <= 0x10FFFF
    ensures |units| == 2 && IsHighSurrogate(units[0]) && IsLowSurrogate(units[1])
  {
    [0xD800 + (c - 0x10000) / 0x400, 0xDC00 + (c - 0x10000) % 0x400]
  }

  /** Decoding an encoded supplementary code point gives it back, wherever
      the pair sits in the text. */
  lemma DecodeEncoded(pre: seq<CodeUnit>, c: int, post: seq<CodeUnit>)
    requires 0x10000 <= c <= 0x10FFFF
    ensures DecodeAt(pre + EncodeSupplementary(c) + post, |pre|) == Decoded(c, 2)
  {
    var text := pre + EncodeSupplementary(c) + post;
    assert text[|pre|] == EncodeSupplementary(c)[0];
    assert text[|pre| + 1] == EncodeSupplementary(c)[1];
  }

  /** A decoded pair is a supplementary code point whose encoding is that
      pair; anything else is the unit itself, below 0x10000. */
  lemma EncodeDecoded(text: seq<CodeUnit>, i: nat)
    requires i < |text|
    ensures var d := DecodeAt(text, i);
            if d.jump == 2 then
              0x10000 <= d.code <= 0x10FFFF && EncodeSupplementary(d.code) == text[i..i + 2]
            else
              d.code == text[i] < 0x10000
  {
  }

  // ---------------------------------------------------------------------
  // The stack of open brackets.

  /** ParenInfo: the table position of an opening bracket and the running
      script when it was seen. */
  datatype ParenInfo = ParenInfo(index: nat, script: Script)

  /** What a closing bracket leaves of the stack: frames are popped until
      one for its opener is on top, and none are left when there is none. */
  function PopUnmatched(parens: seq<ParenInfo>, opener: nat): seq<ParenInfo>
    decreases |parens|
  {
    if parens == [] || parens[|parens| - 1].index == opener then parens
    else PopUnmatched(parens[..|parens| - 1], opener)
  }

  /** The popped stack is a prefix of the stack, topped by the uppermost
      frame of that opener, with no frame of it among those popped; so it is
      empty exactly when the opener was not on the stack. */
  lemma {:induction false} PopUnmatchedSpec(parens: seq<ParenInfo>, opener: nat)
    ensures var r := PopUnmatched(parens, opener);
            && |r| <= |parens| && r == parens[..|r|]
            && (r != [] ==> r[|r| - 1].index == opener)
            && (forall k :: |r| <= k < |parens| ==> parens[k].index != opener)
    decreases |parens|
  {
    if parens != [] && parens[|parens| - 1].index != opener {
      var init := parens[..|parens| - 1];
      PopUnmatchedSpec(init, opener);
      var r := PopUnmatched(init, opener);
      assert init[..|r|] == parens[..|r|];
    }
  }

  /** A stack whose every frame is for an opening bracket. */
  predicate AllOpeners(parens: seq<ParenInfo>) {
    forall k :: 0 <= k < |parens| ==> PairedChars.IsOpener(parens[k].index)
  }

  /** The running script absorbs a character's script: the first real script
      after only Common and Inherited ones becomes the run's script. */
  function Absorb(running: Script, s: Script): (r: Script)
    ensures IsReal(r) <==> IsReal(running) || IsReal(s)
    ensures IsReal(running) ==> r == running
    ensures Compatible(running, s) ==> Compatible(r, s) && (r == running || r == s)
  {
    if !IsReal(running) && IsReal(s) then s else running
  }

  /** A character continues the run: one of the two is Common or Inherited,
      or they are the same script. */
  predicate Compatible(running: Script, s: Script) {
    !IsReal(running) || !IsReal(s) || s == running
  }

  /** One character of a run: where it sits, its code point and the number
      of units it takes, the script get_script gives it, and the script it
      counts as once brackets are resolved. */
  datatype Item = Item(at: nat, jump: nat, code: CodePoint, own: Script, effective: Script)

  /** The item is the code point decoded at its position, with the script
      get_script gives it; only a Common character can count as another
      script (a closing bracket, as Bracket says). */
  predicate Describes(text: seq<CodeUnit>, getScript: CodePoint -> Script, item: Item) {
    && item.at < |text|
    && DecodeAt(text, item.at) == Decoded(item.code, item.jump)
    && item.own == getScript(item.code)
    && (item.effective != item.own ==> item.own == Common)
  }

  /** The items follow one another from position start to position end. */
  predicate Consecutive(run: seq<Item>, start: int, end: int)
    decreases |run|
  {
    if run == [] then start == end
    else run[|run| - 1].at + run[|run| - 1].jump == end
         && Consecutive(run[..|run| - 1], start, run[|run| - 1].at)
  }

  lemma {:induction false} ConsecutiveAdvances(run: seq<Item>, start: int, end: int)
    requires Consecutive(run, start, end)
    requires forall k :: 0 <= k < |run| ==> run[k].jump > 0
    ensures start <= end && (run != [] ==> start < end)
    decreases |run|
  {
    if run != [] {
      ConsecutiveAdvances(run[..|run| - 1], start, run[|run| - 1].at);
    }
  }

  // ---------------------------------------------------------------------
  // script_iterator_next as functions of the iterator's state.

  /** ScriptIteratorState: the fields of the iterator, as one value. */
  datatype IteratorState = IteratorState(offset: nat, script: Script, done: bool,
                                         parens: seq<ParenInfo>, startParen: int)

  /** The bracket-table position of a character: looked up only when its
      script is Common, -1 otherwise or when it is not in the table. */
  function PairIndexOf(code: CodePoint, own: Script): (i: int)
    ensures i == -1 || (own == Common && 0 <= i < |PairedChars.PairedChars|
                        && PairedChars.PairedChars[i] == code)
    ensures i >= 0 && !PairedChars.IsOpener(i) <==> own == Common && PairedChars.IsCloserChar(code)
  {
    if own == Common then PairedChars.IndexFrom(PairedChars.PairedChars, code, 0) else -1
  }

  /** What the bracket handling of one character leaves: the stack,
      start_paren, and the script the character counts as. */
  datatype Bracketed = Bracketed(parens: seq<ParenInfo>, startParen: int, effective: Script)

  /** The bracket handling of one character with table position pairIndex:
      an opener is pushed with the running script; a closer, when the stack
      is not empty, pops frames until its opener is on top, clamps
      start_paren to the stack, and borrows the script of that frame, which
      stays on the stack. */
  function Bracket(parens: seq<ParenInfo>, startParen: int, running: Script,
                   pairIndex: int, own: Script): (b: Bracketed)
    ensures -1 <= startParen <= |parens| - 1 ==> -1 <= b.startParen <= |b.parens| - 1
    ensures AllOpeners(parens) ==> AllOpeners(b.parens)
    ensures b.effective != own ==> pairIndex >= 0 && !PairedChars.IsOpener(pairIndex)
  {
    if pairIndex < 0 then Bracketed(parens, startParen, own)
    else if PairedChars.IsOpener(pairIndex) then
      Bracketed(parens + [ParenInfo(pairIndex, running)], startParen, own)
    else if parens == [] then Bracketed(parens, startParen, own)
    else
      PopUnmatchedSpec(parens, PairedChars.OpenerOf(pairIndex));
      var popped := PopUnmatched(parens, PairedChars.OpenerOf(pairIndex));
      Bracketed(popped, if |popped| - 1 < startParen then |popped| - 1 else startParen,
                if popped == [] then own else popped[|popped| - 1].script)
  }

  /** A closer whose opener has a frame on the stack counts as the script
      of the uppermost such frame; that frame becomes the top, and the
      frames above it are gone. */
  lemma BracketCloserBorrows(parens: seq<ParenInfo>, startParen: int, running: Script,
                             pairIndex: int, own: Script, j: nat)
    requires pairIndex >= 0 && !PairedChars.IsOpener(pairIndex)
    requires j < |parens| && parens[j].index == PairedChars.OpenerOf(pairIndex)
    requires forall k :: j < k < |parens| ==> parens[k].index != PairedChars.OpenerOf(pairIndex)
    ensures var b := Bracket(parens, startParen, running, pairIndex, own);
            b.parens == parens[..j + 1] && b.effective == parens[j].script
  {
    var opener := PairedChars.OpenerOf(pairIndex);
    PopUnmatchedSpec(parens, opener);
    var r := PopUnmatched(parens, opener);
    assert j < |r|;
  }

  /** A closer whose opener has no frame on the stack empties the stack and
      keeps its own script. */
  lemma BracketCloserUnmatched(parens: seq<ParenInfo>, startParen: int, running: Script,
                               pairIndex: int, own: Script)
    requires pairIndex >= 0 && !PairedChars.IsOpener(pairIndex) && -1 <= startParen
    requires forall k :: 0 <= k < |parens| ==> parens[k].index != PairedChars.OpenerOf(pairIndex)
    ensures var b := Bracket(parens, startParen, running, pairIndex, own);
            b.parens == [] && b.effective == own && (parens != [] ==> b.startParen == -1)
  {
    var opener := PairedChars.OpenerOf(pairIndex);
    PopUnmatchedSpec(parens, opener);
  }

  /** The frames above start_paren, all given the script s. */
  function Fill(parens: seq<ParenInfo>, startParen: int, s: Script): (r: seq<ParenInfo>)
    ensures |r| == |parens|
  {
    seq(|parens|, k requires 0 <= k < |parens| =>
      if k > startParen then parens[k].(script := s) else parens[k])
  }

  /** One pass of the loop: the character at the offset, and either the
      state after taking it or the state in which the run stops before it. */
  datatype Stepped = Stepped(continues: bool, item: Item, after: IteratorState)

  /** One pass of the loop of script_iterator_next: decode, classify,
      handle brackets; a compatible character is taken, and the first real
      script of the run becomes the run's script, is written into the
      frames still waiting for one, and a closer that caused it pops its
      frame; an incompatible character ends the run. */
  function StepOf(text: seq<CodeUnit>, getScript: CodePoint -> Script, st: IteratorState): (o: Stepped)
    requires st.offset < |text|
    ensures o.item.at == st.offset && o.item.jump > 0 && st.offset + o.item.jump <= |text|
    ensures o.after.offset == if o.continues then st.offset + o.item.jump else st.offset
    ensures o.continues <==> Compatible(st.script, o.item.effective)
    ensures o.after.script == if o.continues then Absorb(st.script, o.item.effective) else st.script
  {
    var d := DecodeAt(text, st.offset);
    var own := getScript(d.code);
    var pairIndex := PairIndexOf(d.code, own);
    var b := Bracket(st.parens, st.startParen, st.script, pairIndex, own);
    var item := Item(st.offset, d.jump, d.code, own, b.effective);
    if !Compatible(st.script, b.effective) then
      Stepped(false, item, st.(parens := b.parens, startParen := |b.parens| - 1))
    else if !IsReal(st.script) && IsReal(b.effective) then
      var filled := Fill(b.parens, b.startParen, b.effective);
      var parens := if pairIndex >= 0 && !PairedChars.IsOpener(pairIndex) && filled != []
                    then filled[..|filled| - 1] else filled;
      Stepped(true, item, st.(offset := st.offset + d.jump, script := b.effective,
                              parens := parens, startParen := |parens| - 1))
    else
      Stepped(true, item, st.(offset := st.offset + d.jump, parens := b.parens,
                              startParen := b.startParen))
  }

  /** The loop of script_iterator_next from state st: take characters
      until one is incompatible or the text ends. */
  function Scan(text: seq<CodeUnit>, getScript: CodePoint -> Script, st: IteratorState): (r: IteratorState)
    requires st.offset <= |text|
    ensures st.offset <= r.offset <= |text|
    decreases |text| - st.offset
  {
    if st.offset == |text| then st
    else
      var o := StepOf(text, getScript, st);
      if o.continues then Scan(text, getScript, o.after) else o.after
  }

  /** script_iterator_next: nothing once done; otherwise the loop from the
      offset, started at Common, and done once the offset reaches the end. */
  function NextState(text: seq<CodeUnit>, getScript: CodePoint -> Script, st: IteratorState): (r: IteratorState)
    requires st.offset <= |text|
    ensures r.offset <= |text|
    ensures st.done ==> r == st
    ensures !st.done ==> st.offset <= r.offset && r.done == (r.offset == |text|)
  {
    if st.done then st
    else
      var r := Scan(text, getScript, st.(script := Common));
      r.(done := r.offset >= |text|)
  }

  /** One pass of the loop, as Scan takes it. */
  lemma ScanStep(text: seq<CodeUnit>, getScript: CodePoint -> Script, st: IteratorState)
    requires st.offset < |text|
    ensures var o := StepOf(text, getScript, st);
            Scan(text, getScript, st) == if o.continues then Scan(text, getScript, o.after) else o.after
  {
  }

  /** A character of the run's own real script extends the run and leaves
      the bracket stack alone. */
  lemma SameScriptContinues(text: seq<CodeUnit>, getScript: CodePoint -> Script, st: IteratorState)
    requires st.offset < |text| && IsReal(st.script)
    requires getScript(DecodeAt(text, st.offset).code) == st.script
    ensures var d := DecodeAt(text, st.offset);
            StepOf(text, getScript, st)
            == Stepped(true, Item(st.offset, d.jump, d.code, st.script, st.script),
                       st.(offset := st.offset + d.jump))
  {
  }

  class ScriptIterator {
    /** Output: where the next run starts, the script of the last run
        reported, and whether the end was reached. */
    var offset: nat
    var script: Script
    var done: bool
    /** The open brackets, and start_paren: frames above it were pushed in
        the current run and still wait for its script. */
    var parens: seq<ParenInfo>
    var startParen: int
    /** The UTF-16 text, the same buffer at every call. */
    const text: seq<CodeUnit>

    /** start_paren stays within -1 .. |parens| - 1, so the back-fill write
        just above it is in bounds; the stack holds only openers; between
        runs nothing waits for a script. */
    ghost predicate Valid()
      reads this
    {
      && offset <= |text|
      && -1 <= startParen <= |parens| - 1
      && AllOpeners(parens)
      && script != Inherited
      && (!done ==> startParen == |parens| - 1)
    }

    /** The iterator's fields as one value. */
    function State(): IteratorState
      reads this
    {
      IteratorState(offset, script, done, parens, startParen)
    }

    constructor(text: seq<CodeUnit>)
      ensures Valid() && this.text == text
      ensures State() == IteratorState(0, Common, false, [], -1)
    {
      this.text := text;
      offset := 0;
      script := Common;
      done := false;
      parens := [];
      startParen := -1;
    }

    /** script_iterator_next: nothing once done; otherwise start a run at
        Common and take characters while they are compatible with it. The
        run's script is the real script of its characters, Common when it
        has none; a character that is not compatible is left for the next
        run. */
    method Next(getScript: CodePoint -> Script) returns (ghost run: seq<Item>, ghost stop: Item)
      requires Valid()
      modifies this
      ensures Valid()
      ensures State() == NextState(text, getScript, old(State()))
      ensures old(done) ==> && offset == old(offset) && script == old(script) && done
                            && parens == old(parens) && startParen == old(startParen)
      ensures !old(done) ==> && Consecutive(run, old(offset), offset)
                             && (forall k :: 0 <= k < |run| ==> Describes(text, getScript, run[k]))
                             && (forall k :: 0 <= k < |run| ==> Compatible(script, run[k].effective))
                             && (IsReal(script) <==> exists k :: 0 <= k < |run| && IsReal(run[k].effective))
                             && done == (offset >= |text|)
      ensures !old(done) && old(offset) < |text| ==> old(offset) < offset
      ensures !old(done) && offset < |text| ==>
                && stop.at == offset && Describes(text, getScript, stop)
                && IsReal(script) && IsReal(stop.effective) && stop.effective != script
                && startParen == |parens| - 1
    {
      if done {
        run := [];
        stop := Item(0, 0, 0, Common, Common);
        return;
      }
      script := Common;
      run, stop := Loop(getScript);
      if offset >= |text| {
        done := true;
      }
    }

    /** The loop of script_iterator_next: take characters while they are
        compatible with the running script. */
    method Loop(getScript: CodePoint -> Script) returns (ghost run: seq<Item>, ghost stop: Item)
      requires offset <= |text| && !done
      requires -1 <= startParen <= |parens| - 1 && AllOpeners(parens)
      requires script != Inherited && !IsReal(script)
      requires forall k :: startParen < k < |parens| ==> parens[k].script == script
      modifies this
      ensures State() == Scan(text, getScript, old(State()))
      ensures offset <= |text| && !done && script != Inherited
      ensures -1 <= startParen <= |parens| - 1 && AllOpeners(parens)
      ensures Consecutive(run, old(offset), offset)
      ensures forall k :: 0 <= k < |run| ==> Describes(text, getScript, run[k])
      ensures forall k :: 0 <= k < |run| ==> Compatible(script, run[k].effective)
      ensures IsReal(script) <==> exists k :: 0 <= k < |run| && IsReal(run[k].effective)
      ensures old(offset) < |text| ==> old(offset) < offset
      ensures offset < |text| ==>
                && stop.at == offset && Describes(text, getScript, stop)
                && IsReal(script) && IsReal(stop.effective) && stop.effective != script
                && startParen == |parens| - 1
    {
      run := [];
      stop := Item(0, 0, 0, Common, Common);
      ghost var start := offset;
      ghost var scanned := Scan(text, getScript, State());
      while offset < |text|
        invariant start <= offset <= |text| && !done
        invariant Scan(text, getScript, State()) == scanned
        invariant -1 <= startParen <= |parens| - 1 && AllOpeners(parens)
        invariant script != Inherited
        invariant forall k :: startParen < k < |parens| ==> parens[k].script == script
        invariant Consecutive(run, start, offset)
        invariant forall k :: 0 <= k < |run| ==> Describes(text, getScript, run[k]) && run[k].jump > 0
        invariant forall k :: 0 <= k < |run| ==> Compatible(script, run[k].effective)
        invariant IsReal(script) <==> exists k :: 0 <= k < |run| && IsReal(run[k].effective)
        invariant run == [] ==> offset == start
        decreases |text| - offset
      {
        var continues, item := Step(getScript);
        if !continues {
          stop := item;
          assert State() == scanned;
          break;
        }
        ghost var prev := run;
        run := run + [item];
        assert run[..|run| - 1] == prev;
      }
      ConsecutiveAdvances(run, start, offset);
    }
  
    /** The body of the loop: decode the character at the offset, find its
        script, resolve brackets, and either take the character into the run
        or stop before it. */
    method Step(getScript: CodePoint -> Script) returns (continues: bool, item: Item)
      requires offset < |text| && !done
      requires -1 <= startParen <= |parens| - 1 && AllOpeners(parens)
      requires script != Inherited
      requires forall k :: startParen < k < |parens| ==> parens[k].script == script
      modifies this
      ensures -1 <= startParen <= |parens| - 1 && AllOpeners(parens)
      ensures script != Inherited && !done
      ensures item.at == old(offset) && Describes(text, getScript, item) && item.jump > 0
      ensures Stepped(continues, item, State()) == StepOf(text, getScript, old(State()))
      ensures if continues then Scan(text, getScript, State()) == Scan(text, getScript, old(State()))
              else State() == Scan(text, getScript, old(State()))
      ensures continues ==> && Compatible(old(script), item.effective)
                            && script == Absorb(old(script), item.effective)
                            && offset == old(offset) + item.jump
                            && (forall k :: startParen < k < |parens| ==> parens[k].script == script)
      ensures !continues ==> && offset == old(offset) && script == old(script)
                             && !Compatible(old(script), item.effective)
                             && startParen == |parens| - 1
    {
      var pairIndex;
      item, pairIndex := Classify(getScript);
      var s := item.effective;

      var runningIsReal := IsReal(script);
      var isReal := IsReal(s);
      var isSame := !runningIsReal || !isReal || s == script;
      if isSame {
        if !runningIsReal && isReal {
          script := s;
          ghost var bracketed, waiting := parens, startParen;
          BackFill(s);
          assert parens == Fill(bracketed, waiting, s);
          if pairIndex >= 0 && !PairedChars.IsOpener(pairIndex) && parens != [] {
            parens := parens[..|parens| - 1];
            if |parens| - 1 < startParen {
              startParen := |parens| - 1;
            }
          }
        }
        offset := offset + item.jump;
        continues := true;
      } else {
        startParen := |parens| - 1;
        continues := false;
      }
    }

    /** The first half of the loop body: decode the character at the offset,
        look up its script, and for a Common character its position in the
        bracket table, then resolve brackets. */
    method Classify(getScript: CodePoint -> Script) returns (item: Item, pairIndex: int)
      requires offset < |text|
      requires -1 <= startParen <= |parens| - 1 && AllOpeners(parens)
      requires forall k :: startParen < k < |parens| ==> parens[k].script == script
      modifies this
      ensures offset == old(offset) && script == old(script) && done == old(done)
      ensures -1 <= startParen <= |parens| - 1 && AllOpeners(parens)
      ensures forall k :: startParen < k < |parens| ==> parens[k].script == script
      ensures item.at == offset && Describes(text, getScript, item) && item.jump > 0
      ensures DecodeAt(text, offset) == Decoded(item.code, item.jump) && item.own == getScript(item.code)
      ensures pairIndex == PairIndexOf(item.code, item.own)
      ensures Bracketed(parens, startParen, item.effective)
              == Bracket(old(parens), old(startParen), script, pairIndex, item.own)
    {
      var code, jump, own;
      code, jump, own, pairIndex := Read(getScript);
      var s := ResolveBracket(pairIndex, own);
      item := Item(offset, jump, code, own, s);
    }

    /** Decode the character at the offset, look up its script and, for a
        Common character, its position in the bracket table. */
    method Read(getScript: CodePoint -> Script) returns (code: CodePoint, jump: nat, own: Script, pairIndex: int)
      requires offset < |text|
      ensures DecodeAt(text, offset) == Decoded(code, jump) && own == getScript(code)
      ensures pairIndex == PairIndexOf(code, own)
    {
      var decoded := DecodeAt(text, offset);
      code := decoded.code;
      jump := decoded.jump;
      own := getScript(code);
      pairIndex := -1;
      if own == Common {
        pairIndex := PairedChars.GetPairIndex(code);
      }
    }

    /** The bracket handling of one character, given its position in the
        table (-1 when it is not a bracket or its script is not Common): an
        opener is pushed with the running script; a closer, when the stack is
        not empty, pops frames until its opener is on top and borrows that
        frame's script, which stays on the stack. */
    method ResolveBracket(pairIndex: int, own: Script) returns (s: Script)
      requires -1 <= startParen <= |parens| - 1 && AllOpeners(parens)
      requires forall k :: startParen < k < |parens| ==> parens[k].script == script
      modifies this
      ensures offset == old(offset) && script == old(script) && done == old(done)
      ensures -1 <= startParen <= |parens| - 1 && AllOpeners(parens)
      ensures forall k :: startParen < k < |parens| ==> parens[k].script == script
      ensures Bracketed(parens, startParen, s) == Bracket(old(parens), old(startParen), script, pairIndex, own)
    {
      s := own;
      if pairIndex >= 0 {
        if PairedChars.IsOpener(pairIndex) {
          parens := parens + [ParenInfo(pairIndex, script)];
        } else if parens != [] {
          s := MatchCloser(PairedChars.OpenerOf(pairIndex), own);
        }
      }
    }

    /** A closer with a non-empty stack: pop to its opener, keep start_paren
        within the stack, and borrow the script of the opener's frame, if
        one is left. */
    method MatchCloser(opener: nat, own: Script) returns (s: Script)
      requires -1 <= startParen <= |parens| - 1 && AllOpeners(parens)
      requires forall k :: startParen < k < |parens| ==> parens[k].script == script
      modifies this
      ensures offset == old(offset) && script == old(script) && done == old(done)
      ensures -1 <= startParen <= |parens| - 1 && AllOpeners(parens)
      ensures forall k :: startParen < k < |parens| ==> parens[k].script == script
      ensures parens == PopUnmatched(old(parens), opener)
      ensures startParen == (if |parens| - 1 < old(startParen) then |parens| - 1 else old(startParen))
      ensures s == (if parens == [] then own else parens[|parens| - 1].script)
    {
      PopUnmatchedSpec(parens, opener);
      ghost var before := parens;
      PopToOpener(opener);
      assert forall k :: 0 <= k < |parens| ==> parens[k] == before[k];
      if |parens| - 1 < startParen {
        startParen := |parens| - 1;
      }
      s := own;
      if parens != [] {
        s := parens[|parens| - 1].script;
      }
    }

    /** The loop that pops unmatched openers off the stack. */
    method PopToOpener(opener: nat)
      modifies this
      ensures parens == PopUnmatched(old(parens), opener)
      ensures offset == old(offset) && script == old(script) && done == old(done)
      ensures startParen == old(startParen)
    {
      while parens != [] && parens[|parens| - 1].index != opener
        invariant PopUnmatched(parens, opener) == PopUnmatched(old(parens), opener)
        invariant offset == old(offset) && script == old(script) && done == old(done)
        invariant startParen == old(startParen)
        decreases |parens|
      {
        parens := parens[..|parens| - 1];
      }
    }

    /** The back-fill: every frame above start_paren, pushed before the run
        had a real script, gets the script s, and start_paren moves to the
        top of the stack. */
    method BackFill(s: Script)
      requires -1 <= startParen <= |parens| - 1
      modifies this
      ensures startParen == |parens| - 1 && |parens| == |old(parens)|
      ensures forall k :: 0 <= k < |parens| ==>
                parens[k] == if k > old(startParen) then old(parens)[k].(script := s) else old(parens)[k]
      ensures offset == old(offset) && script == old(script) && done == old(done)
    {
      while startParen + 1 < |parens|
        invariant old(startParen) <= startParen <= |parens| - 1 && |parens| == |old(parens)|
        invariant forall k :: 0 <= k < |parens| ==>
                    parens[k] == if old(startParen) < k <= startParen then old(parens)[k].(script := s) else old(parens)[k]
        invariant offset == old(offset) && script == old(script) && done == old(done)
        decreases |parens| - startParen
      {
        startParen := startParen + 1;
        parens := parens[startParen := parens[startParen].(script := s)];
      }
    }
  }
}
