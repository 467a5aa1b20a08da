// The itemizer: it walks a UTF-16 text in items, each the longest stretch
// that lies within one bidi level run and one script run. It drives a bidi
// iterator and a script iterator side by side and stops at whichever
// boundary comes first.
module Itemizer {
  import opened Unicode
  import opened BidiRuns
  import opened ScriptRuns

  /** Every position from lo up to hi has the given level. */
  ghost predicate Uniform(levels: seq<Level>, level: Level, lo: nat, hi: nat)
    requires hi <= |levels|
  {
    forall i :: lo <= i < hi ==> levels[i] == level
  }

  /** Every character of the run is compatible with the run's script and is
      what get_script and the bracket rule make of the text there. */
  ghost predicate InScriptRun(text: seq<CodeUnit>, getScript: CodePoint -> Script,
                              script: Script, run: seq<Item>)
  {
    forall k :: 0 <= k < |run| ==>
      Describes(text, getScript, run[k]) && Compatible(script, run[k].effective)
  }

  class ItemizeState {
    /** Output: where the next item starts, and whether the end was reached. */
    var offset: nat
    var done: bool
    /** The two iterators the items are cut from. */
    const bidi: BidiIterator
    const scripts: ScriptIterator
    /** The UTF-16 text, the same buffer at every call. */
    const text: seq<CodeUnit>
    /** get_script: the script of each code point, one table for the iterator and the proof. */
    const getScript: CodePoint -> Script

    /** Where the level run and the script run last reported begin, and the
        characters of that script run. */
    ghost var bidiStart: nat
    ghost var scriptStart: nat
    ghost var scriptRun: seq<Item>
    /** The character the script run last reported stopped before. */
    ghost var scriptStop: Item

    /** The bidi iterator walks the text; it is done exactly at the end of
        the text; the level run it last reported starts at bidiStart and is
        the whole run of that level. */
    ghost predicate BidiValid()
      reads this`bidiStart, bidi
    {
      && bidi.Valid() && |bidi.levels| == |text|
      && (bidi.done <==> bidi.offset == |text|)
      && bidiStart <= bidi.offset && Uniform(bidi.levels, bidi.level, bidiStart, bidi.offset)
      && (bidiStart < bidi.offset ==> bidi.offset == RunEnd(bidi.levels, bidi.level, bidiStart))
    }

    /** The script iterator walks the text; it is done exactly at the end of
        the text; the script run it last reported starts at scriptStart,
        holds the characters of scriptRun, and ends before the end of the
        text only at scriptStop, a character it is not compatible with. */
    ghost predicate ScriptsValid()
      reads this`scriptStart, this`scriptRun, this`scriptStop, scripts
    {
      && scripts.Valid() && scripts.text == text
      && (scripts.done <==> scripts.offset == |text|)
      && Consecutive(scriptRun, scriptStart, scripts.offset)
      && InScriptRun(text, getScript, scripts.script, scriptRun)
      && (scriptStart < scripts.offset < |text| ==> ScriptStopsAt(scripts.offset))
    }

    /** The script run ends at position i: the character there is not
        compatible with the run's script. */
    ghost predicate ScriptStopsAt(i: nat)
      reads this`scriptStop, scripts
    {
      && scriptStop.at == i && Describes(text, getScript, scriptStop)
      && !Compatible(scripts.script, scriptStop.effective)
    }

    /** Both iterators are valid; the item offset is the nearer of their
        offsets; the itemizer is done exactly at the end of the text; the
        level run and the script run last reported both reach back to the
        item offset or before. */
    ghost predicate Valid()
      reads this, bidi, scripts
    {
      && BidiValid() && ScriptsValid()
      && offset == (if bidi.offset < scripts.offset then bidi.offset else scripts.offset)
      && (done <==> offset == |text|)
      && bidiStart <= offset && scriptStart <= offset
    }

    /** The constructor of ItemizeState: both iterators at the start of the
        text. The levels are what the bidi algorithm assigns to the text's
        code units; the bidi iterator reads the first of them at once, so
        the text may not be empty. */
    constructor(text: seq<CodeUnit>, levels: seq<Level>, getScript: CodePoint -> Script)
      requires |text| > 0 && |levels| == |text|
      ensures Valid() && fresh(bidi) && fresh(scripts)
      ensures this.text == text && this.getScript == getScript && bidi.levels == levels
      ensures offset == 0 && !done
    {
      this.text := text;
      this.getScript := getScript;
      bidi := new BidiIterator(levels);
      scripts := new ScriptIterator(text);
      offset := 0;
      done := false;
      bidiStart := 0;
      scriptStart := 0;
      scriptRun := [];
      scriptStop := Item(0, 0, 0, Common, Common);
    }

    /** itemize_next: nothing once done; otherwise advance each iterator that
        stands at the item offset, and move the offset to the nearer of the
        two. The item from the old offset to the new one has one level and
        lies in one script run; it ends where the text, a level run or a
        script run ends. */
    method Next()
      requires Valid()
      modifies this, bidi, scripts
      ensures Valid()
      ensures old(done) ==> offset == old(offset) && done
      ensures old(bidi.offset) != old(offset) || old(done) ==>
                bidi.offset == old(bidi.offset) && bidi.level == old(bidi.level)
      ensures old(scripts.offset) != old(offset) || old(done) ==>
                scripts.offset == old(scripts.offset) && scripts.script == old(scripts.script)
      ensures !old(done) ==> && old(offset) < offset <= |text|
                             && Uniform(bidi.levels, bidi.level, old(offset), offset)
                             && scriptStart <= old(offset) && offset <= scripts.offset
                             && InScriptRun(text, getScript, scripts.script, scriptRun)
                             && (offset == bidi.offset || offset == scripts.offset)
                             && (|| offset == |text|
                                 || (offset == bidi.offset && bidi.levels[offset] != bidi.level)
                                 || (offset == scripts.offset && ScriptStopsAt(offset)))
      ensures done == (offset == |text|) && (done <==> bidi.done && scripts.done)
    {
      if done {
        return;
      }
      if bidi.offset == offset {
        AdvanceBidi();
      }
      if scripts.offset == offset {
        AdvanceScripts();
      }
      Settle();
    }

    /** The end of itemize_next: the item ends at the nearer of the two
        iterators' offsets, and the itemizer is done when both are. */
    method Settle()
      requires BidiValid() && ScriptsValid() && !done
      requires bidiStart <= offset < bidi.offset && scriptStart <= offset < scripts.offset
      modifies this`offset, this`done
      ensures Valid()
      ensures old(offset) < offset <= |text|
      ensures Uniform(bidi.levels, bidi.level, old(offset), offset)
      ensures offset <= scripts.offset && (offset == bidi.offset || offset == scripts.offset)
      ensures || offset == |text|
              || (offset == bidi.offset && bidi.levels[offset] != bidi.level)
              || (offset == scripts.offset && ScriptStopsAt(offset))
      ensures done == (offset == |text|) && (done <==> bidi.done && scripts.done)
    {
      offset := if bidi.offset < scripts.offset then bidi.offset else scripts.offset;
      if bidi.done && scripts.done {
        done := true;
      }
    }
  
    /** bidi_iterator_next, called by itemize_next: the next level run. */
    method AdvanceBidi()
      requires BidiValid() && ScriptsValid() && bidi.offset < |text|
      modifies this`bidiStart, bidi
      ensures BidiValid() && ScriptsValid() && bidiStart == old(bidi.offset) < bidi.offset
      ensures unchanged(scripts)
      ensures bidi.level == bidi.levels[bidiStart]
    {
      bidi.Next();
      bidiStart := old(bidi.offset);
    }

    /** script_iterator_next, called by itemize_next: the next script run. */
    method AdvanceScripts()
      requires BidiValid() && ScriptsValid() && scripts.offset < |text|
      modifies this`scriptStart, this`scriptRun, this`scriptStop, scripts
      ensures BidiValid() && ScriptsValid() && scriptStart == old(scripts.offset) < scripts.offset
      ensures unchanged(bidi) && bidiStart == old(bidiStart)
      ensures scripts.State() == NextState(text, getScript, old(scripts.State()))
    {
      var run, stop := scripts.Next(getScript);
      scriptStart := old(scripts.offset);
      scriptRun := run;
      scriptStop := stop;
    }
  }
}
