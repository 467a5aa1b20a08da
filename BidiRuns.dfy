// The bidi level-run iterator of the itemizer: each call reports the level
// of the run starting at the current offset and moves the offset past it,
// over the per-position levels the bidi algorithm computed (the level runs
// of BD7 in section 3.1 of Unicode Standard Annex #9). Computing the levels
// is not part of this model; they are an input.
module BidiRuns {

  /** SBLevel: an embedding level. */
  type Level = l: int | 0 <= l < 0x100

  /** The end of the run of the given level from position i: the first
      position from i on with another level, or the end. */
  function RunEnd(levels: seq<Level>, level: Level, i: nat): (e: nat)
    requires i <= |levels|
    ensures i <= e <= |levels|
    ensures forall k :: i <= k < e ==> levels[k] == level
    ensures e == |levels| || levels[e] != level
    decreases |levels| - i
  {
    if i == |levels| || levels[i] != level then i else RunEnd(levels, level, i + 1)
  }

  /** One level run: positions start up to end, all at level. */
  datatype Run = Run(start: nat, end: nat, level: Level)

  /** The level runs from position i on, as the iterator reports them. */
  function LevelRuns(levels: seq<Level>, i: nat): seq<Run>
    requires i <= |levels|
    decreases |levels| - i
  {
    if i == |levels| then []
    else
      var e := RunEnd(levels, levels[i], i);
      [Run(i, e, levels[i])] + LevelRuns(levels, e)
  }

  /** The levels a list of runs stands for. */
  function Expand(runs: seq<Run>): seq<Level> {
    if runs == [] then []
    else
      var r := runs[0];
      seq(if r.start <= r.end then r.end - r.start else 0, _ => r.level) + Expand(runs[1..])
  }

  /** The runs rebuild the levels they were read from, every run is
      non-empty, and neighbouring runs have different levels: the runs are
      maximal. */
  lemma {:induction false} LevelRunsRebuild(levels: seq<Level>, i: nat)
    requires i <= |levels|
    ensures Expand(LevelRuns(levels, i)) == levels[i..]
    ensures forall k :: 0 <= k < |LevelRuns(levels, i)| ==>
              LevelRuns(levels, i)[k].start < LevelRuns(levels, i)[k].end
    ensures forall k :: 0 <= k < |LevelRuns(levels, i)| - 1 ==>
              LevelRuns(levels, i)[k].level != LevelRuns(levels, i)[k + 1].level
    decreases |levels| - i
  {
    if i < |levels| {
      var e := RunEnd(levels, levels[i], i);
      var runs := LevelRuns(levels, i);
      var rest := LevelRuns(levels, e);
      LevelRunsRebuild(levels, e);
      assert runs == [Run(i, e, levels[i])] + rest;
      assert runs[1..] == rest;
      assert levels[i..] == levels[i..e] + levels[e..];
      assert seq(e - i, _ => levels[i]) == levels[i..e];
      if rest != [] {
        assert rest[0].level == levels[e];
      }
      forall k | 0 <= k < |runs| - 1
        ensures runs[k].level != runs[k + 1].level
      {
        if k > 0 {
          assert runs[k] == rest[k - 1] && runs[k + 1] == rest[k];
        }
      }
    }
  }

  class BidiIterator {
    /** Output: where the next run starts, the level of the last run
        reported, and whether the end was reached. */
    var offset: nat
    var level: Level
    var done: bool
    /** The paragraph's levels, one per code unit of the text. */
    const levels: seq<Level>

    ghost predicate Valid()
      reads this
    {
      offset <= |levels| && (done ==> offset == |levels|)
    }

    /** Reading the current level needs a position: once started, the
        iterator is either done or before the end. */
    ghost predicate Ready()
      reads this
    {
      done || offset < |levels|
    }

    constructor(levels: seq<Level>)
      ensures Valid() && (|levels| > 0 ==> Ready())
      ensures this.levels == levels && offset == 0 && level == 0 && !done
    {
      this.levels := levels;
      offset := 0;
      level := 0;
      done := false;
    }

    /** bidi_iterator_next: nothing once done; otherwise report the level at
        the offset and move past the run of that level. */
    method Next()
      requires Valid() && Ready()
      modifies this
      ensures Valid() && Ready()
      ensures old(done) ==> offset == old(offset) && level == old(level) && done
      ensures !old(done) ==> && level == levels[old(offset)]
                             && offset == RunEnd(levels, level, old(offset))
                             && old(offset) < offset
                             && done == (offset == |levels|)
    {
      if done {
        return;
      }
      level := levels[offset];
      ghost var start := offset;
      var shouldBreak := false;
      while offset < |levels| && !shouldBreak
        invariant start < |levels| && level == levels[start]
        invariant start <= offset <= |levels| && !done
        invariant RunEnd(levels, level, start) == RunEnd(levels, level, offset)
        invariant shouldBreak ==> offset < |levels| && levels[offset] != level
        decreases |levels| - offset, if shouldBreak then 0 else 1
      {
        while offset < |levels|
          invariant start < |levels| && level == levels[start] && !done
          invariant start <= offset <= |levels|
          invariant RunEnd(levels, level, start) == RunEnd(levels, level, offset)
          invariant !shouldBreak
          decreases |levels| - offset
        {
          if levels[offset] != level {
            shouldBreak := true;
            break;
          }
          offset := offset + 1;
        }
      }
      if offset == |levels| {
        done := true;
      }
    }
  }
}
