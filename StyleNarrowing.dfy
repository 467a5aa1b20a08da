// FontManager::narrowByStyle: pick the style to keep by the CSS fallback
// order for the requested style, then drop candidates of other styles by
// swapping them with the last slot and popping.
module StyleNarrowing {
  import opened Fonts

  /** How many of fonts have the given style. */
  function CountStyle(arena: Arena, fonts: seq<Handle>, style: FontStyle): (n: nat)
    requires InArena(arena, fonts)
    ensures n <= |fonts|
  {
    if fonts == [] then 0
    else CountStyle(arena, fonts[..|fonts| - 1], style)
         + (if StyleOf(arena, fonts[|fonts| - 1]) == style then 1 else 0)
  }

  /** The tally of one style among the three. */
  function Tally(style: FontStyle, nNormal: nat, nItalic: nat, nOblique: nat): nat {
    match style
    case Normal => nNormal
    case Italic => nItalic
    case Oblique => nOblique
  }

  /** The switch on the requested style, given the three tallies. */
  function Choose(requested: FontStyle, nNormal: nat, nItalic: nat, nOblique: nat): (choose: FontStyle)
    // an exact match always wins
    ensures Tally(requested, nNormal, nItalic, nOblique) > 0 ==> choose == requested
    // a style that is present is chosen when any is
    ensures nNormal + nItalic + nOblique > 0 ==> Tally(choose, nNormal, nItalic, nOblique) > 0
    // Italic and Oblique stand in for each other before Normal is used
    ensures requested != Normal && choose == Normal ==> nItalic == 0 && nOblique == 0
    // a Normal request prefers Oblique to Italic
    ensures requested == Normal && choose == Italic ==> nNormal == 0 && nOblique == 0
  {
    match requested
    case Normal => if nNormal > 0 then Normal else if nOblique > 0 then Oblique else Italic
    case Italic => if nItalic > 0 then Italic else if nOblique > 0 then Oblique else Normal
    case Oblique => if nOblique > 0 then Oblique else if nItalic > 0 then Italic else Normal
  }

  function ChosenStyle(arena: Arena, fonts: seq<Handle>, requested: FontStyle): FontStyle
    requires InArena(arena, fonts)
  {
    Choose(requested, CountStyle(arena, fonts, Normal), CountStyle(arena, fonts, Italic),
           CountStyle(arena, fonts, Oblique))
  }

  lemma {:induction false} CountStylePositive(arena: Arena, fonts: seq<Handle>, style: FontStyle)
    requires InArena(arena, fonts)
    ensures CountStyle(arena, fonts, style) > 0 <==> exists h :: h in fonts && StyleOf(arena, h) == style
  {
    if fonts != [] {
      var init := fonts[..|fonts| - 1];
      assert fonts == init + [fonts[|fonts| - 1]];
      CountStylePositive(arena, init, style);
    }
  }

  lemma {:induction false} CountStylesSum(arena: Arena, fonts: seq<Handle>)
    requires InArena(arena, fonts)
    ensures CountStyle(arena, fonts, Normal) + CountStyle(arena, fonts, Italic)
            + CountStyle(arena, fonts, Oblique) == |fonts|
  {
    if fonts != [] {
      CountStylesSum(arena, fonts[..|fonts| - 1]);
    }
  }

  /** The chosen style is always one that some candidate has. */
  lemma ChosenStylePresent(arena: Arena, fonts: seq<Handle>, requested: FontStyle)
    requires InArena(arena, fonts) && fonts != []
    ensures exists h :: h in fonts && StyleOf(arena, h) == ChosenStyle(arena, fonts, requested)
  {
    CountStylesSum(arena, fonts);
    CountStylePositive(arena, fonts, ChosenStyle(arena, fonts, requested));
  }

  /** The slot vector after swapping slot i with the last slot and popping. */
  function SwapPop(v: seq<Handle>, i: nat): (r: seq<Handle>)
    requires i < |v|
    ensures |r| == |v| - 1
  {
    v[i := v[|v| - 1]][..|v| - 1]
  }

  /** The swap and pop removes exactly the element at i. */
  lemma SwapPopRemoves(v: seq<Handle>, i: nat)
    requires i < |v|
    ensures multiset(SwapPop(v, i)) + multiset{v[i]} == multiset(v)
  {
    var r := SwapPop(v, i);
    assert i < |v| - 1 ==> v == v[..i] + [v[i]] + v[i + 1..|v| - 1] + [v[|v| - 1]];
    assert i < |v| - 1 ==> r == v[..i] + [v[|v| - 1]] + v[i + 1..|v| - 1];
    assert i == |v| - 1 ==> v == r + [v[i]];
  }

  /** The removal loop of narrowByStyle as written, from index i on: a slot
      whose style differs is overwritten by the last one, and the loop index
      moves on regardless, so the moved candidate is never examined. */
  function SweepFrom(arena: Arena, v: seq<Handle>, choose: FontStyle, i: nat): (r: seq<Handle>)
    requires InArena(arena, v)
    decreases |v| - i
  {
    if i >= |v| then v
    else if StyleOf(arena, v[i]) != choose then
      var w := SwapPop(v, i);
      SweepFrom(arena, w, choose, i + 1)
    else SweepFrom(arena, v, choose, i + 1)
  }

  /** Nothing is added: the sweep only removes candidates. */
  lemma SweepOnlyRemoves(arena: Arena, v: seq<Handle>, choose: FontStyle, i: nat)
    requires InArena(arena, v)
    ensures multiset(SweepFrom(arena, v, choose, i)) <= multiset(v)
  {
    forall h: Handle {
      SweepCountNotAbove(arena, v, choose, i, h);
    }
  }

  /** No candidate is in the sweep's result more often than in its input. */
  lemma {:induction false} SweepCountNotAbove(arena: Arena, v: seq<Handle>, choose: FontStyle, i: nat, h: Handle)
    requires InArena(arena, v)
    ensures multiset(SweepFrom(arena, v, choose, i))[h] <= multiset(v)[h]
    decreases |v| - i
  {
    if i < |v| {
      if StyleOf(arena, v[i]) != choose {
        SwapPopRemoves(v, i);
        SweepCountNotAbove(arena, SwapPop(v, i), choose, i + 1, h);
      } else {
        SweepCountNotAbove(arena, v, choose, i + 1, h);
      }
    }
  }

  /** A candidate of the chosen style is never removed: it survives as
      often as it was given. */
  lemma {:induction false} SweepKeepsChosen(arena: Arena, v: seq<Handle>, choose: FontStyle, i: nat, h: Handle)
    requires InArena(arena, v) && h < |arena| && StyleOf(arena, h) == choose
    ensures multiset(SweepFrom(arena, v, choose, i))[h] == multiset(v)[h]
    decreases |v| - i
  {
    if i < |v| {
      if StyleOf(arena, v[i]) != choose {
        SwapPopRemoves(v, i);
        SweepKeepsChosen(arena, SwapPop(v, i), choose, i + 1, h);
      } else {
        SweepKeepsChosen(arena, v, choose, i + 1, h);
      }
    }
  }

  /** The specification of narrowByStyle on its candidate vector. */
  function NarrowedByStyle(arena: Arena, fonts: seq<Handle>, requested: FontStyle): seq<Handle>
    requires InArena(arena, fonts)
  {
    SweepFrom(arena, fonts, ChosenStyle(arena, fonts, requested), 0)
  }

  /** What narrowByStyle promises its caller: the result is a non-empty
      sub-multiset of the candidates that keeps every candidate of the
      chosen style (which is present). */
  lemma NarrowedByStyleSound(arena: Arena, fonts: seq<Handle>, requested: FontStyle)
    requires InArena(arena, fonts) && fonts != []
    ensures var r := NarrowedByStyle(arena, fonts, requested);
            var choose := ChosenStyle(arena, fonts, requested);
            && r != []
            && multiset(r) <= multiset(fonts)
            && InArena(arena, r)
            && (forall h :: h in fonts && StyleOf(arena, h) == choose ==> h in r)
  {
    var choose := ChosenStyle(arena, fonts, requested);
    var r := NarrowedByStyle(arena, fonts, requested);
    ChosenStylePresent(arena, fonts, requested);
    SweepOnlyRemoves(arena, fonts, choose, 0);
    forall h | h in fonts && StyleOf(arena, h) == choose
      ensures h in r
    {
      SweepKeepsChosen(arena, fonts, choose, 0, h);
    }
    var h :| h in fonts && StyleOf(arena, h) == choose;
    assert h in r;
    forall k | 0 <= k < |r| ensures r[k] < |arena| {
      assert r[k] in multiset(fonts);
    }
  }

  /** narrowByStyle. The candidate vector is passed by reference and
      narrowed in place; here it goes in as fonts and comes out as narrowed. */
  method NarrowByStyle(arena: Arena, fonts: seq<Handle>, properties: FontProperties)
    returns (narrowed: seq<Handle>)
    requires |fonts| > 1 && InArena(arena, fonts)
    ensures narrowed == NarrowedByStyle(arena, fonts, properties.style)
    ensures narrowed != [] && multiset(narrowed) <= multiset(fonts)
    ensures forall h :: h in fonts && StyleOf(arena, h) == ChosenStyle(arena, fonts, properties.style) ==>
              h in narrowed
  {
    var nNormal, nItalic, nOblique := 0, 0, 0;
    for k := 0 to |fonts|
      invariant nNormal == CountStyle(arena, fonts[..k], Normal)
      invariant nItalic == CountStyle(arena, fonts[..k], Italic)
      invariant nOblique == CountStyle(arena, fonts[..k], Oblique)
    {
      assert fonts[..k + 1][..k] == fonts[..k];
      match arena[fonts[k]].style {
        case Normal => nNormal := nNormal + 1;
        case Italic => nItalic := nItalic + 1;
        case Oblique => nOblique := nOblique + 1;
      }
    }
    assert fonts[..|fonts|] == fonts;

    var choose: FontStyle;
    match properties.style {
      case Normal =>
        choose := if nNormal > 0 then Normal else if nOblique > 0 then Oblique else Italic;
      case Italic =>
        choose := if nItalic > 0 then Italic else if nOblique > 0 then Oblique else Normal;
      case Oblique =>
        choose := if nOblique > 0 then Oblique else if nItalic > 0 then Italic else Normal;
    }
    assert choose == ChosenStyle(arena, fonts, properties.style);

    narrowed := fonts;
    var i := 0;
    while i < |narrowed|
      invariant i <= |narrowed| + 1
      invariant InArena(arena, narrowed)
      invariant SweepFrom(arena, narrowed, choose, i) == SweepFrom(arena, fonts, choose, 0)
      decreases |narrowed| - i + 1
    {
      if arena[narrowed[i]].style != choose {
        ghost var before := narrowed;
        var last := |narrowed| - 1;
        narrowed := narrowed[i := narrowed[last]][..last];
        assert narrowed == SwapPop(before, i);
      }
      i := i + 1;
    }
    NarrowedByStyleSound(arena, fonts, properties.style);
  }

  // ---------------------------------------------------------------------
  // The removal loop does not re-examine the candidate it swaps into slot i.

  /** Three fonts of one family: a Normal one and two Italic ones. */
  const StrayArena: Arena := [
    FontDescriptor("F", 400, NormalVariant, Normal, Url("n")),
    FontDescriptor("F", 400, NormalVariant, Italic, Url("i1")),
    FontDescriptor("F", 400, NormalVariant, Italic, Url("i2"))]

  /** Asking for Normal from [Normal, Italic, Italic] keeps an Italic font:
      slot 1 is replaced by slot 2 and the loop then stops. */
  lemma StraySurvivorAsWritten()
    ensures ChosenStyle(StrayArena, [0, 1, 2], Normal) == Normal
    ensures NarrowedByStyle(StrayArena, [0, 1, 2], Normal) == [0, 2]
    ensures StyleOf(StrayArena, 2) == Italic
  {
    StrayChoosesNormal();
    var arena := StrayArena;
    var w := SwapPop([0, 1, 2], 1);
    assert w == [0, 2];
    assert SweepFrom(arena, [0, 1, 2], Normal, 1) == SweepFrom(arena, w, Normal, 2);
  }

  /** The one Normal font makes Normal the chosen style. */
  lemma StrayChoosesNormal()
    ensures ChosenStyle(StrayArena, [0, 1, 2], Normal) == Normal
  {
    assert CountStyle(StrayArena, [0, 1, 2], Normal) == 1 by {
      assert [0, 1, 2][..2] == [0, 1] && [0, 1][..1] == [0] && [0][..0] == [];
    }
  }

  /** The removal as evidently intended: after a swap, slot i is examined
      again. */
  function RetainFrom(arena: Arena, v: seq<Handle>, choose: FontStyle, i: nat): (r: seq<Handle>)
    requires InArena(arena, v)
    decreases |v| - i
  {
    if i >= |v| then v
    else if StyleOf(arena, v[i]) != choose then
      var w := SwapPop(v, i);
      RetainFrom(arena, w, choose, i)
    else RetainFrom(arena, v, choose, i + 1)
  }

  /** With the re-examination, exactly the candidates of the chosen style
      remain, each as often as before. */
  lemma RetainKeepsExactlyChosen(arena: Arena, v: seq<Handle>, choose: FontStyle)
    requires InArena(arena, v)
    ensures forall h :: h in RetainFrom(arena, v, choose, 0) ==> h < |arena| && StyleOf(arena, h) == choose
    ensures forall h: Handle :: h < |arena| ==>
              multiset(RetainFrom(arena, v, choose, 0))[h]
                == if StyleOf(arena, h) == choose then multiset(v)[h] else 0
  {
    RetainOnlyChosen(arena, v, choose, 0);
    forall h: Handle | h < |arena| {
      RetainCountChosen(arena, v, choose, 0, h);
    }
  }

  /** Only candidates of the chosen style remain. */
  lemma {:induction false} RetainOnlyChosen(arena: Arena, v: seq<Handle>, choose: FontStyle, i: nat)
    requires InArena(arena, v)
    requires forall k :: 0 <= k < i && k < |v| ==> StyleOf(arena, v[k]) == choose
    ensures forall h :: h in RetainFrom(arena, v, choose, i) ==> h < |arena| && StyleOf(arena, h) == choose
    decreases |v| - i
  {
    if i >= |v| {
      assert forall h :: h in v ==> exists k :: 0 <= k < |v| && v[k] == h;
    } else if StyleOf(arena, v[i]) != choose {
      var w := SwapPop(v, i);
      assert forall k :: 0 <= k < i ==> w[k] == v[k];
      RetainOnlyChosen(arena, w, choose, i);
    } else {
      RetainOnlyChosen(arena, v, choose, i + 1);
    }
  }

  /** A candidate of the chosen style remains as often as it was given; one
      of another style does not remain. */
  lemma {:induction false} RetainCountChosen(arena: Arena, v: seq<Handle>, choose: FontStyle, i: nat, h: Handle)
    requires InArena(arena, v) && h < |arena|
    requires forall k :: 0 <= k < i && k < |v| ==> StyleOf(arena, v[k]) == choose
    ensures multiset(RetainFrom(arena, v, choose, i))[h]
              == if StyleOf(arena, h) == choose then multiset(v)[h] else 0
    decreases |v| - i
  {
    if i >= |v| {
      if StyleOf(arena, h) != choose {
        assert h !in v;
      }
    } else if StyleOf(arena, v[i]) != choose {
      var w := SwapPop(v, i);
      SwapPopRemoves(v, i);
      assert forall k :: 0 <= k < i ==> w[k] == v[k];
      RetainCountChosen(arena, w, choose, i, h);
    } else {
      RetainCountChosen(arena, v, choose, i + 1, h);
    }
  }
}
