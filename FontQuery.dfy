// FontManager::query: for each requested family, gather the matching
// descriptors (a generic keyword through its family list over the system
// fonts, any other name over the registered faces and then the system
// fonts), and turn them into at most one result; then the same over the
// fallback families, where a lone match is carried forward instead of
// being emitted.
module FontQuery {
  import opened Fonts
  import opened FamilyNames
  import StyleNarrowing
  import WeightMatching
  import FaceRegistry
  import MacFonts

  type Slots = seq<Option<FaceRegistry.FontFace>>

  /** getGenericList, which each platform's font manager supplies: the
      family list a generic keyword stands for, or None for a family name. */
  type GenericLookup = string -> Option<seq<string>>

  /** Every registered face's descriptor is in the arena. */
  predicate FacesInArena(arena: Arena, slots: Slots) {
    forall i :: 0 <= i < |slots| && slots[i].Some? ==> slots[i].value.descriptor < |arena|
  }

  predicate Distinct(s: seq<Handle>) {
    forall i, j :: 0 <= i < j < |s| ==> s[i] != s[j]
  }

  /** maybeAdd: a descriptor joins the candidates when its family matches
      and the very same descriptor is not already there. */
  function MaybeAdded(arena: Arena, family: string, desc: Handle, acc: seq<Handle>): (r: seq<Handle>)
    requires desc < |arena|
  {
    if SameFamily(family, arena[desc].family) && desc !in acc then acc + [desc] else acc
  }

  /** maybeAdd applied to each descriptor of a pool in order. */
  function AddMatching(arena: Arena, family: string, pool: seq<Handle>, acc: seq<Handle>): (r: seq<Handle>)
    requires InArena(arena, pool) && InArena(arena, acc)
    ensures InArena(arena, r)
    decreases |pool|
  {
    if pool == [] then acc
    else MaybeAdded(arena, family, pool[|pool| - 1], AddMatching(arena, family, pool[..|pool| - 1], acc))
  }

  /** The same over the registry's slots, skipping emptied ones. */
  function AddMatchingSlots(arena: Arena, family: string, slots: Slots, acc: seq<Handle>): (r: seq<Handle>)
    requires FacesInArena(arena, slots) && InArena(arena, acc)
    ensures InArena(arena, r)
    decreases |slots|
  {
    if slots == [] then acc
    else
      var prev := AddMatchingSlots(arena, family, slots[..|slots| - 1], acc);
      match slots[|slots| - 1]
      case None => prev
      case Some(face) => MaybeAdded(arena, family, face.descriptor, prev)
  }

  /** A generic keyword: each family of its list over the system fonts. */
  function AddGeneric(arena: Arena, names: seq<string>, system: seq<Handle>, acc: seq<Handle>): (r: seq<Handle>)
    requires InArena(arena, system) && InArena(arena, acc)
    ensures InArena(arena, r)
    decreases |names|
  {
    if names == [] then acc
    else AddMatching(arena, names[|names| - 1], system, AddGeneric(arena, names[..|names| - 1], system, acc))
  }

  /** The candidates gathered for one requested family. */
  function Candidates(arena: Arena, generics: GenericLookup, family: string, slots: Slots, system: seq<Handle>): (c: seq<Handle>)
    requires FacesInArena(arena, slots) && InArena(arena, system)
    ensures InArena(arena, c)
  {
    match generics(family)
    case Some(names) => AddGeneric(arena, names, system, [])
    case None => AddMatching(arena, family, system, AddMatchingSlots(arena, family, slots, []))
  }

  /** One result from a non-empty candidate list: a single candidate as it
      is, several narrowed by style and then by weight. */
  function Resolve(arena: Arena, candidates: seq<Handle>, properties: FontProperties): Option<Handle>
    requires InArena(arena, candidates) && candidates != []
  {
    if |candidates| == 1 then Some(candidates[0])
    else
      StyleNarrowing.NarrowedByStyleSound(arena, candidates, properties.style);
      var narrowed := StyleNarrowing.NarrowedByStyle(arena, candidates, properties.style);
      WeightMatching.NarrowedByWeight(arena, narrowed, properties.weight)
  }

  /** The requested-family loop: a family with candidates contributes one
      result, a family without contributes nothing. */
  function RequestedResults(arena: Arena, generics: GenericLookup, families: seq<string>, slots: Slots, system: seq<Handle>,
                            properties: FontProperties): seq<Option<Handle>>
    requires FacesInArena(arena, slots) && InArena(arena, system)
    decreases |families|
  {
    if families == [] then []
    else
      var prev := RequestedResults(arena, generics, families[..|families| - 1], slots, system, properties);
      var c := Candidates(arena, generics, families[|families| - 1], slots, system);
      if c == [] then prev else prev + [Resolve(arena, c, properties)]
  }

  /** The results emitted so far by the fallback loop and the candidates
      still pending (familyResults, which this loop clears only after
      emitting). */
  datatype FallbackState = FallbackState(emitted: seq<Option<Handle>>, pending: seq<Handle>)

  /** One fallback family: gather into the pending candidates, and emit only
      once there is more than one. */
  function FallbackStep(arena: Arena, st: FallbackState, fallback: string, system: seq<Handle>,
                        properties: FontProperties): FallbackState
    requires InArena(arena, system) && InArena(arena, st.pending)
  {
    var pending := AddMatching(arena, fallback, system, st.pending);
    if |pending| > 1 then FallbackState(st.emitted + [Resolve(arena, pending, properties)], [])
    else FallbackState(st.emitted, pending)
  }

  function FallbackRun(arena: Arena, fallbacks: seq<string>, system: seq<Handle>,
                       properties: FontProperties): (st: FallbackState)
    requires InArena(arena, system)
    ensures InArena(arena, st.pending)
    decreases |fallbacks|
  {
    if fallbacks == [] then FallbackState([], [])
    else
      FallbackStep(arena, FallbackRun(arena, fallbacks[..|fallbacks| - 1], system, properties),
                   fallbacks[|fallbacks| - 1], system, properties)
  }

  /** What query returns: a None entry is a null descriptor pointer. */
  function QueryResults(arena: Arena, generics: GenericLookup, properties: FontProperties, slots: Slots, system: seq<Handle>,
                        fallbacks: seq<string>): seq<Option<Handle>>
    requires FacesInArena(arena, slots) && InArena(arena, system)
  {
    RequestedResults(arena, generics, properties.families, slots, system, properties)
      + FallbackRun(arena, fallbacks, system, properties).emitted
  }

  class FontManager {
    /** The platform's getGenericList. */
    const generics: GenericLookup
    var systemFontsLoaded: bool
    var systemFonts: seq<Handle>

    constructor(generics: GenericLookup)
      ensures this.generics == generics
      ensures !systemFontsLoaded && systemFonts == []
    {
      this.generics := generics;
      systemFontsLoaded := false;
      systemFonts := [];
    }

    /** query. osFonts stands for what readSystemFonts appends, which is
        asked for only on the first call. */
    method Query(arena: Arena, properties: FontProperties, registered: FaceRegistry.FontFaceSet,
                 fallbacks: seq<string>, osFonts: seq<Handle>)
      returns (allFamilyResults: seq<Option<Handle>>)
      requires InArena(arena, systemFonts) && InArena(arena, osFonts)
      requires FacesInArena(arena, registered.facesData)
      modifies this
      ensures systemFontsLoaded
      ensures systemFonts == if old(systemFontsLoaded) then old(systemFonts) else old(systemFonts) + osFonts
      ensures InArena(arena, systemFonts)
      ensures allFamilyResults == QueryResults(arena, generics, properties, registered.facesData, systemFonts, fallbacks)
    {
      if !systemFontsLoaded {
        systemFonts := systemFonts + osFonts;
        systemFontsLoaded := true;
      }
      var system := systemFonts;
      allFamilyResults := [];
      var familyResults: seq<Handle> := [];
      allFamilyResults, familyResults :=
        RequestedLoop(arena, generics, properties, registered.facesData, system, allFamilyResults, familyResults);
      allFamilyResults := FallbackLoop(arena, properties, fallbacks, system, allFamilyResults, familyResults);
    }
  }

  /** The loop of query over the requested families: each family's
      candidates are gathered into familyResults, and one candidate is
      taken as is while several are narrowed. */
  method RequestedLoop(arena: Arena, generics: GenericLookup, properties: FontProperties, slots: Slots,
                       system: seq<Handle>, allFamilyResults: seq<Option<Handle>>, familyResults: seq<Handle>)
    returns (all: seq<Option<Handle>>, pending: seq<Handle>)
    requires FacesInArena(arena, slots) && InArena(arena, system)
    requires allFamilyResults == [] && familyResults == []
    ensures all == RequestedResults(arena, generics, properties.families, slots, system, properties)
    ensures pending == []
  {
    var families := properties.families;
    all, pending := allFamilyResults, familyResults;
    for i := 0 to |families|
      invariant all == RequestedResults(arena, generics, families[..i], slots, system, properties)
      invariant pending == []
    {
      assert families[..i + 1][..i] == families[..i];
      pending := GatherFamily(arena, generics, families[i], slots, system, pending);

      if |pending| == 1 {
        all := all + [Some(pending[0])];
        pending := [];
      } else if |pending| > 1 {
        var best := NarrowCandidates(arena, pending, properties);
        all := all + [best];
        pending := [];
      }
    }
    assert families[..|families|] == families;
  }

  /** The loop of query over the fallback families: candidates gather
      across families in familyResults, which is narrowed and emptied only
      once it holds more than one. */
  method FallbackLoop(arena: Arena, properties: FontProperties, fallbacks: seq<string>, system: seq<Handle>,
                      allFamilyResults: seq<Option<Handle>>, familyResults: seq<Handle>)
    returns (all: seq<Option<Handle>>)
    requires InArena(arena, system) && familyResults == []
    ensures all == allFamilyResults + FallbackRun(arena, fallbacks, system, properties).emitted
  {
    all := allFamilyResults;
    var pending := familyResults;
    for i := 0 to |fallbacks|
      invariant all == allFamilyResults + FallbackRun(arena, fallbacks[..i], system, properties).emitted
      invariant pending == FallbackRun(arena, fallbacks[..i], system, properties).pending
    {
      assert fallbacks[..i + 1][..i] == fallbacks[..i];
      pending := AddFromPool(arena, fallbacks[i], system, pending);

      if |pending| > 1 {
        var best := NarrowCandidates(arena, pending, properties);
        all := all + [best];
        pending := [];
      }
    }
    assert fallbacks[..|fallbacks|] == fallbacks;
  }

  /** The lookup of one requested family, into the (empty) familyResults:
      a generic keyword's list over the system fonts, or the name itself over
      the registered faces and then the system fonts. */
  method GatherFamily(arena: Arena, generics: GenericLookup, family: string, slots: Slots, system: seq<Handle>,
                      familyResults: seq<Handle>) returns (r: seq<Handle>)
    requires FacesInArena(arena, slots) && InArena(arena, system) && familyResults == []
    ensures r == Candidates(arena, generics, family, slots, system)
  {
    r := familyResults;
    var genericFamilies := generics(family);
    match genericFamilies {
      case Some(names) =>
        for j := 0 to |names|
          invariant r == AddGeneric(arena, names[..j], system, [])
        {
          assert names[..j + 1][..j] == names[..j];
          r := AddFromPool(arena, names[j], system, r);
        }
        assert names[..|names|] == names;
      case None =>
        r := AddFromSlots(arena, family, slots, r);
        r := AddFromPool(arena, family, system, r);
    }
  }

  /** narrowByStyle on familyResults in place, then narrowByWeight on the
      survivors: the two calls query makes whenever it has several
      candidates. */
  method NarrowCandidates(arena: Arena, familyResults: seq<Handle>, properties: FontProperties)
    returns (best: Option<Handle>)
    requires InArena(arena, familyResults) && |familyResults| > 1
    ensures best == Resolve(arena, familyResults, properties)
  {
    var narrowed := StyleNarrowing.NarrowByStyle(arena, familyResults, properties);
    StyleNarrowing.NarrowedByStyleSound(arena, familyResults, properties.style);
    best := WeightMatching.NarrowByWeight(arena, narrowed, properties);
  }

  /** maybeAdd: compareFamilyNames, then the identity search. */
  method MaybeAdd(arena: Arena, family: string, desc: Handle, familyResults: seq<Handle>)
    returns (r: seq<Handle>)
    requires desc < |arena|
    ensures r == MaybeAdded(arena, family, desc, familyResults)
  {
    var same := CompareFamilyNames(family, arena[desc].family);
    if same && desc !in familyResults {
      r := familyResults + [desc];
    } else {
      r := familyResults;
    }
  }

  /** The loop over the system fonts that query runs for each family it
      looks up there. */
  method AddFromPool(arena: Arena, family: string, pool: seq<Handle>, familyResults: seq<Handle>)
    returns (r: seq<Handle>)
    requires InArena(arena, pool) && InArena(arena, familyResults)
    ensures r == AddMatching(arena, family, pool, familyResults)
  {
    r := familyResults;
    for k := 0 to |pool|
      invariant r == AddMatching(arena, family, pool[..k], familyResults)
    {
      assert pool[..k + 1][..k] == pool[..k];
      r := MaybeAdd(arena, family, pool[k], r);
    }
    assert pool[..|pool|] == pool;
  }

  /** The loop over the registry's slots, skipping emptied ones. */
  method AddFromSlots(arena: Arena, family: string, slots: Slots, familyResults: seq<Handle>)
    returns (r: seq<Handle>)
    requires FacesInArena(arena, slots) && InArena(arena, familyResults)
    ensures r == AddMatchingSlots(arena, family, slots, familyResults)
  {
    r := familyResults;
    for k := 0 to |slots|
      invariant r == AddMatchingSlots(arena, family, slots[..k], familyResults)
    {
      assert slots[..k + 1][..k] == slots[..k];
      match slots[k] {
        case None =>
        case Some(face) => r := MaybeAdd(arena, family, face.descriptor, r);
      }
    }
    assert slots[..|slots|] == slots;
  }

  // ---------------------------------------------------------------------
  // What the gathering, the narrowing and the two loops promise.

  /** maybeAdd over a pool keeps the candidates gathered so far as a prefix,
      appends only pool members whose family matches, misses none of them,
      and never holds the same descriptor twice. */
  lemma {:induction false} AddMatchingSpec(arena: Arena, family: string, pool: seq<Handle>, acc: seq<Handle>)
    requires InArena(arena, pool) && InArena(arena, acc)
    ensures var r := AddMatching(arena, family, pool, acc);
            && |acc| <= |r| <= |acc| + |pool|
            && r[..|acc|] == acc
            && (forall k :: |acc| <= k < |r| ==> r[k] in pool && SameFamily(family, arena[r[k]].family))
            && (forall h :: h in pool && SameFamily(family, arena[h].family) ==> h in r)
            && (Distinct(acc) ==> Distinct(r))
    decreases |pool|
  {
    if pool != [] {
      var init := pool[..|pool| - 1];
      var last := pool[|pool| - 1];
      assert pool == init + [last];
      AddMatchingSpec(arena, family, init, acc);
      var prev := AddMatching(arena, family, init, acc);
      var r := AddMatching(arena, family, pool, acc);
      assert r == MaybeAdded(arena, family, last, prev);
      if SameFamily(family, arena[last].family) && last !in prev {
        assert r[..|prev|] == prev;
        assert r[..|acc|] == prev[..|acc|];
      }
    }
  }

  /** The registry's slots behave as the pool of the live faces' descriptors,
      in slot order. */
  lemma {:induction false} SlotsAsPool(arena: Arena, family: string, slots: Slots, acc: seq<Handle>)
    requires FacesInArena(arena, slots) && InArena(arena, acc)
    ensures InArena(arena, FaceRegistry.LiveHandles(slots))
    ensures AddMatchingSlots(arena, family, slots, acc)
              == AddMatching(arena, family, FaceRegistry.LiveHandles(slots), acc)
    decreases |slots|
  {
    if slots != [] {
      var init := slots[..|slots| - 1];
      var last := slots[|slots| - 1];
      assert slots == init + [last];
      SlotsAsPool(arena, family, init, acc);
      FaceRegistry.LiveFacesAppend(init, last);
      var before := FaceRegistry.LiveHandles(init);
      var after := FaceRegistry.LiveHandles(slots);
      if last.Some? {
        assert after == before + [last.value.descriptor] by {
          assert forall k :: 0 <= k < |before| ==> after[k] == before[k];
        }
        assert after[..|after| - 1] == before;
      } else {
        assert after == before by {
          assert forall k :: 0 <= k < |before| ==> after[k] == before[k];
        }
      }
    }
  }

  /** The descriptor's family matches one of the names. */
  predicate MatchesAny(arena: Arena, names: seq<string>, h: Handle)
    requires h < |arena|
  {
    exists n :: n in names && SameFamily(n, arena[h].family)
  }

  /** A generic keyword's candidates: every family of its list is searched
      over the system fonts only, and no matching system font is missed. */
  lemma {:induction false} AddGenericSpec(arena: Arena, names: seq<string>, system: seq<Handle>, acc: seq<Handle>)
    requires InArena(arena, system) && InArena(arena, acc)
    ensures var r := AddGeneric(arena, names, system, acc);
            && |acc| <= |r| && r[..|acc|] == acc
            && (forall k :: |acc| <= k < |r| ==> r[k] in system)
            && (Distinct(acc) ==> Distinct(r))
    decreases |names|
  {
    if names != [] {
      var init := names[..|names| - 1];
      var last := names[|names| - 1];
      assert names == init + [last];
      AddGenericSpec(arena, init, system, acc);
      var prev := AddGeneric(arena, init, system, acc);
      AddMatchingSpec(arena, last, system, prev);
      var r := AddGeneric(arena, names, system, acc);
      assert r == AddMatching(arena, last, system, prev);
      assert r[..|acc|] == prev[..|acc|];
      forall k | |acc| <= k < |r|
        ensures r[k] in system
      {
        if k < |prev| {
          assert r[k] == prev[k];
        }
      }
    }
  }

  /** No system font matching a family of the list is missed. */
  lemma {:induction false} AddGenericComplete(arena: Arena, names: seq<string>, system: seq<Handle>, acc: seq<Handle>)
    requires InArena(arena, system) && InArena(arena, acc)
    ensures var r := AddGeneric(arena, names, system, acc);
            forall n, h :: n in names && h in system && SameFamily(n, arena[h].family) ==> h in r
    decreases |names|
  {
    if names != [] {
      var init := names[..|names| - 1];
      var last := names[|names| - 1];
      assert names == init + [last];
      AddGenericComplete(arena, init, system, acc);
      var prev := AddGeneric(arena, init, system, acc);
      var r := AddGeneric(arena, names, system, acc);
      assert r == AddMatching(arena, last, system, prev);
      AddMatchingKeeps(arena, last, system, prev);
      forall n, h | n in names && h in system && SameFamily(n, arena[h].family)
        ensures h in r
      {
        if n != last {
          assert n in init;
          assert h in prev;
        }
      }
    }
  }

  /** maybeAdd over a pool keeps what was gathered before and adds every
      pool member of the family. */
  lemma AddMatchingKeeps(arena: Arena, family: string, pool: seq<Handle>, acc: seq<Handle>)
    requires InArena(arena, pool) && InArena(arena, acc)
    ensures forall h :: h in acc ==> h in AddMatching(arena, family, pool, acc)
    ensures forall h :: h in pool && SameFamily(family, arena[h].family) ==> h in AddMatching(arena, family, pool, acc)
  {
    AddMatchingSpec(arena, family, pool, acc);
    var r := AddMatching(arena, family, pool, acc);
    forall h | h in acc
      ensures h in r
    {
      var k :| 0 <= k < |acc| && acc[k] == h;
      assert r[..|acc|] == acc;
      assert r[k] == h;
    }
  }

  /** Every descriptor a generic keyword adds matches one of its list's
      families. */
  lemma {:induction false} AddGenericMatches(arena: Arena, names: seq<string>, system: seq<Handle>, acc: seq<Handle>)
    requires InArena(arena, system) && InArena(arena, acc)
    ensures var r := AddGeneric(arena, names, system, acc);
            |acc| <= |r| && forall k :: |acc| <= k < |r| ==> r[k] < |arena| && MatchesAny(arena, names, r[k])
    decreases |names|
  {
    if names != [] {
      var init := names[..|names| - 1];
      var last := names[|names| - 1];
      assert names == init + [last];
      AddGenericMatches(arena, init, system, acc);
      var prev := AddGeneric(arena, init, system, acc);
      AddMatchingSpec(arena, last, system, prev);
      var r := AddGeneric(arena, names, system, acc);
      assert r == AddMatching(arena, last, system, prev);
      forall k | |acc| <= k < |r|
        ensures r[k] < |arena| && MatchesAny(arena, names, r[k])
      {
        if k < |prev| {
          assert r[k] == prev[k];
          var n :| n in init && SameFamily(n, arena[r[k]].family);
          assert n in names;
        } else {
          assert last in names && SameFamily(last, arena[r[k]].family);
        }
      }
    }
  }

  /** The candidates for one requested family are distinct and are exactly
      the descriptors whose family matches: for a generic keyword, the system
      fonts matching one of its list's families (registered faces are never
      consulted); for any other name, the registered faces and system fonts
      of that family. */
  lemma CandidatesSpec(arena: Arena, generics: GenericLookup, family: string, slots: Slots, system: seq<Handle>)
    requires FacesInArena(arena, slots) && InArena(arena, system)
    ensures Distinct(Candidates(arena, generics, family, slots, system))
    ensures generics(family).Some? ==>
              forall h :: h in Candidates(arena, generics, family, slots, system) <==>
                h in system && h < |arena| && MatchesAny(arena, generics(family).value, h)
    ensures generics(family).None? ==>
              forall h :: h in Candidates(arena, generics, family, slots, system) <==>
                (h in FaceRegistry.LiveHandles(slots) || h in system) && h < |arena|
                && SameFamily(family, arena[h].family)
  {
    var c := Candidates(arena, generics, family, slots, system);
    match generics(family) {
      case Some(names) =>
        AddGenericSpec(arena, names, system, []);
        AddGenericMatches(arena, names, system, []);
        AddGenericComplete(arena, names, system, []);
        forall h | h in c
          ensures h < |arena| && MatchesAny(arena, names, h)
        {
          var k :| 0 <= k < |c| && c[k] == h;
        }
      case None =>
        SlotsAsPool(arena, family, slots, []);
        var registered := FaceRegistry.LiveHandles(slots);
        var first := AddMatching(arena, family, registered, []);
        AddMatchingSpec(arena, family, registered, []);
        AddMatchingSpec(arena, family, system, first);
        forall h | h in c
          ensures (h in registered || h in system) && SameFamily(family, arena[h].family)
        {
          var k :| 0 <= k < |c| && c[k] == h;
          if k < |first| {
            assert c[k] == first[k];
          }
        }
    }
  }

  /** A lone candidate is the result as it is; otherwise the result, when
      there is one, is one of the candidates, and there is one whenever every
      candidate's weight is less than 900 away from the requested weight. */
  lemma ResolveSpec(arena: Arena, candidates: seq<Handle>, properties: FontProperties)
    requires InArena(arena, candidates) && candidates != []
    ensures |candidates| == 1 ==> Resolve(arena, candidates, properties) == Some(candidates[0])
    ensures Resolve(arena, candidates, properties).Some? ==>
              Resolve(arena, candidates, properties).value in candidates
    ensures (forall k :: 0 <= k < |candidates| ==>
               WeightMatching.Distance(WeightOf(arena, candidates[k]), properties.weight) < WeightMatching.Sentinel)
            ==> Resolve(arena, candidates, properties).Some?
  {
    if |candidates| > 1 {
      StyleNarrowing.NarrowedByStyleSound(arena, candidates, properties.style);
      var narrowed := StyleNarrowing.NarrowedByStyle(arena, candidates, properties.style);
      WeightMatching.NarrowedByWeightSpec(arena, narrowed, properties.weight);
      assert forall h :: h in narrowed ==> h in candidates by {
        forall h | h in narrowed ensures h in candidates {
          assert h in multiset(narrowed);
        }
      }
      if forall k :: 0 <= k < |candidates| ==>
           WeightMatching.Distance(WeightOf(arena, candidates[k]), properties.weight) < WeightMatching.Sentinel {
        forall k | 0 <= k < |narrowed|
          ensures WeightMatching.Distance(WeightOf(arena, narrowed[k]), properties.weight) < WeightMatching.Sentinel
        {
          assert narrowed[k] in candidates;
        }
        WeightMatching.NarrowedByWeightInRange(arena, narrowed, properties.weight);
      }
    }
  }

  /** The descriptor is a registered face's or a system font. */
  predicate Known(slots: Slots, system: seq<Handle>, h: Handle) {
    h in FaceRegistry.LiveHandles(slots) || h in system
  }

  /** Every candidate is a registered face's or a system font. */
  lemma CandidatesKnown(arena: Arena, generics: GenericLookup, family: string, slots: Slots, system: seq<Handle>)
    requires FacesInArena(arena, slots) && InArena(arena, system)
    ensures forall h :: h in Candidates(arena, generics, family, slots, system) ==> Known(slots, system, h)
  {
    CandidatesSpec(arena, generics, family, slots, system);
  }

  /** Every one of the families has at least one candidate. */
  predicate EveryFamilyHasCandidates(arena: Arena, generics: GenericLookup, families: seq<string>, slots: Slots, system: seq<Handle>)
    requires FacesInArena(arena, slots) && InArena(arena, system)
  {
    forall i :: 0 <= i < |families| ==> Candidates(arena, generics, families[i], slots, system) != []
  }

  /** Adding a family keeps every family supplied exactly when the new one
      has candidates too. */
  lemma EveryFamilyHasCandidatesAppend(arena: Arena, generics: GenericLookup, init: seq<string>, family: string, slots: Slots,
                                       system: seq<Handle>)
    requires FacesInArena(arena, slots) && InArena(arena, system)
    ensures EveryFamilyHasCandidates(arena, generics, init + [family], slots, system) <==>
              EveryFamilyHasCandidates(arena, generics, init, slots, system) && Candidates(arena, generics, family, slots, system) != []
  {
    var families := init + [family];
    if EveryFamilyHasCandidates(arena, generics, families, slots, system) {
      assert families[|init|] == family;
      forall i | 0 <= i < |init|
        ensures Candidates(arena, generics, init[i], slots, system) != []
      {
        assert init[i] == families[i];
      }
    }
  }

  /** The requested-family loop yields at most one result per family, and
      exactly one per family when, and only when, every family has
      candidates. */
  lemma {:induction false} RequestedResultsCount(arena: Arena, generics: GenericLookup, families: seq<string>, slots: Slots,
                                                 system: seq<Handle>, properties: FontProperties)
    requires FacesInArena(arena, slots) && InArena(arena, system)
    ensures var r := RequestedResults(arena, generics, families, slots, system, properties);
            && |r| <= |families|
            && (|r| == |families| <==> EveryFamilyHasCandidates(arena, generics, families, slots, system))
    decreases |families|
  {
    if families != [] {
      var init := families[..|families| - 1];
      var family := families[|families| - 1];
      assert families == init + [family];
      RequestedResultsCount(arena, generics, init, slots, system, properties);
      EveryFamilyHasCandidatesAppend(arena, generics, init, family, slots, system);
    }
  }

  /** Every descriptor among the results is a registered face's or a
      system font. */
  predicate AllKnown(slots: Slots, system: seq<Handle>, results: seq<Option<Handle>>) {
    forall k :: 0 <= k < |results| && results[k].Some? ==> Known(slots, system, results[k].value)
  }

  lemma AllKnownAppend(slots: Slots, system: seq<Handle>, results: seq<Option<Handle>>, x: Option<Handle>)
    requires AllKnown(slots, system, results)
    requires x.Some? ==> Known(slots, system, x.value)
    ensures AllKnown(slots, system, results + [x])
  {
    forall k | 0 <= k < |results + [x]| && (results + [x])[k].Some?
      ensures Known(slots, system, (results + [x])[k].value)
    {
      if k < |results| {
        assert (results + [x])[k] == results[k];
      }
    }
  }

  /** Every result of the requested-family loop is a registered face's or a
      system font. */
  lemma {:induction false} RequestedResultsKnown(arena: Arena, generics: GenericLookup, families: seq<string>, slots: Slots,
                                                 system: seq<Handle>, properties: FontProperties)
    requires FacesInArena(arena, slots) && InArena(arena, system)
    ensures AllKnown(slots, system, RequestedResults(arena, generics, families, slots, system, properties))
    decreases |families|
  {
    if families != [] {
      var init := families[..|families| - 1];
      var family := families[|families| - 1];
      RequestedResultsKnown(arena, generics, init, slots, system, properties);
      var prev := RequestedResults(arena, generics, init, slots, system, properties);
      var c := Candidates(arena, generics, family, slots, system);
      if c != [] {
        CandidatesKnown(arena, generics, family, slots, system);
        ResolveSpec(arena, c, properties);
        AllKnownAppend(slots, system, prev, Resolve(arena, c, properties));
      }
    }
  }

  /** The fallback loop holds at most one pending candidate between
      families, emits at most one result per fallback family, and looks only
      at system fonts. */
  lemma {:induction false} FallbackRunSpec(arena: Arena, fallbacks: seq<string>, system: seq<Handle>,
                                           properties: FontProperties)
    requires InArena(arena, system)
    ensures var st := FallbackRun(arena, fallbacks, system, properties);
            && |st.pending| <= 1
            && |st.emitted| <= |fallbacks|
            && (forall h :: h in st.pending ==> h in system)
            && (forall k :: 0 <= k < |st.emitted| && st.emitted[k].Some? ==> st.emitted[k].value in system)
    decreases |fallbacks|
  {
    if fallbacks != [] {
      var init := fallbacks[..|fallbacks| - 1];
      var fallback := fallbacks[|fallbacks| - 1];
      FallbackRunSpec(arena, init, system, properties);
      var prev := FallbackRun(arena, init, system, properties);
      AddMatchingSpec(arena, fallback, system, prev.pending);
      var pending := AddMatching(arena, fallback, system, prev.pending);
      forall h | h in pending
        ensures h in system
      {
        var k :| 0 <= k < |pending| && pending[k] == h;
        if k < |prev.pending| {
          assert pending[k] == prev.pending[k];
        }
      }
      if |pending| > 1 {
        ResolveSpec(arena, pending, properties);
      }
    }
  }

  /** Unlike a requested family, a fallback family with a single match
      contributes nothing: when every fallback family matches only the one
      system font h, the fallback loop emits no result and h stays pending. */
  lemma {:induction false} LoneFallbackDropped(arena: Arena, fallbacks: seq<string>, system: seq<Handle>,
                                               properties: FontProperties, h: Handle)
    requires InArena(arena, system)
    requires forall f, g :: f in fallbacks && g in system && SameFamily(f, arena[g].family) ==> g == h
    ensures FallbackRun(arena, fallbacks, system, properties).emitted == []
    ensures FallbackRun(arena, fallbacks, system, properties).pending == []
            || FallbackRun(arena, fallbacks, system, properties).pending == [h]
    decreases |fallbacks|
  {
    if fallbacks != [] {
      var init := fallbacks[..|fallbacks| - 1];
      var fallback := fallbacks[|fallbacks| - 1];
      assert forall f :: f in init ==> f in fallbacks;
      LoneFallbackDropped(arena, init, system, properties, h);
      var prev := FallbackRun(arena, init, system, properties);
      assert fallback in fallbacks;
      AddMatchingOnly(arena, fallback, system, prev.pending, h);
    }
  }

  /** maybeAdd over a pool whose only match is h, into candidates that are
      at most h, leaves at most h. */
  lemma {:induction false} AddMatchingOnly(arena: Arena, family: string, pool: seq<Handle>,
                                           acc: seq<Handle>, h: Handle)
    requires InArena(arena, pool) && InArena(arena, acc)
    requires acc == [] || acc == [h]
    requires forall g :: g in pool && SameFamily(family, arena[g].family) ==> g == h
    ensures AddMatching(arena, family, pool, acc) == [] || AddMatching(arena, family, pool, acc) == [h]
    decreases |pool|
  {
    if pool != [] {
      var init := pool[..|pool| - 1];
      assert forall g :: g in init ==> g in pool;
      AddMatchingOnly(arena, family, init, acc, h);
      assert pool[|pool| - 1] in pool;
    }
  }

  /** A lone match left pending by earlier fallback families is narrowed
      together with the matches of the next fallback family, once there are
      several. */
  lemma PendingCarriedForward(arena: Arena, fallbacks: seq<string>, fallback: string, system: seq<Handle>,
                              properties: FontProperties)
    requires InArena(arena, system)
    ensures var before := FallbackRun(arena, fallbacks, system, properties);
            var after := FallbackRun(arena, fallbacks + [fallback], system, properties);
            var gathered := AddMatching(arena, fallback, system, before.pending);
            && (forall h :: h in before.pending ==> h in gathered)
            && (|gathered| > 1 ==> after.emitted == before.emitted + [Resolve(arena, gathered, properties)])
            && (|gathered| <= 1 ==> after.emitted == before.emitted && after.pending == gathered)
  {
    var before := FallbackRun(arena, fallbacks, system, properties);
    assert (fallbacks + [fallback])[..|fallbacks|] == fallbacks;
    AddMatchingSpec(arena, fallback, system, before.pending);
    var gathered := AddMatching(arena, fallback, system, before.pending);
    forall h | h in before.pending
      ensures h in gathered
    {
      var k :| 0 <= k < |before.pending| && before.pending[k] == h;
      assert gathered[k] == h;
    }
  }

  /** What query returns: at most one result per requested and per fallback
      family, and every descriptor it returns is a registered face's or a
      system font. */
  lemma QueryResultsSpec(arena: Arena, generics: GenericLookup, properties: FontProperties, slots: Slots, system: seq<Handle>,
                         fallbacks: seq<string>)
    requires FacesInArena(arena, slots) && InArena(arena, system)
    ensures var r := QueryResults(arena, generics, properties, slots, system, fallbacks);
            && |r| <= |properties.families| + |fallbacks|
            && AllKnown(slots, system, r)
  {
    var requested := RequestedResults(arena, generics, properties.families, slots, system, properties);
    var emitted := FallbackRun(arena, fallbacks, system, properties).emitted;
    RequestedResultsCount(arena, generics, properties.families, slots, system, properties);
    RequestedResultsKnown(arena, generics, properties.families, slots, system, properties);
    FallbackRunSpec(arena, fallbacks, system, properties);
    AllKnownConcat(slots, system, requested, emitted);
  }

  lemma AllKnownConcat(slots: Slots, system: seq<Handle>, a: seq<Option<Handle>>, b: seq<Option<Handle>>)
    requires AllKnown(slots, system, a)
    requires forall k :: 0 <= k < |b| && b[k].Some? ==> b[k].value in system
    ensures AllKnown(slots, system, a + b)
  {
    forall k | 0 <= k < |a + b| && (a + b)[k].Some?
      ensures Known(slots, system, (a + b)[k].value)
    {
      if k >= |a| {
        assert (a + b)[k] == b[k - |a|];
      }
    }
  }

  /** Either of the two families of the macOS sans-serif list. */
  predicate HelveticaOrArial(arena: Arena, h: Handle)
    requires h < |arena|
  {
    SameFamily("Helvetica", arena[h].family) || SameFamily("Arial", arena[h].family)
  }

  /** With the macOS font manager's lookup, "sans-serif" gathers exactly
      the system fonts of the Helvetica or Arial family, and never a
      registered face. */
  lemma MacSansSerifCandidates(arena: Arena, slots: Slots, system: seq<Handle>)
    requires FacesInArena(arena, slots) && InArena(arena, system)
    ensures forall h :: h in Candidates(arena, MacFonts.GetGenericList, "sans-serif", slots, system) <==>
              h in system && h < |arena| && HelveticaOrArial(arena, h)
  {
    var names := MacFonts.GetGenericList("sans-serif").value;
    CandidatesSpec(arena, MacFonts.GetGenericList, "sans-serif", slots, system);
    forall h: Handle | h < |arena|
      ensures MatchesAny(arena, names, h) <==> HelveticaOrArial(arena, h)
    {
      assert names[0] == "Helvetica" && names[1] == "Arial";
      if MatchesAny(arena, names, h) {
        var n :| n in names && SameFamily(n, arena[h].family);
      }
    }
  }

  /** "Unknown" is no generic keyword on macOS, so when no registered face
      or system font is of that family it has no candidates. */
  lemma MacUnknownHasNoCandidates(arena: Arena, slots: Slots, system: seq<Handle>)
    requires FacesInArena(arena, slots) && InArena(arena, system)
    requires forall h: Handle :: h < |arena| && Known(slots, system, h) ==> !SameFamily("Unknown", arena[h].family)
    ensures Candidates(arena, MacFonts.GetGenericList, "Unknown", slots, system) == []
  {
    assert MacFonts.GetGenericList("Unknown").None?;
    if Candidates(arena, MacFonts.GetGenericList, "Unknown", slots, system) != [] {
      NamedCandidate(arena, MacFonts.GetGenericList, "Unknown", slots, system, 0);
      assert false;
    }
  }

  /** A candidate for a family name is known and of that family. */
  lemma NamedCandidate(arena: Arena, generics: GenericLookup, family: string, slots: Slots, system: seq<Handle>,
                       i: nat)
    requires FacesInArena(arena, slots) && InArena(arena, system)
    requires generics(family).None? && i < |Candidates(arena, generics, family, slots, system)|
    ensures var h := Candidates(arena, generics, family, slots, system)[i];
            Known(slots, system, h) && SameFamily(family, arena[h].family)
  {
    CandidatesSpec(arena, generics, family, slots, system);
    var c := Candidates(arena, generics, family, slots, system);
    assert c[i] in c;
  }

  /** With the macOS lookup, a request for "Unknown" and then "sans-serif",
      where no registered face or system font is of the family "Unknown",
      yields at most one result, none exactly when no system font is
      Helvetica or Arial, and that result is such a system font. */
  lemma MacUnknownThenSansSerif(arena: Arena, slots: Slots, system: seq<Handle>, properties: FontProperties)
    requires FacesInArena(arena, slots) && InArena(arena, system)
    requires forall h: Handle :: h < |arena| && Known(slots, system, h) ==> !SameFamily("Unknown", arena[h].family)
    ensures var r := RequestedResults(arena, MacFonts.GetGenericList, ["Unknown", "sans-serif"], slots, system,
                                      properties);
            && |r| <= 1
            && (r == [] <==> forall h :: h in system && h < |arena| ==> !HelveticaOrArial(arena, h))
            && (forall k :: 0 <= k < |r| && r[k].Some? ==>
                  r[k].value in system && r[k].value < |arena| && HelveticaOrArial(arena, r[k].value))
  {
    var families := ["Unknown", "sans-serif"];
    var generics := MacFonts.GetGenericList;
    assert families[..1] == ["Unknown"] && families[..1][..0] == [];
    MacUnknownHasNoCandidates(arena, slots, system);
    MacSansSerifCandidates(arena, slots, system);
    var c := Candidates(arena, generics, "sans-serif", slots, system);
    if c != [] {
      ResolveSpec(arena, c, properties);
      assert c[0] in c;
    } else {
      assert forall h :: h in system && h < |arena| ==> !HelveticaOrArial(arena, h);
    }
  }
}
