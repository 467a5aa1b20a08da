// FontManager::narrowByWeight: sort a copy of the candidates by weight,
// return one of exactly the requested weight if there is one, and otherwise
// the nearest weight on the preferred side of a divider (the weight rule of
// section 5.2 of CSS Fonts Module Level 3, step "font-weight").
module WeightMatching {
  import opened Fonts

  /** Initial value of bestBelowDistance and bestAboveDistance. */
  const Sentinel: nat := 900

  /** |weight - requested|, computed in the source without going negative. */
  function Distance(weight: Weight, requested: Weight): nat {
    if weight < requested then requested - weight else weight - requested
  }

  /** 400 and 500 are each other's first fallback; any other request splits
      the candidates at itself. */
  function Divider(requested: Weight): (d: Weight)
    ensures requested == 400 ==> d == 500
    ensures requested == 500 ==> d == 400
    ensures requested != 400 && requested != 500 ==> d == requested
  {
    if requested == 400 then 500 else if requested == 500 then 400 else requested
  }

  predicate SortedByWeight(arena: Arena, s: seq<Handle>)
    requires InArena(arena, s)
  {
    forall i, j :: 0 <= i < j < |s| ==> WeightOf(arena, s[i]) <= WeightOf(arena, s[j])
  }

  function Insert(arena: Arena, h: Handle, s: seq<Handle>): (r: seq<Handle>)
    requires h < |arena| && InArena(arena, s)
    ensures InArena(arena, r) && |r| == |s| + 1
    ensures multiset(r) == multiset(s) + multiset{h}
  {
    if s == [] || WeightOf(arena, h) <= WeightOf(arena, s[0]) then [h] + s
    else
      assert s == [s[0]] + s[1..];
      [s[0]] + Insert(arena, h, s[1..])
  }

  /** Inserting into a sorted list keeps it sorted; the new head is the
      inserted candidate or the old head. */
  lemma {:induction false} InsertSorted(arena: Arena, h: Handle, s: seq<Handle>)
    requires h < |arena| && InArena(arena, s) && SortedByWeight(arena, s)
    ensures SortedByWeight(arena, Insert(arena, h, s))
    ensures Insert(arena, h, s)[0] == h || (s != [] && Insert(arena, h, s)[0] == s[0])
  {
    if s != [] && WeightOf(arena, h) > WeightOf(arena, s[0]) {
      var rest := Insert(arena, h, s[1..]);
      InsertSorted(arena, h, s[1..]);
      var r := [s[0]] + rest;
      forall i, j | 0 <= i < j < |r| ensures WeightOf(arena, r[i]) <= WeightOf(arena, r[j]) {
        if i == 0 {
          assert WeightOf(arena, s[0]) <= WeightOf(arena, rest[0]);
          assert WeightOf(arena, rest[0]) <= WeightOf(arena, rest[j - 1]);
        } else {
          assert r[i] == rest[i - 1] && r[j] == rest[j - 1];
        }
      }
    }
  }

  /** The std::sort call: a permutation of the candidates in ascending
      weight. */
  function SortByWeight(arena: Arena, s: seq<Handle>): (r: seq<Handle>)
    requires InArena(arena, s)
    ensures InArena(arena, r) && |r| == |s|
    ensures multiset(r) == multiset(s)
  {
    if s == [] then []
    else
      assert s == [s[0]] + s[1..];
      Insert(arena, s[0], SortByWeight(arena, s[1..]))
  }

  lemma {:induction false} SortByWeightSorted(arena: Arena, s: seq<Handle>)
    requires InArena(arena, s)
    ensures SortedByWeight(arena, SortByWeight(arena, s))
  {
    if s != [] {
      SortByWeightSorted(arena, s[1..]);
      InsertSorted(arena, s[0], SortByWeight(arena, s[1..]));
    }
  }

  /** The first candidate, in scan order, of exactly the requested weight. */
  function FirstOfWeight(arena: Arena, s: seq<Handle>, requested: Weight): Option<Handle>
    requires InArena(arena, s)
  {
    if s == [] then None
    else if WeightOf(arena, s[0]) == requested then Some(s[0])
    else FirstOfWeight(arena, s[1..], requested)
  }

  /** The best candidate of one side so far and its distance. */
  datatype Nearest = Nearest(best: Option<Handle>, distance: nat)

  /** The below-divider half of the scan over the first n candidates of s,
      with the distance it starts from: a candidate replaces the best so far when it is at least as
      near. Returns the best candidate and its distance. */
  function ScanBelow(arena: Arena, s: seq<Handle>, n: nat, requested: Weight, sentinel: nat): Nearest
    requires InArena(arena, s) && n <= |s|
  {
    if n == 0 then Nearest(None, sentinel)
    else
      var sofar := ScanBelow(arena, s, n - 1, requested, sentinel);
      var font := s[n - 1];
      var distance := Distance(WeightOf(arena, font), requested);
      if WeightOf(arena, font) < Divider(requested) && distance <= sofar.distance then Nearest(Some(font), distance)
      else sofar
  }

  /** The at-or-above-divider half: a candidate replaces the best so far
      only when it is strictly nearer. */
  function ScanAbove(arena: Arena, s: seq<Handle>, n: nat, requested: Weight, sentinel: nat): Nearest
    requires InArena(arena, s) && n <= |s|
  {
    if n == 0 then Nearest(None, sentinel)
    else
      var sofar := ScanAbove(arena, s, n - 1, requested, sentinel);
      var font := s[n - 1];
      var distance := Distance(WeightOf(arena, font), requested);
      if WeightOf(arena, font) >= Divider(requested) && distance < sofar.distance then Nearest(Some(font), distance)
      else sofar
  }

  lemma FirstStep(arena: Arena, s: seq<Handle>, k: nat, requested: Weight)
    requires InArena(arena, s) && k < |s|
    ensures FirstOfWeight(arena, s[k..], requested) ==
              if WeightOf(arena, s[k]) == requested then Some(s[k])
              else FirstOfWeight(arena, s[k + 1..], requested)
  {
    assert s[k..][1..] == s[k + 1..];
  }

  /** The choice made from a sorted candidate list, with a given initial
      best distance. */
  function PickFromSorted(arena: Arena, sorted: seq<Handle>, requested: Weight, sentinel: nat): Option<Handle>
    requires InArena(arena, sorted)
  {
    match FirstOfWeight(arena, sorted, requested)
    case Some(h) => Some(h)
    case None =>
      var below := ScanBelow(arena, sorted, |sorted|, requested, sentinel).best;
      var above := ScanAbove(arena, sorted, |sorted|, requested, sentinel).best;
      if below.Some? && above.Some? then (if Divider(requested) <= 500 then below else above)
      else if below.Some? then below
      else above
  }

  /** The specification of narrowByWeight, which returns a null pointer as
      None. */
  function NarrowedByWeight(arena: Arena, fonts: seq<Handle>, requested: Weight): Option<Handle>
    requires InArena(arena, fonts)
  {
    PickFromSorted(arena, SortByWeight(arena, fonts), requested, Sentinel)
  }

  // ---------------------------------------------------------------------
  // What the choice means, independently of the scan.

  predicate HasExact(arena: Arena, fonts: seq<Handle>, requested: Weight)
    requires InArena(arena, fonts)
  {
    exists k :: 0 <= k < |fonts| && WeightOf(arena, fonts[k]) == requested
  }

  /** Some candidate below the divider is within the initial distance. */
  predicate HasBelow(arena: Arena, fonts: seq<Handle>, requested: Weight, sentinel: nat)
    requires InArena(arena, fonts)
  {
    exists k :: 0 <= k < |fonts| && WeightOf(arena, fonts[k]) < Divider(requested)
                && Distance(WeightOf(arena, fonts[k]), requested) <= sentinel
  }

  /** Some candidate at or above the divider is nearer than the initial
      distance. */
  predicate HasAbove(arena: Arena, fonts: seq<Handle>, requested: Weight, sentinel: nat)
    requires InArena(arena, fonts)
  {
    exists k :: 0 <= k < |fonts| && WeightOf(arena, fonts[k]) >= Divider(requested)
                && Distance(WeightOf(arena, fonts[k]), requested) < sentinel
  }

  /** h is a nearest candidate below the divider, and the heaviest of those
      at that distance. */
  predicate IsBestBelow(arena: Arena, fonts: seq<Handle>, requested: Weight, h: Handle)
    requires InArena(arena, fonts)
  {
    && h in fonts && h < |arena|
    && WeightOf(arena, h) < Divider(requested)
    && forall k :: 0 <= k < |fonts| && WeightOf(arena, fonts[k]) < Divider(requested) ==>
         var dh, dk := Distance(WeightOf(arena, h), requested), Distance(WeightOf(arena, fonts[k]), requested);
         dh < dk || (dh == dk && WeightOf(arena, fonts[k]) <= WeightOf(arena, h))
  }

  /** h is a nearest candidate at or above the divider, and the lightest of
      those at that distance. */
  predicate IsBestAbove(arena: Arena, fonts: seq<Handle>, requested: Weight, h: Handle)
    requires InArena(arena, fonts)
  {
    && h in fonts && h < |arena|
    && WeightOf(arena, h) >= Divider(requested)
    && forall k :: 0 <= k < |fonts| && WeightOf(arena, fonts[k]) >= Divider(requested) ==>
         var dh, dk := Distance(WeightOf(arena, h), requested), Distance(WeightOf(arena, fonts[k]), requested);
         dh < dk || (dh == dk && WeightOf(arena, h) <= WeightOf(arena, fonts[k]))
  }

  lemma {:induction false} FirstOfWeightFinds(arena: Arena, s: seq<Handle>, requested: Weight)
    requires InArena(arena, s)
    ensures FirstOfWeight(arena, s, requested).None? <==> !HasExact(arena, s, requested)
    ensures FirstOfWeight(arena, s, requested).Some? ==>
              FirstOfWeight(arena, s, requested).value in s
              && WeightOf(arena, FirstOfWeight(arena, s, requested).value) == requested
  {
    if s != [] {
      FirstOfWeightFinds(arena, s[1..], requested);
      if WeightOf(arena, s[0]) != requested {
        forall k | 0 <= k < |s| && WeightOf(arena, s[k]) == requested
          ensures 0 <= k - 1 < |s[1..]| && WeightOf(arena, s[1..][k - 1]) == requested
        {
        }
      }
    }
  }

  /** On a sorted list the below scan ends on the best below-divider
      candidate, and finds none only when every below-divider candidate is
      farther than the initial distance. */
  lemma {:induction false} ScanBelowBest(arena: Arena, s: seq<Handle>, n: nat, requested: Weight, sentinel: nat)
    requires InArena(arena, s) && SortedByWeight(arena, s) && n <= |s|
    ensures InArena(arena, s[..n])
    ensures var r := ScanBelow(arena, s, n, requested, sentinel);
            && (r.best.None? ==> r.distance == sentinel && !HasBelow(arena, s[..n], requested, sentinel))
            && (r.best.Some? ==> IsBestBelow(arena, s[..n], requested, r.best.value)
                                 && r.distance == Distance(WeightOf(arena, r.best.value), requested) <= sentinel)
    decreases n, 1
  {
    if n > 0 {
      var sofar := ScanBelow(arena, s, n - 1, requested, sentinel);
      var font := s[n - 1];
      if WeightOf(arena, font) < Divider(requested) && Distance(WeightOf(arena, font), requested) <= sofar.distance {
        ScanBelowTakesLast(arena, s, n, requested, sentinel);
      } else {
        ScanBelowKeeps(arena, s, n, requested, sentinel);
      }
    }
  }

  /** The step of the scan that takes the last candidate: it is the
      heaviest so far, and no earlier one below the divider is nearer. */
  lemma {:induction false} ScanBelowTakesLast(arena: Arena, s: seq<Handle>, n: nat, requested: Weight, sentinel: nat)
    requires InArena(arena, s) && SortedByWeight(arena, s) && 0 < n <= |s|
    requires WeightOf(arena, s[n - 1]) < Divider(requested)
    requires Distance(WeightOf(arena, s[n - 1]), requested) <= ScanBelow(arena, s, n - 1, requested, sentinel).distance
    ensures InArena(arena, s[..n]) && IsBestBelow(arena, s[..n], requested, s[n - 1])
    ensures Distance(WeightOf(arena, s[n - 1]), requested) <= sentinel
    decreases n, 0
  {
    ScanBelowBest(arena, s, n - 1, requested, sentinel);
    var sofar := ScanBelow(arena, s, n - 1, requested, sentinel);
    var font := s[n - 1];
    var distance := Distance(WeightOf(arena, font), requested);
    assert s[..n][n - 1] == font;
    forall k | 0 <= k < n && WeightOf(arena, s[..n][k]) < Divider(requested)
      ensures distance <= Distance(WeightOf(arena, s[..n][k]), requested)
      ensures WeightOf(arena, s[..n][k]) <= WeightOf(arena, font)
    {
      if k < n - 1 {
        assert s[..n][k] == s[..n - 1][k];
      }
    }
    assert font in s[..n];
  }

  /** The step of the scan that leaves the best so far: what held of the
      first n - 1 candidates holds of the first n. */
  lemma {:induction false} ScanBelowKeeps(arena: Arena, s: seq<Handle>, n: nat, requested: Weight, sentinel: nat)
    requires InArena(arena, s) && SortedByWeight(arena, s) && 0 < n <= |s|
    requires WeightOf(arena, s[n - 1]) >= Divider(requested)
             || Distance(WeightOf(arena, s[n - 1]), requested) > ScanBelow(arena, s, n - 1, requested, sentinel).distance
    ensures InArena(arena, s[..n])
    ensures var r := ScanBelow(arena, s, n - 1, requested, sentinel);
            && (r.best.None? ==> r.distance == sentinel && !HasBelow(arena, s[..n], requested, sentinel))
            && (r.best.Some? ==> IsBestBelow(arena, s[..n], requested, r.best.value)
                                 && r.distance == Distance(WeightOf(arena, r.best.value), requested) <= sentinel)
    decreases n, 0
  {
    ScanBelowBest(arena, s, n - 1, requested, sentinel);
    var sofar := ScanBelow(arena, s, n - 1, requested, sentinel);
    assert forall k :: 0 <= k < n - 1 ==> s[..n][k] == s[..n - 1][k];
    assert s[..n][n - 1] == s[n - 1];
    if sofar.best.Some? {
      assert sofar.best.value in s[..n];
    }
  }

  /** The same for the at-or-above scan, whose ties keep the lighter
      candidate. */
  lemma {:induction false} ScanAboveBest(arena: Arena, s: seq<Handle>, n: nat, requested: Weight, sentinel: nat)
    requires InArena(arena, s) && SortedByWeight(arena, s) && n <= |s|
    ensures InArena(arena, s[..n])
    ensures var r := ScanAbove(arena, s, n, requested, sentinel);
            && (r.best.None? ==> r.distance == sentinel && !HasAbove(arena, s[..n], requested, sentinel))
            && (r.best.Some? ==> IsBestAbove(arena, s[..n], requested, r.best.value)
                                 && r.distance == Distance(WeightOf(arena, r.best.value), requested) < sentinel)
  {
    if n > 0 {
      ScanAboveBest(arena, s, n - 1, requested, sentinel);
      var best := ScanAbove(arena, s, n - 1, requested, sentinel).best;
      assert forall k :: 0 <= k < n - 1 ==> s[..n][k] == s[..n - 1][k];
      assert s[..n][n - 1] == s[n - 1];
      if best.Some? {
        assert best.value in s[..n];
      }
    }
  }

  /** What holds of a list of candidates holds of any list containing
      them. */
  lemma Covers(arena: Arena, s: seq<Handle>, t: seq<Handle>, requested: Weight, sentinel: nat, h: Handle)
    requires InArena(arena, s) && InArena(arena, t)
    requires forall k :: 0 <= k < |s| ==> s[k] in t
    ensures HasExact(arena, s, requested) ==> HasExact(arena, t, requested)
    ensures HasBelow(arena, s, requested, sentinel) ==> HasBelow(arena, t, requested, sentinel)
    ensures HasAbove(arena, s, requested, sentinel) ==> HasAbove(arena, t, requested, sentinel)
    ensures h in s && IsBestBelow(arena, t, requested, h) ==> IsBestBelow(arena, s, requested, h)
    ensures h in s && IsBestAbove(arena, t, requested, h) ==> IsBestAbove(arena, s, requested, h)
  {
    forall k | 0 <= k < |s| ensures exists j :: 0 <= j < |t| && t[j] == s[k] {
      assert s[k] in t;
    }
  }

  /** The predicates above depend only on the candidates as a multiset. */
  lemma SameCandidates(arena: Arena, s: seq<Handle>, t: seq<Handle>, requested: Weight, sentinel: nat, h: Handle)
    requires InArena(arena, s) && InArena(arena, t) && multiset(s) == multiset(t)
    ensures HasExact(arena, s, requested) == HasExact(arena, t, requested)
    ensures HasBelow(arena, s, requested, sentinel) == HasBelow(arena, t, requested, sentinel)
    ensures HasAbove(arena, s, requested, sentinel) == HasAbove(arena, t, requested, sentinel)
    ensures h in s ==> IsBestBelow(arena, s, requested, h) == IsBestBelow(arena, t, requested, h)
    ensures h in s ==> IsBestAbove(arena, s, requested, h) == IsBestAbove(arena, t, requested, h)
  {
    forall k | 0 <= k < |s| ensures s[k] in t {
      assert s[k] in multiset(s);
    }
    forall k | 0 <= k < |t| ensures t[k] in s {
      assert t[k] in multiset(t);
    }
    if h in s {
      assert h in multiset(s);
      assert h in t;
    }
    Covers(arena, s, t, requested, sentinel, h);
    Covers(arena, t, s, requested, sentinel, h);
  }

  /** The choice, for any initial distance, in terms of the candidates alone:
      an exact weight wins; otherwise the best below and the best above the
      divider compete, the below one winning when the divider is at most
      500; with neither there is no result. */
  lemma PickSpec(arena: Arena, fonts: seq<Handle>, requested: Weight, sentinel: nat)
    requires InArena(arena, fonts)
    ensures var r := PickFromSorted(arena, SortByWeight(arena, fonts), requested, sentinel);
            var exact := HasExact(arena, fonts, requested);
            var below := HasBelow(arena, fonts, requested, sentinel);
            var above := HasAbove(arena, fonts, requested, sentinel);
            && (r.Some? ==> r.value in fonts)
            && (exact ==> r.Some? && WeightOf(arena, r.value) == requested)
            && (!exact && below && (!above || Divider(requested) <= 500) ==>
                  r.Some? && IsBestBelow(arena, fonts, requested, r.value))
            && (!exact && above && (!below || Divider(requested) > 500) ==>
                  r.Some? && IsBestAbove(arena, fonts, requested, r.value))
            && (!exact && !below && !above ==> r.None?)
  {
    var sorted := SortByWeight(arena, fonts);
    SortByWeightSorted(arena, fonts);
    PickFromSortedSpec(arena, sorted, requested, sentinel);
    var r := PickFromSorted(arena, sorted, requested, sentinel);
    if r.Some? {
      assert r.value in multiset(sorted);
      SameCandidates(arena, sorted, fonts, requested, sentinel, r.value);
    } else {
      SameCandidates(arena, sorted, fonts, requested, sentinel, 0);
    }
  }

  /** The same choice described on the sorted list it is made from. */
  lemma PickFromSortedSpec(arena: Arena, sorted: seq<Handle>, requested: Weight, sentinel: nat)
    requires InArena(arena, sorted) && SortedByWeight(arena, sorted)
    ensures var r := PickFromSorted(arena, sorted, requested, sentinel);
            var exact := HasExact(arena, sorted, requested);
            var below := HasBelow(arena, sorted, requested, sentinel);
            var above := HasAbove(arena, sorted, requested, sentinel);
            && (r.Some? ==> r.value in sorted)
            && (exact ==> r.Some? && WeightOf(arena, r.value) == requested)
            && (!exact && below && (!above || Divider(requested) <= 500) ==>
                  r.Some? && IsBestBelow(arena, sorted, requested, r.value))
            && (!exact && above && (!below || Divider(requested) > 500) ==>
                  r.Some? && IsBestAbove(arena, sorted, requested, r.value))
            && (!exact && !below && !above ==> r.None?)
  {
    FirstOfWeightFinds(arena, sorted, requested);
    ScanBelowBest(arena, sorted, |sorted|, requested, sentinel);
    ScanAboveBest(arena, sorted, |sorted|, requested, sentinel);
    assert sorted[..|sorted|] == sorted;
  }

  /** What narrowByWeight's caller gets. */
  lemma NarrowedByWeightSpec(arena: Arena, fonts: seq<Handle>, requested: Weight)
    requires InArena(arena, fonts)
    ensures var r := NarrowedByWeight(arena, fonts, requested);
            var exact := HasExact(arena, fonts, requested);
            var below := HasBelow(arena, fonts, requested, Sentinel);
            var above := HasAbove(arena, fonts, requested, Sentinel);
            && (r.Some? ==> r.value in fonts)
            && (exact ==> r.Some? && WeightOf(arena, r.value) == requested)
            && (!exact && below && (!above || Divider(requested) <= 500) ==>
                  r.Some? && IsBestBelow(arena, fonts, requested, r.value))
            && (!exact && above && (!below || Divider(requested) > 500) ==>
                  r.Some? && IsBestAbove(arena, fonts, requested, r.value))
            && (!exact && !below && !above ==> r.None?)
  {
    PickSpec(arena, fonts, requested, Sentinel);
  }

  /** With every candidate nearer than the sentinel, as the source's comment
      assumes for weights 100 to 900, a non-empty list always yields a
      candidate. */
  lemma NarrowedByWeightInRange(arena: Arena, fonts: seq<Handle>, requested: Weight)
    requires InArena(arena, fonts) && fonts != []
    requires forall k :: 0 <= k < |fonts| ==> Distance(WeightOf(arena, fonts[k]), requested) < Sentinel
    ensures NarrowedByWeight(arena, fonts, requested).Some?
  {
    NarrowedByWeightSpec(arena, fonts, requested);
    if WeightOf(arena, fonts[0]) < Divider(requested) {
      assert HasBelow(arena, fonts, requested, Sentinel);
    } else {
      assert HasAbove(arena, fonts, requested, Sentinel);
    }
  }

  function Face(weight: Weight): FontDescriptor {
    FontDescriptor("F", weight, NormalVariant, Normal, Url("f"))
  }

  /** Asking for 400 among 300 and 600: the divider is 500, so the lighter
      300 is preferred although 600 is not farther... */
  lemma {:induction false} PrefersBelowForRegular()
    ensures NarrowedByWeight([Face(300), Face(600)], [0, 1], 400) == Some(0)
  {
    var arena, fonts := [Face(300), Face(600)], [0, 1];
    NarrowedByWeightSpec(arena, fonts, 400);
    assert WeightOf(arena, fonts[0]) < Divider(400);
    assert WeightOf(arena, fonts[1]) >= Divider(400);
  }

  /** ...and among 350 and 450, both 50 away and both below the divider, the
      heavier one wins. */
  lemma {:induction false} PrefersHeavierTieBelow()
    ensures NarrowedByWeight([Face(350), Face(450)], [0, 1], 400) == Some(1)
  {
    var arena, fonts := [Face(350), Face(450)], [0, 1];
    NarrowedByWeightSpec(arena, fonts, 400);
    assert WeightOf(arena, fonts[0]) < Divider(400);
    var r := NarrowedByWeight(arena, fonts, 400);
    assert !HasAbove(arena, fonts, 400, Sentinel);
    assert IsBestBelow(arena, fonts, 400, r.value);
    assert r.value in fonts;
  }

  /** An exact weight is chosen whatever the divider says: 600 among 300,
      600 and 900. */
  lemma ExactWeightWins(arena: Arena, light: Handle, regular: Handle, heavy: Handle)
    requires light < |arena| && regular < |arena| && heavy < |arena|
    requires WeightOf(arena, light) == 300 && WeightOf(arena, regular) == 600 && WeightOf(arena, heavy) == 900
    ensures NarrowedByWeight(arena, [light, regular, heavy], 600) == Some(regular)
  {
    var fonts := [light, regular, heavy];
    NarrowedByWeightSpec(arena, fonts, 600);
    assert WeightOf(arena, fonts[1]) == 600;
  }

  /** As written: a request for 100 when the only candidate weighs 1000 is
      900 away, which the at-or-above side does not accept, so the result is
      a null descriptor, and query appends it to its results. */
  lemma {:induction false} FarWeightYieldsNothing()
    ensures NarrowedByWeight([Face(1000)], [0], 100) == None
  {
    var arena, fonts := [Face(1000)], [0];
    NarrowedByWeightSpec(arena, fonts, 100);
    assert !HasExact(arena, fonts, 100);
    assert !HasBelow(arena, fonts, 100, Sentinel);
    assert !HasAbove(arena, fonts, 100, Sentinel);
  }

  /** The below-divider side accepts a distance equal to the best so far, so
      a candidate exactly 900 below the request is still taken: a request
      for 1000 when the only candidate weighs 100 returns it. */
  lemma {:induction false} NineHundredBelowTaken()
    ensures NarrowedByWeight([Face(100)], [0], 1000) == Some(0)
  {
    var arena, fonts := [Face(100)], [0];
    NarrowedByWeightSpec(arena, fonts, 1000);
    assert !HasExact(arena, fonts, 1000);
    assert WeightOf(arena, fonts[0]) < Divider(1000) && Distance(WeightOf(arena, fonts[0]), 1000) <= Sentinel;
    assert !HasAbove(arena, fonts, 1000, Sentinel);
  }

  /** Any distance between two uint16 weights is below this. */
  const NoSentinel: nat := 0x1_0000

  /** The corrected choice: the best distances start above any possible
      distance, as if there were no best candidate yet. */
  function NarrowedByWeightFixed(arena: Arena, fonts: seq<Handle>, requested: Weight): Option<Handle>
    requires InArena(arena, fonts)
  {
    PickFromSorted(arena, SortByWeight(arena, fonts), requested, NoSentinel)
  }

  /** Corrected: a non-empty list always yields one of its candidates, of
      the requested weight if there is one, and otherwise a nearest one on
      the preferred side. */
  lemma NarrowedByWeightFixedSpec(arena: Arena, fonts: seq<Handle>, requested: Weight)
    requires InArena(arena, fonts) && fonts != []
    ensures var r := NarrowedByWeightFixed(arena, fonts, requested);
            && r.Some? && r.value in fonts
            && (HasExact(arena, fonts, requested) ==> WeightOf(arena, r.value) == requested)
            && (!HasExact(arena, fonts, requested) ==>
                  IsBestBelow(arena, fonts, requested, r.value) || IsBestAbove(arena, fonts, requested, r.value))
  {
    PickSpec(arena, fonts, requested, NoSentinel);
    var below := HasBelow(arena, fonts, requested, NoSentinel);
    var above := HasAbove(arena, fonts, requested, NoSentinel);
    if WeightOf(arena, fonts[0]) < Divider(requested) {
      assert below;
    } else {
      assert above;
    }
    var r := NarrowedByWeightFixed(arena, fonts, requested);
    if !HasExact(arena, fonts, requested) {
      if below && (!above || Divider(requested) <= 500) {
        assert IsBestBelow(arena, fonts, requested, r.value);
      } else {
        assert IsBestAbove(arena, fonts, requested, r.value);
      }
    }
  }

  /** The initial distance makes no difference to a scan whose candidates
      are all nearer than it. */
  lemma SentinelIrrelevant(arena: Arena, s: seq<Handle>, n: nat, requested: Weight, low: nat, high: nat)
    requires InArena(arena, s) && n <= |s| && low <= high
    requires forall k :: 0 <= k < |s| ==> Distance(WeightOf(arena, s[k]), requested) < low
    ensures ScanBelow(arena, s, n, requested, low).best == ScanBelow(arena, s, n, requested, high).best
    ensures ScanAbove(arena, s, n, requested, low).best == ScanAbove(arena, s, n, requested, high).best
  {
    SentinelIrrelevantBelow(arena, s, n, requested, low, high);
    SentinelIrrelevantAbove(arena, s, n, requested, low, high);
  }

  /** The below-divider half: the scans agree on their best candidate, and
      on its distance once one is found. */
  lemma {:induction false} SentinelIrrelevantBelow(arena: Arena, s: seq<Handle>, n: nat, requested: Weight, low: nat, high: nat)
    requires InArena(arena, s) && n <= |s| && low <= high
    requires forall k :: 0 <= k < |s| ==> Distance(WeightOf(arena, s[k]), requested) < low
    ensures ScanBelow(arena, s, n, requested, low).best == ScanBelow(arena, s, n, requested, high).best
    ensures ScanBelow(arena, s, n, requested, low).best.Some? ==>
              ScanBelow(arena, s, n, requested, low) == ScanBelow(arena, s, n, requested, high)
    ensures ScanBelow(arena, s, n, requested, low).best.None? ==>
              ScanBelow(arena, s, n, requested, low).distance == low
              && ScanBelow(arena, s, n, requested, high).distance == high
  {
    if n > 0 {
      SentinelIrrelevantBelow(arena, s, n - 1, requested, low, high);
    }
  }

  /** The at-or-above half. */
  lemma {:induction false} SentinelIrrelevantAbove(arena: Arena, s: seq<Handle>, n: nat, requested: Weight, low: nat, high: nat)
    requires InArena(arena, s) && n <= |s| && low <= high
    requires forall k :: 0 <= k < |s| ==> Distance(WeightOf(arena, s[k]), requested) < low
    ensures ScanAbove(arena, s, n, requested, low).best == ScanAbove(arena, s, n, requested, high).best
    ensures ScanAbove(arena, s, n, requested, low).best.Some? ==>
              ScanAbove(arena, s, n, requested, low) == ScanAbove(arena, s, n, requested, high)
    ensures ScanAbove(arena, s, n, requested, low).best.None? ==>
              ScanAbove(arena, s, n, requested, low).distance == low
              && ScanAbove(arena, s, n, requested, high).distance == high
  {
    if n > 0 {
      SentinelIrrelevantAbove(arena, s, n - 1, requested, low, high);
    }
  }

  /** Where every candidate is nearer than 900, as with weights from 100 to
      900, the corrected choice is the one made as written. */
  lemma FixedAgreesInRange(arena: Arena, fonts: seq<Handle>, requested: Weight)
    requires InArena(arena, fonts)
    requires forall k :: 0 <= k < |fonts| ==> Distance(WeightOf(arena, fonts[k]), requested) < Sentinel
    ensures NarrowedByWeightFixed(arena, fonts, requested) == NarrowedByWeight(arena, fonts, requested)
  {
    var sorted := SortByWeight(arena, fonts);
    forall k | 0 <= k < |sorted| ensures Distance(WeightOf(arena, sorted[k]), requested) < Sentinel {
      assert sorted[k] in multiset(fonts);
      assert sorted[k] in fonts;
    }
    SentinelIrrelevant(arena, sorted, |sorted|, requested, Sentinel, NoSentinel);
  }

  /** narrowByWeight. fonts is taken by value, so the caller's vector is not
      reordered; the sort works on the copy. */
  method NarrowByWeight(arena: Arena, fonts: seq<Handle>, properties: FontProperties)
    returns (result: Option<Handle>)
    requires |fonts| > 0 && InArena(arena, fonts)
    ensures result == NarrowedByWeight(arena, fonts, properties.weight)
  {
    var sorted := SortByWeight(arena, fonts);
    var requested := properties.weight;

    for k := 0 to |sorted|
      invariant FirstOfWeight(arena, sorted[k..], requested) == FirstOfWeight(arena, sorted, requested)
    {
      FirstStep(arena, sorted, k, requested);
      if arena[sorted[k]].weight == requested {
        return Some(sorted[k]);
      }
    }

    var bestBelow: Option<Handle> := None;
    var bestBelowDistance: nat := Sentinel;
    var bestAbove: Option<Handle> := None;
    var bestAboveDistance: nat := Sentinel;
    var divider := if requested == 400 then 500 else if requested == 500 then 400 else requested;
    assert divider == Divider(requested);

    for k := 0 to |sorted|
      invariant Nearest(bestBelow, bestBelowDistance) == ScanBelow(arena, sorted, k, requested, Sentinel)
      invariant Nearest(bestAbove, bestAboveDistance) == ScanAbove(arena, sorted, k, requested, Sentinel)
    {
      var font := sorted[k];
      var weight := arena[font].weight;
      var distance := if weight < requested then requested - weight else weight - requested;
      if weight < divider {
        if distance <= bestBelowDistance {
          bestBelow := Some(font);
          bestBelowDistance := distance;
        }
      } else {
        if distance < bestAboveDistance {
          bestAbove := Some(font);
          bestAboveDistance := distance;
        }
      }
    }
    assert sorted[|sorted|..] == [];

    if bestBelow.Some? && bestAbove.Some? {
      result := if divider <= 500 then bestBelow else bestAbove;
    } else {
      result := if bestBelow.Some? then bestBelow else bestAbove;
    }
  }
}
