// Family-name comparison (compareFamilyNames in FontManager.cc): both names
// are trimmed of leading and trailing white space, then compared character
// by character after lower-casing.
module FamilyNames {

  /** std::isspace in the "C" locale. */
  predicate IsSpace(c: char) {
    c == ' ' || c == '\t' || c == '\n' || c == '\U{0B}' || c == '\U{0C}' || c == '\r'
  }

  /** std::tolower in the "C" locale. */
  function ToLower(c: char): char {
    if 'A' <= c <= 'Z' then (c as int + 32) as char else c
  }

  function Lower(s: string): (r: string)
    ensures |r| == |s|
    ensures forall i :: 0 <= i < |s| ==> r[i] == ToLower(s[i])
  {
    seq(|s|, i requires 0 <= i < |s| => ToLower(s[i]))
  }

  /** Two characters that differ at most in ASCII case: equal, or an
      upper-case letter and its lower-case form. */
  predicate SameLetter(x: char, y: char) {
    || x == y
    || ('A' <= x <= 'Z' && y as int == x as int + 32)
    || ('A' <= y <= 'Z' && x as int == y as int + 32)
  }

  /** Lower-casing identifies exactly the characters that differ in ASCII
      case; no other character changes. */
  lemma ToLowerIdentifies(x: char, y: char)
    ensures ToLower(x) == ToLower(y) <==> SameLetter(x, y)
    ensures !('A' <= x <= 'Z') ==> ToLower(x) == x
  {
  }

  /** Lowering twice is lowering once. */
  lemma LowerIdempotent(s: string)
    ensures Lower(Lower(s)) == Lower(s)
  {
    assert forall i :: 0 <= i < |s| ==> Lower(Lower(s))[i] == Lower(s)[i];
  }

  /** Two strings lower to the same string exactly when they have the same
      length and differ at most in the ASCII case of their letters. */
  lemma LowerEqualIff(a: string, b: string)
    ensures Lower(a) == Lower(b) <==> |a| == |b| && forall i :: 0 <= i < |a| ==> SameLetter(a[i], b[i])
  {
    if |a| == |b| {
      forall i | 0 <= i < |a|
        ensures Lower(a)[i] == Lower(b)[i] <==> SameLetter(a[i], b[i])
      {
        ToLowerIdentifies(a[i], b[i]);
      }
      if forall i :: 0 <= i < |a| ==> SameLetter(a[i], b[i]) {
        assert forall i :: 0 <= i < |a| ==> Lower(a)[i] == Lower(b)[i];
      }
    }
    if Lower(a) == Lower(b) {
      assert |a| == |b|;
    }
  }

  predicate AllSpace(s: string) {
    forall i :: 0 <= i < |s| ==> IsSpace(s[i])
  }

  /** s without its leading white space. */
  function TrimStart(s: string): (r: string)
    ensures r == [] || !IsSpace(r[0])
  {
    if s != [] && IsSpace(s[0]) then TrimStart(s[1..]) else s
  }

  /** s without its trailing white space. */
  function TrimEnd(s: string): (r: string)
    ensures r == [] || !IsSpace(r[|r| - 1])
  {
    if s != [] && IsSpace(s[|s| - 1]) then TrimEnd(s[..|s| - 1]) else s
  }

  function Trim(s: string): string {
    TrimEnd(TrimStart(s))
  }

  /** What compareFamilyNames decides. */
  predicate SameFamily(a: string, b: string) {
    Lower(Trim(a)) == Lower(Trim(b))
  }

  /** compareFamilyNames: the two trim loops per name, the length test and
      the character loop. */
  method CompareFamilyNames(str1: string, str2: string) returns (same: bool)
    ensures same == SameFamily(str1, str2)
    ensures |Trim(str1)| != |Trim(str2)| ==> !same
  {
    var start1, end1 := TrimBounds(str1);
    var start2, end2 := TrimBounds(str2);
    if end1 - start1 != end2 - start2 {
      return false;
    }
    ghost var t1, t2 := Trim(str1), Trim(str2);
    var i := 0;
    while i < end1 - start1
      invariant 0 <= i <= end1 - start1
      invariant Lower(t1)[..i] == Lower(t2)[..i]
    {
      if ToLower(str1[start1 + i]) != ToLower(str2[start2 + i]) {
        assert Lower(t1)[i] != Lower(t2)[i];
        return false;
      }
      assert Lower(t1)[..i + 1] == Lower(t1)[..i] + [ToLower(str1[start1 + i])];
      assert Lower(t2)[..i + 1] == Lower(t2)[..i] + [ToLower(str2[start2 + i])];
      i := i + 1;
    }
    assert Lower(t1) == Lower(t1)[..i] && Lower(t2) == Lower(t2)[..i];
    return true;
  }

  /** The two trimming loops of compareFamilyNames for one name: start moves
      right over white space, then end moves left, never below start. */
  method TrimBounds(s: string) returns (start: nat, end: nat)
    ensures start <= end <= |s| && s[start..end] == Trim(s)
  {
    start := SkipLeading(s);
    end := SkipTrailing(s, start);
  }

  /** The first loop: move start right while it is on white space. */
  method SkipLeading(s: string) returns (start: nat)
    ensures start <= |s| && s[start..] == TrimStart(s)
  {
    start := 0;
    while start < |s| && IsSpace(s[start])
      invariant start <= |s|
      invariant TrimStart(s[start..]) == TrimStart(s)
    {
      assert s[start..][1..] == s[start + 1..];
      start := start + 1;
    }
  }

  /** The second loop: move end left while the unit before it is white
      space, never below start. */
  method SkipTrailing(s: string, start: nat) returns (end: nat)
    requires start <= |s|
    ensures start <= end <= |s| && s[start..end] == TrimEnd(s[start..])
  {
    end := |s|;
    assert s[start..end] == s[start..];
    while end > start && IsSpace(s[end - 1])
      invariant start <= end <= |s|
      invariant TrimEnd(s[start..end]) == TrimEnd(s[start..])
    {
      assert s[start..end][..end - 1 - start] == s[start..end - 1];
      end := end - 1;
    }
  }

  /** Only white space at the two ends is ignored: padding a name with white
      space on either side does not change which names it matches. */
  lemma {:induction false} PaddingIgnored(pre: string, name: string, post: string, other: string)
    requires AllSpace(pre) && AllSpace(post)
    ensures Trim(pre + name + post) == Trim(name)
    ensures SameFamily(pre + name + post, other) == SameFamily(name, other)
  {
    assert pre + name + post == pre + (name + post);
    TrimStartSpaces(pre, name + post);
    TrimStartAppend(name, post);
    if AllSpace(name) {
      AllSpaceTrims(post);
      AllSpaceTrims(name);
    } else {
      TrimEndSpaces(TrimStart(name), post);
    }
  }

  lemma {:induction false} TrimStartSpaces(pre: string, s: string)
    requires AllSpace(pre)
    ensures TrimStart(pre + s) == TrimStart(s)
  {
    if pre == [] {
      assert pre + s == s;
    } else {
      assert IsSpace((pre + s)[0]);
      assert (pre + s)[1..] == pre[1..] + s;
      TrimStartSpaces(pre[1..], s);
    }
  }

  lemma {:induction false} TrimEndSpaces(s: string, post: string)
    requires AllSpace(post)
    ensures TrimEnd(s + post) == TrimEnd(s)
  {
    if post == [] {
      assert s + post == s;
    } else {
      assert IsSpace((s + post)[|s + post| - 1]);
      assert (s + post)[..|s + post| - 1] == s + post[..|post| - 1];
      TrimEndSpaces(s, post[..|post| - 1]);
    }
  }

  lemma {:induction false} TrimStartAppend(name: string, post: string)
    ensures TrimStart(name + post) == if AllSpace(name) then TrimStart(post) else TrimStart(name) + post
  {
    if name == [] {
      assert name + post == post;
    } else if IsSpace(name[0]) {
      assert (name + post)[1..] == name[1..] + post;
      TrimStartAppend(name[1..], post);
      assert AllSpace(name) == AllSpace(name[1..]);
    } else {
      assert (name + post)[0] == name[0];
    }
  }

  lemma AllSpaceTrims(s: string)
    requires AllSpace(s)
    ensures TrimStart(s) == [] && Trim(s) == []
  {
  }

  /** The comparison is an equivalence on names. */
  lemma SameFamilyEquivalence(a: string, b: string, c: string)
    ensures SameFamily(a, a)
    ensures SameFamily(a, b) == SameFamily(b, a)
    ensures SameFamily(a, b) && SameFamily(b, c) ==> SameFamily(a, c)
  {
  }

  /** "  Arial " matches "arial". */
  lemma PaddedArialMatches()
    ensures SameFamily("  Arial ", "arial")
  {
    assert AllSpace("  ") && AllSpace(" ");
    assert "  " + "Arial" + " " == "  Arial ";
    PaddingIgnored("  ", "Arial", " ", "arial");
    NoPadding("Arial");
    NoPadding("arial");
    assert Lower("Arial") == "arial" == Lower("arial");
  }

  lemma NoPadding(s: string)
    requires s != [] && !IsSpace(s[0]) && !IsSpace(s[|s| - 1])
    ensures Trim(s) == s
  {
  }

  /** White space inside a name is significant: "Ari al" is not "Arial". */
  lemma InteriorSpaceMatters()
    ensures !SameFamily("Ari al", "Arial")
  {
    NoPadding("Ari al");
    NoPadding("Arial");
    assert |Lower("Ari al")| != |Lower("Arial")|;
  }
}
