// The paired-punctuation table of the script itemizer and get_pair_index,
// its binary search. Entries come in (opener, closer) pairs, sorted by code
// point, so an even index is an opener and the closer at an odd index i is
// matched by the opener at i - 1.
module PairedChars {
  import opened Unicode

  /** ASCII brackets, guillemets, Tibetan and Ogham marks. */
  const Western: seq<CodePoint> := [
    0x0028, 0x0029,
    0x003c, 0x003e,
    0x005b, 0x005d,
    0x007b, 0x007d,
    0x00ab, 0x00bb,
    0x0f3a, 0x0f3b,
    0x0f3c, 0x0f3d,
    0x169b, 0x169c
  ]

  /** Quotation marks and brackets of General Punctuation, superscripts and subscripts. */
  const GeneralPunctuation: seq<CodePoint> := [
    0x2018, 0x2019,
    0x201c, 0x201d,
    0x2039, 0x203a,
    0x2045, 0x2046,
    0x207d, 0x207e,
    0x208d, 0x208e
  ]

  /** Mathematical brackets. */
  const MathBrackets: seq<CodePoint> := [
    0x27e6, 0x27e7,
    0x27e8, 0x27e9,
    0x27ea, 0x27eb,
    0x27ec, 0x27ed,
    0x27ee, 0x27ef,
    0x2983, 0x2984,
    0x2985, 0x2986,
    0x2987, 0x2988,
    0x2989, 0x298a,
    0x298b, 0x298c,
    0x298d, 0x298e,
    0x298f, 0x2990,
    0x2991, 0x2992,
    0x2993, 0x2994,
    0x2995, 0x2996,
    0x2997, 0x2998,
    0x29fc, 0x29fd
  ]

  /** Supplemental Punctuation brackets. */
  const SupplementalPunctuation: seq<CodePoint> := [
    0x2e02, 0x2e03,
    0x2e04, 0x2e05,
    0x2e09, 0x2e0a,
    0x2e0c, 0x2e0d,
    0x2e1c, 0x2e1d,
    0x2e20, 0x2e21,
    0x2e22, 0x2e23,
    0x2e24, 0x2e25,
    0x2e26, 0x2e27,
    0x2e28, 0x2e29
  ]

  /** CJK brackets, small form variants and fullwidth forms. */
  const CjkAndFullwidth: seq<CodePoint> := [
    0x3008, 0x3009,
    0x300a, 0x300b,
    0x300c, 0x300d,
    0x300e, 0x300f,
    0x3010, 0x3011,
    0x3014, 0x3015,
    0x3016, 0x3017,
    0x3018, 0x3019,
    0x301a, 0x301b,
    0xfe59, 0xfe5a,
    0xfe5b, 0xfe5c,
    0xfe5d, 0xfe5e,
    0xff08, 0xff09,
    0xff3b, 0xff3d,
    0xff5b, 0xff5d,
    0xff5f, 0xff60,
    0xff62, 0xff63
  ]

  /** paired_chars: the groups above, one after another. */
  const PairedChars: seq<CodePoint> :=
    Western + GeneralPunctuation + MathBrackets + SupplementalPunctuation + CjkAndFullwidth

  /** Each entry from position i on is below the next one. */
  predicate AscendingFrom(s: seq<CodePoint>, i: nat)
    decreases |s| - i
  {
    i + 1 >= |s| || (s[i] < s[i + 1] && AscendingFrom(s, i + 1))
  }

  predicate StrictlyAscending(s: seq<CodePoint>) {
    forall i, j :: 0 <= i < j < |s| ==> s[i] < s[j]
  }

  lemma {:induction false} AscendingFromOrders(s: seq<CodePoint>, i: nat)
    requires AscendingFrom(s, i)
    ensures forall j, k :: i <= j < k < |s| ==> s[j] < s[k]
    decreases |s| - i
  {
    if i + 1 < |s| {
      AscendingFromOrders(s, i + 1);
    }
  }

  lemma {:induction false} AscendingShift(a: seq<CodePoint>, b: seq<CodePoint>, j: nat)
    requires AscendingFrom(b, j)
    ensures AscendingFrom(a + b, |a| + j)
    decreases |b| - j
  {
    if j + 1 < |b| {
      AscendingShift(a, b, j + 1);
      assert (a + b)[|a| + j] == b[j] && (a + b)[|a| + j + 1] == b[j + 1];
    }
  }

  lemma {:induction false} AscendingJoinFrom(a: seq<CodePoint>, b: seq<CodePoint>, i: nat)
    requires i < |a| && b != []
    requires AscendingFrom(a, i) && AscendingFrom(b, 0) && a[|a| - 1] < b[0]
    ensures AscendingFrom(a + b, i)
    decreases |a| - i
  {
    if i + 1 < |a| {
      AscendingJoinFrom(a, b, i + 1);
      assert (a + b)[i] == a[i] && (a + b)[i + 1] == a[i + 1];
    } else {
      AscendingShift(a, b, 0);
      assert (a + b)[i] == a[i] && (a + b)[i + 1] == b[0];
    }
  }

  /** Two ascending runs, the first ending below where the second starts. */
  lemma AscendingJoin(a: seq<CodePoint>, b: seq<CodePoint>)
    requires a != [] && b != []
    requires AscendingFrom(a, 0) && AscendingFrom(b, 0) && a[|a| - 1] < b[0]
    ensures AscendingFrom(a + b, 0) && (a + b)[|a + b| - 1] == b[|b| - 1]
  {
    AscendingJoinFrom(a, b, 0);
  }

  /** The table is strictly ascending and made of whole pairs, which is what
      the binary search and the opener/closer arithmetic rely on. */
  lemma TableAscending()
    ensures |PairedChars| == 116 && |PairedChars| % 2 == 0
    ensures StrictlyAscending(PairedChars)
  {
    WesternAscending();
    GeneralPunctuationAscending();
    MathBracketsAscending();
    SupplementalPunctuationAscending();
    CjkAndFullwidthAscending();
    AscendingJoin(Western, GeneralPunctuation);
    AscendingJoin(Western + GeneralPunctuation, MathBrackets);
    AscendingJoin(Western + GeneralPunctuation + MathBrackets, SupplementalPunctuation);
    AscendingJoin(Western + GeneralPunctuation + MathBrackets + SupplementalPunctuation, CjkAndFullwidth);
    AscendingFromOrders(PairedChars, 0);
  }

  lemma WesternAscending()
    ensures AscendingFrom(Western, 0)
  {
    assert AscendingFrom(Western, 15);
    assert AscendingFrom(Western, 12);
    assert AscendingFrom(Western, 9);
    assert AscendingFrom(Western, 6);
    assert AscendingFrom(Western, 3);
    assert AscendingFrom(Western, 0);
  }

  lemma GeneralPunctuationAscending()
    ensures AscendingFrom(GeneralPunctuation, 0)
  {
    assert AscendingFrom(GeneralPunctuation, 11);
    assert AscendingFrom(GeneralPunctuation, 8);
    assert AscendingFrom(GeneralPunctuation, 5);
    assert AscendingFrom(GeneralPunctuation, 2);
    assert AscendingFrom(GeneralPunctuation, 0);
  }

  lemma MathBracketsAscending()
    ensures AscendingFrom(MathBrackets, 0)
  {
    assert AscendingFrom(MathBrackets, 33);
    assert AscendingFrom(MathBrackets, 30);
    assert AscendingFrom(MathBrackets, 27);
    assert AscendingFrom(MathBrackets, 24);
    assert AscendingFrom(MathBrackets, 21);
    assert AscendingFrom(MathBrackets, 18);
    assert AscendingFrom(MathBrackets, 15);
    assert AscendingFrom(MathBrackets, 12);
    assert AscendingFrom(MathBrackets, 9);
    assert AscendingFrom(MathBrackets, 6);
    assert AscendingFrom(MathBrackets, 3);
    assert AscendingFrom(MathBrackets, 0);
  }

  lemma SupplementalPunctuationAscending()
    ensures AscendingFrom(SupplementalPunctuation, 0)
  {
    assert AscendingFrom(SupplementalPunctuation, 19);
    assert AscendingFrom(SupplementalPunctuation, 16);
    assert AscendingFrom(SupplementalPunctuation, 13);
    assert AscendingFrom(SupplementalPunctuation, 10);
    assert AscendingFrom(SupplementalPunctuation, 7);
    assert AscendingFrom(SupplementalPunctuation, 4);
    assert AscendingFrom(SupplementalPunctuation, 1);
    assert AscendingFrom(SupplementalPunctuation, 0);
  }

  lemma CjkAndFullwidthAscending()
    ensures AscendingFrom(CjkAndFullwidth, 0)
  {
    assert AscendingFrom(CjkAndFullwidth, 33);
    assert AscendingFrom(CjkAndFullwidth, 30);
    assert AscendingFrom(CjkAndFullwidth, 27);
    assert AscendingFrom(CjkAndFullwidth, 24);
    assert AscendingFrom(CjkAndFullwidth, 21);
    assert AscendingFrom(CjkAndFullwidth, 18);
    assert AscendingFrom(CjkAndFullwidth, 15);
    assert AscendingFrom(CjkAndFullwidth, 12);
    assert AscendingFrom(CjkAndFullwidth, 9);
    assert AscendingFrom(CjkAndFullwidth, 6);
    assert AscendingFrom(CjkAndFullwidth, 3);
    assert AscendingFrom(CjkAndFullwidth, 0);
  }

  /** The reference definition: the position of ch found by a walk from
      position i on, or -1. */
  function IndexFrom(s: seq<CodePoint>, ch: CodePoint, i: nat): (r: int)
    requires i <= |s|
    ensures r == -1 || (i <= r < |s| && s[r] == ch)
    ensures r == -1 <==> forall k :: i <= k < |s| ==> s[k] != ch
    decreases |s| - i
  {
    if i == |s| then -1
    else if s[i] == ch then i
    else IndexFrom(s, ch, i + 1)
  }

  /** get_pair_index: the position of ch in the table, or -1 when ch is not
      a paired character. */
  method GetPairIndex(ch: CodePoint) returns (index: int)
    ensures index == IndexFrom(PairedChars, ch, 0)
    ensures index == -1 <==> ch !in PairedChars
    ensures index != -1 ==> 0 <= index < |PairedChars| && PairedChars[index] == ch
    ensures index >= 0 && !IsOpener(index) <==> IsCloserChar(ch)
  {
    TableAscending();
    index := BinarySearch(PairedChars, ch);
  }

  /** The loop of get_pair_index, over any strictly ascending table. */
  method BinarySearch(table: seq<CodePoint>, ch: CodePoint) returns (index: int)
    requires StrictlyAscending(table)
    ensures index == IndexFrom(table, ch, 0)
  {
    var lower := 0;
    var upper := |table| - 1;
    while lower <= upper
      invariant 0 <= lower <= upper + 1 <= |table|
      invariant forall k :: 0 <= k < lower ==> table[k] < ch
      invariant forall k :: upper < k < |table| ==> ch < table[k]
      decreases upper - lower
    {
      var mid := (lower + upper) / 2;
      if ch < table[mid] {
        upper := mid - 1;
      } else if ch > table[mid] {
        lower := mid + 1;
      } else {
        FoundIsFirst(table, ch, mid);
        return mid;
      }
    }
    return -1;
  }

  /** In a strictly ascending table the walk finds the one position holding
      ch. */
  lemma FoundIsFirst(s: seq<CodePoint>, ch: CodePoint, at: nat)
    requires StrictlyAscending(s) && at < |s| && s[at] == ch
    ensures IndexFrom(s, ch, 0) == at
  {
    var r := IndexFrom(s, ch, 0);
    assert r != -1;
    assert s[r] == s[at];
  }

  /** pair_index & 1 == 0: an opener. */
  predicate IsOpener(index: nat) {
    index % 2 == 0
  }

  /** pair_index & ~1, for a non-negative index. */
  function OpenerOf(index: nat): (r: nat)
    ensures IsOpener(r) && r <= index < r + 2
  {
    index - index % 2
  }

  /** The opener that a closer in the table is matched with sits just before
      it and is a smaller code point; an opener is its own opener. */
  lemma CloserMatchesOpener(index: nat)
    requires index < |PairedChars|
    ensures IsOpener(index) ==> OpenerOf(index) == index
    ensures !IsOpener(index) ==> OpenerOf(index) == index - 1
                                 && PairedChars[OpenerOf(index)] < PairedChars[index]
  {
    TableAscending();
  }

  /** A closing bracket: a code point at an odd position of the table. */
  predicate IsCloserChar(ch: CodePoint) {
    var i := IndexFrom(PairedChars, ch, 0);
    i >= 0 && !IsOpener(i)
  }
}
