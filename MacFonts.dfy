// The macOS font manager's lookup tables (FontManagerMacos.cc): the generic
// family lists, the per-script fallback families, and how a CoreText
// descriptor's traits and style name become a FontStyle.
module MacFonts {
  import opened Fonts
  import opened Unicode

  /** The generic family lists, after the preferences
      font.name-list.*.x-western in Firefox. */
  const SerifFonts: seq<string> := ["Times", "Times New Roman"]
  const SansSerifFonts: seq<string> := ["Helvetica", "Arial"]
  const MonospaceFonts: seq<string> := ["Menlo"]
  const CursiveFonts: seq<string> := ["Apple Chancery"]
  const FantasyFonts: seq<string> := ["Papyrus"]

  predicate IsGenericKeyword(name: string) {
    name in {"serif", "sans-serif", "monospace", "cursive", "fantasy"}
  }

  /** getGenericList: exact, case-sensitive comparison with the five CSS
      generic keywords. */
  function GetGenericList(generic: string): (r: Option<seq<string>>)
    ensures r.Some? <==> IsGenericKeyword(generic)
    ensures generic == "serif" ==> r == Some(["Times", "Times New Roman"])
    ensures generic == "sans-serif" ==> r == Some(["Helvetica", "Arial"])
    ensures generic == "monospace" ==> r == Some(["Menlo"])
    ensures generic == "cursive" ==> r == Some(["Apple Chancery"])
    ensures generic == "fantasy" ==> r == Some(["Papyrus"])
  {
    if generic == "serif" then Some(SerifFonts)
    else if generic == "sans-serif" then Some(SansSerifFonts)
    else if generic == "monospace" then Some(MonospaceFonts)
    else if generic == "cursive" then Some(CursiveFonts)
    else if generic == "fantasy" then Some(FantasyFonts)
    else None
  }

  /** Upper-case or padded keywords are family names, not generics. */
  lemma GenericIsCaseSensitive()
    ensures GetGenericList("Serif").None? && GetGenericList(" serif").None?
    ensures GetGenericList("SANS-SERIF").None? && GetGenericList("sans serif").None?
  {
  }

  /** What one arm of the switch in populateFallbackFonts pushes: no
      family, one, or two. */
  datatype ScriptSpecific = NoFamily | OneFamily(first: string) | TwoFamilies(first: string, second: string)

  /** The last arm of the switch: SCRIPT_NONE and the scripts for which no
      commonly installed macOS font is known push nothing. */
  predicate NoKnownFont(script: RealScript) {
    match script
    case NoScript | Nushu | Tangut | AnatolianHieroglyphs | MasaramGondi | Soyombo
      | ZanabazarSquare | Dogra | GunjalaGondi | Makasar | Medefaidrin | Sogdian
      | OldSogdian | Elymaic | NyiakengPuachueHmong | Nandinagari | Chorasmian
      | DivesAkuru | KhitanSmallScript | Yezidi | CyproMinoan | OldUyghur | Tangsa
      | Toto | Vithkuqi | Kawi | NagMundari | Garay | GurungKhema | KiratRai | OlOnal
      | Signwriting | Sunuwar | Todhri | TuluTigalari => true
    case _ => false
  }

  /** The switch on the script. */
  function SwitchArm(script: Script): ScriptSpecific {
    match script
    case Common | Inherited => OneFamily("Lucida Grande")
    case Real(name) => if NoKnownFont(name) then NoFamily else KnownFontArm(name)
  }

  /** The arms of the switch that push a family or two. */
  function KnownFontArm(script: RealScript): ScriptSpecific {
    match script
    case Latin | Cyrillic | Greek => OneFamily("Lucida Grande")
    case Bopomofo | Han => TwoFamilies("Songti SC", "SimSun-ExtB")
    case Hiragana | Katakana => TwoFamilies("Hiragino Sans", "Hiragino Kaku Gothic ProN")
    case Hangul => TwoFamilies("Nanum Gothic", "Apple SD Gothic Neo")
    case Arabic => OneFamily("Geeza Pro")
    case Armenian => OneFamily("Mshtakan")
    case Bengali => OneFamily("Bangla Sangam MN")
    case Cherokee => OneFamily("Plantagenet Cherokee")
    case Coptic => OneFamily("Noto Sans Coptic")
    case Deseret => OneFamily("Baskerville")
    case Devanagari => OneFamily("Devanagari Sangam MN")
    case Ethiopic => OneFamily("Kefa")
    case Georgian => OneFamily("Helvetica")
    case Gothic => OneFamily("Noto Sans Gothic")
    case Gujarati => OneFamily("Gujarati Sangam MN")
    case Gurmukhi => OneFamily("Gurmukhi MN")
    case Hebrew => OneFamily("Lucida Grande")
    case Kannada => OneFamily("Kannada MN")
    case Khmer => OneFamily("Khmer MN")
    case Lao => OneFamily("Lao MN")
    case Malayalam => OneFamily("Malayalam Sangam MN")
    case Mongolian => OneFamily("Noto Sans Mongolian")
    case Myanmar => OneFamily("Myanmar MN")
    case Ogham => OneFamily("Noto Sans Ogham")
    case OldItalic => OneFamily("Noto Sans Old Italic")
    case Oriya => OneFamily("Oriya Sangam MN")
    case Runic => OneFamily("Noto Sans Runic")
    case Sinhala => OneFamily("Sinhala Sangam MN")
    case Syriac => OneFamily("Noto Sans Syriac")
    case Tamil => OneFamily("Tamil MN")
    case Telugu => OneFamily("Telugu MN")
    case Thaana => OneFamily("Noto Sans Thaana")
    case Thai => OneFamily("Thonburi")
    case Tibetan => OneFamily("Kailasa")
    case CanadianAboriginal => OneFamily("Euphemia UCAS")
    case Yi => TwoFamilies("Noto Sans Yi", "STHeiti")
    case Tagalog => OneFamily("Noto Sans Tagalog")
    case Hanunoo => OneFamily("Noto Sans Hanunoo")
    case Buhid => OneFamily("Noto Sans Buhid")
    case Tagbanwa => OneFamily("Noto Sans Tagbanwa")
    case Braille => OneFamily("Apple Braille")
    case Cypriot => OneFamily("Noto Sans Cypriot")
    case Limbu => OneFamily("Noto Sans Limbu")
    case LinearB => OneFamily("Noto Sans Linear B")
    case Osmanya => OneFamily("Noto Sans Osmanya")
    case Shavian => OneFamily("Noto Sans Shavian")
    case TaiLe => OneFamily("Noto Sans Tai Le")
    case Ugaritic => OneFamily("Noto Sans Ugaritic")
    case Buginese => OneFamily("Noto Sans Buginese")
    case Glagolitic => OneFamily("Noto Sans Glagolitic")
    case Kharoshthi => OneFamily("Noto Sans Kharoshthi")
    case SylotiNagri => OneFamily("Noto Sans Syloti Nagri")
    case NewTaiLue => OneFamily("Noto Sans New Tai Lue")
    case Tifinagh => OneFamily("Noto Sans Tifinagh")
    case OldPersian => OneFamily("Noto Sans Old Persian")
    case Balinese => OneFamily("Noto Sans Balinese")
    case Batak => OneFamily("Noto Sans Batak")
    case Brahmi => OneFamily("Noto Sans Brahmi")
    case Cham => OneFamily("Noto Sans Cham")
    case EgyptianHieroglyphs => OneFamily("Noto Sans Egyptian Hieroglyphs")
    case PahawhHmong => OneFamily("Noto Sans Pahawh Hmong")
    case OldHungarian => OneFamily("Noto Sans Old Hungarian")
    case Javanese => OneFamily("Noto Sans Javanese")
    case KayahLi => OneFamily("Noto Sans Kayah Li")
    case Lepcha => OneFamily("Noto Sans Lepcha")
    case LinearA => OneFamily("Noto Sans Linear A")
    case Mandaic => OneFamily("Noto Sans Mandaic")
    case Nko => OneFamily("Noto Sans NKo")
    case OldTurkic => OneFamily("Noto Sans Old Turkic")
    case OldPermic => OneFamily("Noto Sans Old Permic")
    case PhagsPa => OneFamily("Noto Sans PhagsPa")
    case Phoenician => OneFamily("Noto Sans Phoenician")
    case Miao => OneFamily("Noto Sans Miao")
    case Vai => OneFamily("Noto Sans Vai")
    case Cuneiform => OneFamily("Noto Sans Cuneiform")
    case Carian => OneFamily("Noto Sans Carian")
    case TaiTham => OneFamily("Noto Sans Tai Tham")
    case Lycian => OneFamily("Noto Sans Lycian")
    case Lydian => OneFamily("Noto Sans Lydian")
    case OlChiki => OneFamily("Noto Sans Ol Chiki")
    case Rejang => OneFamily("Noto Sans Rejang")
    case Saurashtra => OneFamily("Noto Sans Saurashtra")
    case Sundanese => OneFamily("Noto Sans Sundanese")
    case MeeteiMayek => OneFamily("Noto Sans Meetei Mayek")
    case ImperialAramaic => OneFamily("Noto Sans Imperial Aramaic")
    case Avestan => OneFamily("Noto Sans Avestan")
    case Chakma => OneFamily("Noto Sans Chakma")
    case Kaithi => OneFamily("Noto Sans Kaithi")
    case Manichaean => OneFamily("Noto Sans Manichaean")
    case InscriptionalPahlavi => OneFamily("Noto Sans Inscriptional Pahlavi")
    case PsalterPahlavi => OneFamily("Noto Sans Psalter Pahlavi")
    case InscriptionalParthian => OneFamily("Noto Sans Inscriptional Parthian")
    case Samaritan => OneFamily("Noto Sans Samaritan")
    case TaiViet => OneFamily("Noto Sans Tai Viet")
    case Bamum => OneFamily("Noto Sans Bamum")
    case Lisu => OneFamily("Noto Sans Lisu")
    case OldSouthArabian => OneFamily("Noto Sans Old South Arabian")
    case BassaVah => OneFamily("Noto Sans Bassa Vah")
    case Duployan => OneFamily("Noto Sans Duployan")
    case Elbasan => OneFamily("Noto Sans Elbasan")
    case Grantha => OneFamily("Noto Sans Grantha")
    case MendeKikakui => OneFamily("Noto Sans Mende Kikakui")
    case MeroiticCursive | MeroiticHieroglyphs => OneFamily("Noto Sans Meroitic")
    case OldNorthArabian => OneFamily("Noto Sans Old North Arabian")
    case Nabataean => OneFamily("Noto Sans Nabataean")
    case Palmyrene => OneFamily("Noto Sans Palmyrene")
    case Khudawadi => OneFamily("Noto Sans Khudawadi")
    case WarangCiti => OneFamily("Noto Sans Warang Citi")
    case Mro => OneFamily("Noto Sans Mro")
    case Sharada => OneFamily("Noto Sans Sharada")
    case SoraSompeng => OneFamily("Noto Sans Sora Sompeng")
    case Takri => OneFamily("Noto Sans Takri")
    case Khojki => OneFamily("Noto Sans Khojki")
    case Tirhuta => OneFamily("Noto Sans Tirhuta")
    case CaucasianAlbanian => OneFamily("Noto Sans Caucasian Albanian")
    case Mahajani => OneFamily("Noto Sans Mahajani")
    case Ahom => OneFamily("Noto Serif Ahom")
    case Hatran => OneFamily("Noto Sans Hatran")
    case Modi => OneFamily("Noto Sans Modi")
    case Multani => OneFamily("Noto Sans Multani")
    case PauCinHau => OneFamily("Noto Sans Pau Cin Hau")
    case Siddham => OneFamily("Noto Sans Siddham")
    case Adlam => OneFamily("Noto Sans Adlam")
    case Bhaiksuki => OneFamily("Noto Sans Bhaiksuki")
    case Marchen => OneFamily("Noto Sans Marchen")
    case Newa => OneFamily("Noto Sans Newa")
    case Osage => OneFamily("Noto Sans Osage")
    case HanifiRohingya => OneFamily("Noto Sans Hanifi Rohingya")
    case Wancho => OneFamily("Noto Sans Wancho")
    case _ => NoFamily
  }

  /** The script-specific families populateFallbackFonts appends before the
      common tail. */
  function ScriptFamilies(script: Script): (r: seq<string>)
    ensures |r| <= 2
  {
    match SwitchArm(script)
    case NoFamily => []
    case OneFamily(first) => [first]
    case TwoFamilies(first, second) => [first, second]
  }

  /** The families every call ends with, in order. */
  const FallbackTail: seq<string> := [
    "Apple Color Emoji", "Zapf Dingbats", "Geneva", "STIXGeneral", "Apple Symbols",
    "Hiragino Sans", "Hiragino Kaku Gothic ProN", "Arial Unicode MS"]

  /** populateFallbackFonts: appends to the caller's list, first the
      script's own families and then the common tail. */
  method PopulateFallbackFonts(families: seq<string>, script: Script) returns (result: seq<string>)
    ensures result == families + ScriptFamilies(script) + FallbackTail
    ensures result[..|families|] == families
    ensures |families| + 8 <= |result| <= |families| + 10
  {
    result := families;
    var specific := ScriptFamilies(script);
    for k := 0 to |specific|
      invariant result == families + specific[..k]
    {
      assert specific[..k + 1] == specific[..k] + [specific[k]];
      result := result + [specific[k]];
    }
    assert specific[..|specific|] == specific;
    result := AppendTail(result);
  }

  /** The eight pushes every call ends with. */
  method AppendTail(families: seq<string>) returns (result: seq<string>)
    ensures result == families + FallbackTail
  {
    result := families;
    result := result + ["Apple Color Emoji"];
    result := result + ["Zapf Dingbats"];
    result := result + ["Geneva"];
    result := result + ["STIXGeneral"];
    result := result + ["Apple Symbols"];
    result := result + ["Hiragino Sans"];
    result := result + ["Hiragino Kaku Gothic ProN"];
    result := result + ["Arial Unicode MS"];
  }

  /** What a call appends for a script, as a function of the script alone. */
  function FallbackFamilies(script: Script): (r: seq<string>)
    ensures 8 <= |r| <= 10
    ensures r[|r| - 8..] == FallbackTail
  {
    ScriptFamilies(script) + FallbackTail
  }

  /** Scripts whose characters usually take their surroundings' script, and
      the Latin, Cyrillic and Greek scripts, add Lucida Grande alone. */
  lemma WesternScriptsAddLucida(script: Script)
    requires script == Common || script == Inherited || script == Real(Latin)
             || script == Real(Cyrillic) || script == Real(Greek)
    ensures FallbackFamilies(script) == ["Lucida Grande"] + FallbackTail
  {
    assert ScriptFamilies(script) == ["Lucida Grande"];
  }

  lemma HanAddsSongti(script: Script)
    requires script == Real(Han) || script == Real(Bopomofo)
    ensures FallbackFamilies(script) == ["Songti SC", "SimSun-ExtB"] + FallbackTail
  {
    assert ScriptFamilies(script) == ["Songti SC", "SimSun-ExtB"];
  }

  /** No duplicates are removed: kana scripts list Hiragino Sans twice. */
  lemma KanaRepeatsHiragino(script: Script)
    requires script == Real(Hiragana) || script == Real(Katakana)
    ensures FallbackFamilies(script)[0] == "Hiragino Sans" == FallbackFamilies(script)[7]
  {
    assert ScriptFamilies(script) == ["Hiragino Sans", "Hiragino Kaku Gothic ProN"];
  }

  /** SCRIPT_NONE and the scripts without a known macOS font add only the
      tail. */
  lemma UnknownScriptsAddOnlyTail(script: RealScript)
    requires NoKnownFont(script)
    ensures FallbackFamilies(Real(script)) == FallbackTail
  {
  }

  /** kCTFontItalicTrait, bit 0 of the symbolic traits. */
  const ItalicTrait: bv32 := 1

  /** MAX_STYLE_LENGTH: the style name is copied into a buffer of this many
      bytes, NUL included. */
  const MaxStyleLength: nat := 128

  /** The part of the style name that fits in the buffer. */
  function StyleBuffer(styleName: string): (r: string)
    ensures |r| <= MaxStyleLength - 1 && |r| <= |styleName|
    ensures r == styleName[..|r|]
    ensures |styleName| < MaxStyleLength ==> r == styleName
  {
    if |styleName| < MaxStyleLength then styleName else styleName[..MaxStyleLength - 1]
  }

  predicate OccursAt(text: string, pattern: string, i: nat) {
    i + |pattern| <= |text| && text[i..i + |pattern|] == pattern
  }

  /** strstr finds the pattern. */
  predicate Contains(text: string, pattern: string) {
    exists i: nat | i <= |text| :: OccursAt(text, pattern, i)
  }

  /** The style part of create_font_descriptor: the italic trait decides
      Italic; otherwise an "Oblique" in the buffered style name decides
      Oblique; otherwise the style stays Normal. */
  function ClassifyStyle(symbolicTraits: bv32, styleName: string): (style: FontStyle)
    ensures style == Italic <==> symbolicTraits & ItalicTrait != 0
    ensures style == Oblique <==> symbolicTraits & ItalicTrait == 0 && Contains(StyleBuffer(styleName), "Oblique")
  {
    if symbolicTraits & ItalicTrait != 0 then Italic
    else if Contains(StyleBuffer(styleName), "Oblique") then Oblique
    else Normal
  }

  /** The name alone never makes a face italic. */
  lemma ItalicNameIsNormal()
    ensures ClassifyStyle(0, "Italic") == Normal
  {
  }

  lemma BoldObliqueIsOblique()
    ensures ClassifyStyle(0, "Bold Oblique") == Oblique
  {
    assert StyleBuffer("Bold Oblique") == "Bold Oblique";
    assert OccursAt("Bold Oblique", "Oblique", 5);
  }

  /** An "Oblique" that starts past the buffer is not seen. */
  lemma {:induction false} LateObliqueIgnored(padding: string)
    requires |padding| >= MaxStyleLength - 1
    requires !Contains(padding[..MaxStyleLength - 1], "Oblique")
    ensures ClassifyStyle(0, padding + "Oblique") == Normal
  {
    assert StyleBuffer(padding + "Oblique") == padding[..MaxStyleLength - 1];
  }
}
