// The script codes of unicode.h, which is not part of this model. Only the
// enumeration is needed: the code-point-to-script table behind get_script is
// passed to the itemizer as an uninterpreted function.
module Unicode {

  /** script_t: the two pseudo-scripts Common and Inherited, which take the
      script of their surroundings, and every other value of the
      enumeration. */
  datatype Script = Common | Inherited | Real(name: RealScript)

  /** The values of script_t other than SCRIPT_COMMON and SCRIPT_INHERITED.
      NoScript stands for SCRIPT_NONE. */
  datatype RealScript =
      Latin | Cyrillic | Greek | Bopomofo | Han | Hiragana
    | Katakana | Hangul | Arabic | Armenian | Bengali | Cherokee | Coptic | Deseret
    | Devanagari | Ethiopic | Georgian | Gothic | Gujarati | Gurmukhi | Hebrew
    | Kannada | Khmer | Lao | Malayalam | Mongolian | Myanmar | Ogham | OldItalic
    | Oriya | Runic | Sinhala | Syriac | Tamil | Telugu | Thaana | Thai | Tibetan
    | CanadianAboriginal | Yi | Tagalog | Hanunoo | Buhid | Tagbanwa | Braille
    | Cypriot | Limbu | LinearB | Osmanya | Shavian | TaiLe | Ugaritic | Buginese
    | Glagolitic | Kharoshthi | SylotiNagri | NewTaiLue | Tifinagh | OldPersian
    | Balinese | Batak | Brahmi | Cham | EgyptianHieroglyphs | PahawhHmong
    | OldHungarian | Javanese | KayahLi | Lepcha | LinearA | Mandaic | Nko | OldTurkic
    | OldPermic | PhagsPa | Phoenician | Miao | Vai | Cuneiform | Carian | TaiTham
    | Lycian | Lydian | OlChiki | Rejang | Saurashtra | Sundanese | MeeteiMayek
    | ImperialAramaic | Avestan | Chakma | Kaithi | Manichaean | InscriptionalPahlavi
    | PsalterPahlavi | InscriptionalParthian | Samaritan | TaiViet | Bamum | Lisu
    | OldSouthArabian | BassaVah | Duployan | Elbasan | Grantha | MendeKikakui
    | MeroiticCursive | MeroiticHieroglyphs | OldNorthArabian | Nabataean | Palmyrene
    | Khudawadi | WarangCiti | Mro | Sharada | SoraSompeng | Takri | Khojki | Tirhuta
    | CaucasianAlbanian | Mahajani | Ahom | Hatran | Modi | Multani | PauCinHau
    | Siddham | Adlam | Bhaiksuki | Marchen | Newa | Osage | HanifiRohingya | Wancho
    | NoScript | Nushu | Tangut | AnatolianHieroglyphs | MasaramGondi | Soyombo
    | ZanabazarSquare | Dogra | GunjalaGondi | Makasar | Medefaidrin | Sogdian
    | OldSogdian | Elymaic | NyiakengPuachueHmong | Nandinagari | Chorasmian
    | DivesAkuru | KhitanSmallScript | Yezidi | CyproMinoan | OldUyghur | Tangsa | Toto
    | Vithkuqi | Kawi | NagMundari | Garay | GurungKhema | KiratRai | OlOnal
    | Signwriting | Sunuwar | Todhri | TuluTigalari

  /** A script that stands on its own: neither Common nor Inherited. */
  predicate IsReal(s: Script) {
    s.Real?
  }

  /** A UTF-16 code unit (char16_t). */
  type CodeUnit = u: int | 0 <= u < 0x1_0000

  /** A Unicode scalar value as get_script receives it (uint32_t). */
  type CodePoint = c: int | 0 <= c < 0x1_0000_0000
}
