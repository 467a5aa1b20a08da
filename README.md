# node-canvas font selection and text itemization, in Dafny

This project models the text and font layer of node-canvas:

- **Font query** (`FontManager.cc`). `compareFamilyNames` compares family names after trimming white space and ignoring ASCII case. `narrowByStyle` and `narrowByWeight` pick one descriptor from several candidates. `query` resolves every requested family, with the CSS generic keywords expanded, and then the fallback families, into a list of descriptors.
- **Face registry** (`FontFaceSet.cc`). The JavaScript `FontFaceSet` is an id→slot hash plus an append-only slot vector. Deleted slots are nulled and never reused. The model covers `add`, `has`, `delete`, `clear`, `size` and the iterator's `next`.
- **macOS tables** (`FontManagerMacos.cc`). It covers the generic-keyword lists, the per-script fallback families, and the classification of a descriptor's style from its traits and style name.
- **Itemizer** (`itemize.cc`). Three cursors walk a UTF-16 buffer:
  - a bidi level-run iterator;
  - a script-run iterator, which decodes surrogate pairs, keeps a stack of open brackets and lets Common/Inherited characters join the surrounding script;
  - `itemize_next`, which cuts the text wherever either of the two reports a boundary.

Font descriptors are handles (`nat` indices) into an arena (`seq<FontDescriptor>`). Comparing handles is the source's comparison of descriptor pointers. The stateful parts keep the source's shape:
- classes whose methods update fields (`FontFaceSet`, `FaceIterator`, `FontManager`, `BidiIterator`, `ScriptIterator`, `ItemizeState`);
- methods with loops for the trim loops, the swap-and-pop sweep, the weight scan, the binary search, the bracket stack and the query loops.

The loops (trimming, the sweep, the weight scans, the binary search, the bracket-stack loops and the query loops) are proved equal to specification functions, and those functions have their own lemmas. The script iterator is tied to three functions. `NextState` describes one call, `StepOf` one pass of its loop, and `Bracket` the bracket handling of one character. The methods of `FontFaceSet`, `FaceIterator`, `FontManager` and `ItemizeState` state their new fields in terms of the old ones, and the invariants they keep.

`query` calls the platform's `getGenericList`, a pure virtual member of `FontManager`. In the model it is a function given to the `FontManager` constructor and a parameter of the query functions. Lemmas instantiate it with the macOS lists.

Modules, one per file:

| module | models |
|---|---|
| `Fonts` | `Font.h`: `FontStyle`, `FontVariant`, descriptors, properties with default weight 400 |
| `Unicode` | the `script_t` enumeration, split into the two pseudo-scripts Common and Inherited and the real scripts; `get_script` itself is a parameter |
| `FamilyNames` | `compareFamilyNames` |
| `StyleNarrowing` | `narrowByStyle` |
| `WeightMatching` | `narrowByWeight` |
| `FaceRegistry` | `FontFaceSet` and its iterator |
| `MacFonts` | `getGenericList`, `populateFallbackFonts`, style classification |
| `FontQuery` | `FontManager::query` |
| `PairedChars` | `paired_chars` and `get_pair_index` |
| `BidiRuns` | `bidi_iterator_next` |
| `ScriptRuns` | `script_iterator_next` |
| `BracketExamples` | worked examples of the bracket rule |
| `Itemizer` | `ItemizeState` and `itemize_next` |

Two behaviours of the code look unintended, and "## Findings" lists both. The model follows the code in each:
- `narrowByStyle` can let a candidate of another style survive.
- `narrowByWeight` can return null when every candidate is too far from the requested weight, which happens only for weights outside 100–900.

The fallback loop also differs from the requested-family loop. A lone fallback match is not emitted: it stays pending and is narrowed together with a later fallback family's matches. It is dropped only if no later family adds one. The model follows the code here too.

## Model

| member | source | states |
|---|---|---|
| FamilyNames.ToLowerIdentifies | node_modules/canvas/src/FontManager.cc:23 | `tolower` in the C locale makes two characters equal iff they are the same letter up to ASCII case, and leaves every non-upper-case character alone |
| FamilyNames.LowerEqualIff | node_modules/canvas/src/FontManager.cc:20-26 | two names lower-case to the same string iff they have the same length and agree at every position up to ASCII case |
| FamilyNames.LowerIdempotent | node_modules/canvas/src/FontManager.cc:23 | lower-casing twice is lower-casing once |
| FamilyNames.TrimStart | node_modules/canvas/src/FontManager.cc:14 | the leading trim stops at a non-space character or the end |
| FamilyNames.TrimEnd | node_modules/canvas/src/FontManager.cc:15 | the trailing trim stops at a non-space character or the start |
| FamilyNames.CompareFamilyNames | node_modules/canvas/src/FontManager.cc:7-29 | the result is true iff the trimmed, lower-cased names are equal; trimmed lengths that differ give false |
| FamilyNames.TrimBounds | node_modules/canvas/src/FontManager.cc:14-15 | the two trim loops yield bounds whose slice is exactly the trimmed name |
| FamilyNames.SkipLeading | node_modules/canvas/src/FontManager.cc:14 | the first loop stops where the leading trim ends |
| FamilyNames.SkipTrailing | node_modules/canvas/src/FontManager.cc:15 | the second loop, from where the first stopped, stops where the trailing trim ends |
| FamilyNames.PaddingIgnored | node_modules/canvas/src/FontManager.cc:14-18 | white space around a name changes neither its trimmed form nor its comparison with any name |
| FamilyNames.TrimStartSpaces | node_modules/canvas/src/FontManager.cc:14 | a white-space prefix is removed completely |
| FamilyNames.TrimEndSpaces | node_modules/canvas/src/FontManager.cc:15 | a white-space suffix is removed completely |
| FamilyNames.TrimStartAppend | node_modules/canvas/src/FontManager.cc:14 | trimming the start of a concatenation trims only the first part unless that part is all white space |
| FamilyNames.AllSpaceTrims | node_modules/canvas/src/FontManager.cc:14-15 | an all-space name trims to the empty name |
| FamilyNames.SameFamilyEquivalence | node_modules/canvas/src/FontManager.cc:20-28 | the comparison is reflexive, symmetric and transitive |
| FamilyNames.PaddedArialMatches | node_modules/canvas/src/FontManager.cc:14-26 | "  Arial " matches "arial" |
| FamilyNames.NoPadding | node_modules/canvas/src/FontManager.cc:14-15 | a name that starts and ends with non-space characters is its own trimmed form |
| FamilyNames.InteriorSpaceMatters | node_modules/canvas/src/FontManager.cc:20 | "Ari al" does not match "Arial": only outer white space is trimmed |
| StyleNarrowing.CountStyle | node_modules/canvas/src/FontManager.cc:42-48 | a style's tally is at most the number of candidates |
| StyleNarrowing.Choose | node_modules/canvas/src/FontManager.cc:50-61 | a present requested style wins; a present style is always chosen; Italic and Oblique stand in for each other before Normal; a Normal request prefers Oblique to Italic |
| StyleNarrowing.CountStylePositive | node_modules/canvas/src/FontManager.cc:42-48 | a style's tally is positive iff some candidate has that style |
| StyleNarrowing.CountStylesSum | node_modules/canvas/src/FontManager.cc:42-48 | the three tallies add up to the number of candidates |
| StyleNarrowing.ChosenStylePresent | node_modules/canvas/src/FontManager.cc:50-61 | the chosen style is the style of some candidate |
| StyleNarrowing.SwapPopRemoves | node_modules/canvas/src/FontManager.cc:65-66 | a swap with the last element and a pop removes exactly the element at i |
| StyleNarrowing.SweepOnlyRemoves | node_modules/canvas/src/FontManager.cc:63-68 | the sweep's result is a sub-multiset of its input |
| StyleNarrowing.SweepCountNotAbove | node_modules/canvas/src/FontManager.cc:63-68 | no candidate occurs in the sweep's result more often than in its input |
| StyleNarrowing.SweepKeepsChosen | node_modules/canvas/src/FontManager.cc:63-68 | the sweep keeps every copy of every candidate of the chosen style |
| StyleNarrowing.NarrowedByStyleSound | node_modules/canvas/src/FontManager.cc:31-69 | the narrowed list is non-empty, a sub-multiset of the input, and keeps every candidate of the chosen style |
| StyleNarrowing.NarrowByStyle | node_modules/canvas/src/FontManager.cc:31-69 | the tally, the choice and the in-place swap-and-pop loop compute the narrowed list; it is non-empty, a sub-multiset of the input, and keeps all chosen-style candidates |
| StyleNarrowing.StraySurvivorAsWritten | node_modules/canvas/src/FontManager.cc:63-68 | [Normal, Italic, Italic] with a Normal request keeps one Italic candidate |
| StyleNarrowing.StrayChoosesNormal | node_modules/canvas/src/FontManager.cc:42-61 | with one Normal and two Italic candidates, a Normal request chooses Normal |
| StyleNarrowing.RetainKeepsExactlyChosen | node_modules/canvas/src/FontManager.cc:63-68 | the corrected sweep keeps exactly the chosen-style candidates, with their multiplicities |
| StyleNarrowing.RetainOnlyChosen | node_modules/canvas/src/FontManager.cc:63-68 | the corrected sweep leaves only candidates of the chosen style |
| StyleNarrowing.RetainCountChosen | node_modules/canvas/src/FontManager.cc:63-68 | the corrected sweep keeps each chosen-style candidate as often as it was given and drops every other |
| WeightMatching.Insert | node_modules/canvas/src/FontManager.cc:76-82 | inserting a candidate adds exactly that candidate |
| WeightMatching.InsertSorted | node_modules/canvas/src/FontManager.cc:76-82 | insertion keeps the list sorted by weight |
| WeightMatching.SortByWeight | node_modules/canvas/src/FontManager.cc:76-82 | sorting yields a permutation of the candidates |
| WeightMatching.SortByWeightSorted | node_modules/canvas/src/FontManager.cc:76-82 | sorting yields a list in ascending weight order |
| WeightMatching.FirstStep | node_modules/canvas/src/FontManager.cc:86-90 | the exact-weight scan returns the current candidate when it has the requested weight, otherwise it goes on |
| WeightMatching.FirstOfWeightFinds | node_modules/canvas/src/FontManager.cc:86-90 | the exact-weight scan finds a candidate iff one has the requested weight, and what it finds has that weight |
| WeightMatching.ScanBelowBest | node_modules/canvas/src/FontManager.cc:100-109 | the below-divider scan keeps the nearest candidate under the divider, the heavier one on a tie, or none and the sentinel |
| WeightMatching.ScanBelowTakesLast | node_modules/canvas/src/FontManager.cc:105-109 | a candidate the below scan takes is the nearest so far below the divider and, the list being sorted, the heaviest at that distance |
| WeightMatching.ScanBelowKeeps | node_modules/canvas/src/FontManager.cc:105-109 | a candidate the below scan passes over leaves the best so far the best of the longer prefix |
| WeightMatching.ScanAboveBest | node_modules/canvas/src/FontManager.cc:100-116 | the at-or-above scan keeps the nearest candidate from the divider on, the lighter one on a tie, or none and the sentinel |
| WeightMatching.Covers | node_modules/canvas/src/FontManager.cc:92-116 | exact, below and above candidates carry over to a superset, and a best one carries back to a subset |
| WeightMatching.SameCandidates | node_modules/canvas/src/FontManager.cc:76-82 | a permutation of the candidates has the same exact, below and above candidates and the same best ones |
| WeightMatching.PickSpec | node_modules/canvas/src/FontManager.cc:84-122 | the pick from the sorted copy is a candidate: an exact weight first, then the best below when the divider is at most 500 or nothing is above, then the best above, and none when there is nothing at all |
| WeightMatching.PickFromSortedSpec | node_modules/canvas/src/FontManager.cc:84-122 | the same choice, stated on the sorted list it is made from |
| WeightMatching.NarrowedByWeightSpec | node_modules/canvas/src/FontManager.cc:71-123 | with the 900 sentinel: the result is a candidate; an exact weight wins; the divider rule picks between the best below and above; no candidate within range gives null |
| WeightMatching.NarrowedByWeightInRange | node_modules/canvas/src/FontManager.cc:92-95 | when every weight is less than 900 away from the request, some candidate is returned |
| WeightMatching.PrefersBelowForRegular | node_modules/canvas/src/FontManager.cc:118-119 | a request for 400 from {300, 600} gives 300 |
| WeightMatching.PrefersHeavierTieBelow | node_modules/canvas/src/FontManager.cc:105-109 | a request for 400 from {350, 450} gives 450, the heavier side winning since 450 is below the divider 500 |
| WeightMatching.ExactWeightWins | node_modules/canvas/src/FontManager.cc:86-90 | 300, 600 and 900 with a request for 600 gives the 600 candidate |
| WeightMatching.NineHundredBelowTaken | node_modules/canvas/src/FontManager.cc:105-109 | below the divider a distance equal to the 900 sentinel is accepted: a request for 1000 with one candidate of weight 100 returns it |
| WeightMatching.FarWeightYieldsNothing | node_modules/canvas/src/FontManager.cc:92-95 | a single candidate of weight 1000 with a request for 100 gives null |
| WeightMatching.NarrowedByWeightFixedSpec | node_modules/canvas/src/FontManager.cc:92-122 | with no sentinel, a non-empty candidate list always yields a candidate: the exact weight if present, otherwise the best below or above |
| WeightMatching.SentinelIrrelevant | node_modules/canvas/src/FontManager.cc:92-116 | when every distance is under both sentinels, the scans pick the same candidates |
| WeightMatching.SentinelIrrelevantBelow | node_modules/canvas/src/FontManager.cc:100-109 | the below scan picks the same candidate under both sentinels, and at the same distance once one is found |
| WeightMatching.SentinelIrrelevantAbove | node_modules/canvas/src/FontManager.cc:100-116 | the same for the at-or-above scan |
| WeightMatching.FixedAgreesInRange | node_modules/canvas/src/FontManager.cc:92-95 | within the 100–900 range the corrected version and the code agree |
| WeightMatching.NarrowByWeight | node_modules/canvas/src/FontManager.cc:71-123 | sorting a copy, the exact scan and the divider scan compute the specified pick without changing the caller's list |
| FaceRegistry.LiveFacesAppend | node_modules/canvas/src/FontFaceSet.cc:65 | appending a slot appends its face, if any, to the live faces |
| FaceRegistry.LiveFacesEmptied | node_modules/canvas/src/FontFaceSet.cc:136 | nulling a live slot removes exactly one live face |
| FaceRegistry.NoLiveFaces | node_modules/canvas/src/FontFaceSet.cc:103-106 | all-null slots hold no face |
| FaceRegistry.NextLive | node_modules/canvas/src/FontFaceSet.cc:164-166 | the next live slot from i is live or the end, and every slot skipped is null |
| FaceRegistry.SkipEmpty | node_modules/canvas/src/FontFaceSet.cc:163-171 | skipping null slots loses no face |
| FaceRegistry.FontFaceSet.constructor | node_modules/canvas/src/FontFaceSet.h:34-40 | a new set is empty |
| FaceRegistry.FontFaceSet.Add | node_modules/canvas/src/FontFaceSet.cc:38-69 | missing arguments and non-faces are type errors; an absent id is mapped to a new slot at the end; a present id changes nothing |
| FaceRegistry.FontFaceSet.Has | node_modules/canvas/src/FontFaceSet.cc:71-99 | true iff the id is a key of the hash, which holds iff some live slot holds a face with that id |
| FaceRegistry.FontFaceSet.Clear | node_modules/canvas/src/FontFaceSet.cc:101-108 | every slot is nulled, the slot count is kept, the hash is emptied, loaded and failed are untouched |
| FaceRegistry.FontFaceSet.Delete | node_modules/canvas/src/FontFaceSet.cc:110-145 | a present id has its slot nulled and is erased from hash, loaded and failed, and the result is true; an absent id changes nothing and gives false |
| FaceRegistry.FontFaceSet.Size | node_modules/canvas/src/FontFaceSet.cc:188-191 | the size of the hash, which equals the number of live slots |
| FaceRegistry.FaceIterator.constructor | node_modules/canvas/src/FontFaceSet.cc:181 | an iterator starts at slot 0 |
| FaceRegistry.FaceIterator.Next | node_modules/canvas/src/FontFaceSet.cc:156-175 | next skips null slots, returns the next live face and moves past it, or reports done at the end; the faces still to come are the returned one followed by the rest |
| FaceRegistry.AddThenDelete | node_modules/canvas/src/FontFaceSet.cc:63-66 | an add then a delete leaves the same live faces but one more slot: slots are never reused |
| FaceRegistry.AddDuringIteration | node_modules/canvas/src/FontFaceSet.h:32-35 | a face added during an iteration is visited at its end |
| MacFonts.GenericIsCaseSensitive | node_modules/canvas/src/FontManagerMacos.cc:627-636 | "Serif", " serif", "SANS-SERIF" and "sans serif" have no list |
| MacFonts.ScriptFamilies | node_modules/canvas/src/FontManagerMacos.cc:140-591 | every script adds at most two specific families |
| MacFonts.PopulateFallbackFonts | node_modules/canvas/src/FontManagerMacos.cc:136-616 | the input list is kept as a prefix, then come the script's families and the common eight-family tail; the list grows by 8 to 10 |
| MacFonts.AppendTail | node_modules/canvas/src/FontManagerMacos.cc:596-615 | the eight pushes after the switch append the common tail, in order |
| MacFonts.FallbackFamilies | node_modules/canvas/src/FontManagerMacos.cc:596-615 | every script's fallback list ends with the same eight families, in order |
| MacFonts.WesternScriptsAddLucida | node_modules/canvas/src/FontManagerMacos.cc:141-150 | Common, Inherited, Latin, Cyrillic and Greek add only Lucida Grande before the tail |
| MacFonts.HanAddsSongti | node_modules/canvas/src/FontManagerMacos.cc:156-160 | Han and Bopomofo add Songti SC then SimSun-ExtB |
| MacFonts.KanaRepeatsHiragino | node_modules/canvas/src/FontManagerMacos.cc:162-166 | Hiragana and Katakana list Hiragino Sans twice: duplicates are not removed |
| MacFonts.UnknownScriptsAddOnlyTail | node_modules/canvas/src/FontManagerMacos.cc:555-590 | SCRIPT_NONE and every script of the last, empty arm add only the tail |
| MacFonts.StyleBuffer | node_modules/canvas/src/FontManagerMacos.cc:105-106 | the style name buffer holds a prefix of at most 127 characters, the whole name when it fits |
| MacFonts.ItalicNameIsNormal | node_modules/canvas/src/FontManagerMacos.cc:101-108 | a style named "Italic" without the trait is Normal |
| MacFonts.BoldObliqueIsOblique | node_modules/canvas/src/FontManagerMacos.cc:107 | "Bold Oblique" without the italic trait is Oblique |
| MacFonts.LateObliqueIgnored | node_modules/canvas/src/FontManagerMacos.cc:105-107 | an "Oblique" past the 127th character is not seen |
| FontQuery.AddMatching | node_modules/canvas/src/FontManager.cc:142-155 | maybeAdd over a pool keeps the candidates inside the arena |
| FontQuery.AddMatchingSpec | node_modules/canvas/src/FontManager.cc:142-155 | maybeAdd over a pool only appends pool members of the family, adds every one of them, and never adds one twice |
| FontQuery.AddMatchingKeeps | node_modules/canvas/src/FontManager.cc:142-155 | maybeAdd over a pool keeps what was gathered and gathers every pool member of the family |
| FontQuery.SlotsAsPool | node_modules/canvas/src/FontManager.cc:166-168 | the registry pass is maybeAdd over the live slots' descriptors |
| FontQuery.AddGenericSpec | node_modules/canvas/src/FontManager.cc:159-164 | a generic keyword only appends system fonts, without duplicates |
| FontQuery.AddGenericComplete | node_modules/canvas/src/FontManager.cc:159-164 | every system font of a family in the generic list is gathered |
| FontQuery.AddGenericMatches | node_modules/canvas/src/FontManager.cc:159-164 | every gathered font matches a family of the generic list |
| FontQuery.CandidatesSpec | node_modules/canvas/src/FontManager.cc:157-172 | for any generic lookup: candidates are distinct; a generic keyword gathers exactly the system fonts of its list; any other name gathers exactly the registered and system fonts of that family |
| FontQuery.NamedCandidate | node_modules/canvas/src/FontManager.cc:165-172 | a candidate for a name that is no generic keyword is known and of that family |
| FontQuery.MacSansSerifCandidates | node_modules/canvas/src/FontManagerMacos.cc:618-640 | with the macOS lookup, "sans-serif" gathers exactly the system fonts of the Helvetica or Arial family and no registered face |
| FontQuery.MacUnknownHasNoCandidates | node_modules/canvas/src/FontManager.cc:157-172 | with the macOS lookup, "Unknown" is searched by name, so it has no candidates when nothing registered or installed has that family |
| FontQuery.MacUnknownThenSansSerif | node_modules/canvas/src/FontManager.cc:157-182 | with the macOS lookup, ["Unknown", "sans-serif"] gives at most one result, none iff no system font is Helvetica or Arial, and the result is such a font |
| FontQuery.GatherFamily | node_modules/canvas/src/FontManager.cc:157-172 | the gathering loops compute the candidates |
| FontQuery.MaybeAdd | node_modules/canvas/src/FontManager.cc:142-155 | the lambda appends a matching descriptor that is not already present |
| FontQuery.AddFromPool | node_modules/canvas/src/FontManager.cc:169-171 | the loop over system fonts is maybeAdd over the pool |
| FontQuery.AddFromSlots | node_modules/canvas/src/FontManager.cc:166-168 | the loop over the registry skips null slots and is maybeAdd over the live descriptors |
| FontQuery.NarrowCandidates | node_modules/canvas/src/FontManager.cc:177-180 | narrowing by style then by weight computes the resolved candidate |
| FontQuery.ResolveSpec | node_modules/canvas/src/FontManager.cc:174-181 | one candidate is taken as is; a resolved result is a candidate; weights in range always resolve |
| FontQuery.CandidatesKnown | node_modules/canvas/src/FontManager.cc:157-172 | every candidate is a registered face's or a system font |
| FontQuery.AllKnownAppend | node_modules/canvas/src/FontManager.cc:175 | appending a known result keeps all results known |
| FontQuery.RequestedResultsCount | node_modules/canvas/src/FontManager.cc:157-182 | at most one result per requested family, exactly one per family iff every family has candidates |
| FontQuery.EveryFamilyHasCandidatesAppend | node_modules/canvas/src/FontManager.cc:157-182 | every family of a longer list has candidates iff every earlier one does and the last one does |
| FontQuery.RequestedResultsKnown | node_modules/canvas/src/FontManager.cc:157-182 | every requested-family result is a registered face's or a system font |
| FontQuery.FallbackRun | node_modules/canvas/src/FontManager.cc:184-194 | the fallback loop keeps its pending matches in the arena |
| FontQuery.FallbackRunSpec | node_modules/canvas/src/FontManager.cc:184-194 | at most one match is pending, at most one result per fallback, all from the system fonts |
| FontQuery.LoneFallbackDropped | node_modules/canvas/src/FontManager.cc:189-193 | fallbacks that all match only one font emit nothing |
| FontQuery.AddMatchingOnly | node_modules/canvas/src/FontManager.cc:185-187 | when only h matches, gathering from nothing or from h gives nothing or h |
| FontQuery.PendingCarriedForward | node_modules/canvas/src/FontManager.cc:184-194 | pending matches carry into the next fallback; more than one is resolved and emitted, otherwise they stay pending |
| FontQuery.AllKnownConcat | node_modules/canvas/src/FontManager.cc:175-193 | the requested-family results followed by fallback results from the system fonts are all known |
| FontQuery.QueryResultsSpec | node_modules/canvas/src/FontManager.cc:128-197 | at most one result per requested and per fallback family, each a registered face's or a system font |
| FontQuery.RequestedLoop | node_modules/canvas/src/FontManager.cc:157-182 | the loop over the requested families computes the specified per-family results and leaves nothing pending |
| FontQuery.FallbackLoop | node_modules/canvas/src/FontManager.cc:184-194 | the loop over the fallbacks appends the specified fallback results |
| FontQuery.FontManager.constructor | node_modules/canvas/src/FontManager.h:22-44 | the platform's generic lookup is fixed; system fonts start unloaded and empty |
| FontQuery.FontManager.Query | node_modules/canvas/src/FontManager.cc:128-197 | system fonts are read once and kept; the result is the specified per-family then per-fallback list, with generic keywords looked up through the manager's own lookup |
| PairedChars.AscendingFromOrders | node_modules/canvas/src/itemize.cc:31-90 | an ascending table from i on is strictly ordered pairwise |
| PairedChars.AscendingShift | node_modules/canvas/src/itemize.cc:31-90 | order of the second part carries over to the joined table |
| PairedChars.AscendingJoinFrom | node_modules/canvas/src/itemize.cc:31-90 | two ascending parts joined in order are ascending from i |
| PairedChars.AscendingJoin | node_modules/canvas/src/itemize.cc:31-90 | two ascending parts whose boundary is ordered join into an ascending table |
| PairedChars.TableAscending | node_modules/canvas/src/itemize.cc:31-92 | the table has 116 entries, an even count, in strictly ascending order |
| PairedChars.WesternAscending | node_modules/canvas/src/itemize.cc:32-39 | the ASCII, guillemet, Tibetan and Ogham entries ascend |
| PairedChars.GeneralPunctuationAscending | node_modules/canvas/src/itemize.cc:40-45 | the General Punctuation entries ascend |
| PairedChars.MathBracketsAscending | node_modules/canvas/src/itemize.cc:46-62 | the mathematical bracket entries ascend |
| PairedChars.SupplementalPunctuationAscending | node_modules/canvas/src/itemize.cc:63-72 | the Supplemental Punctuation entries ascend |
| PairedChars.CjkAndFullwidthAscending | node_modules/canvas/src/itemize.cc:73-90 | the CJK, small form and fullwidth entries ascend |
| PairedChars.IndexFrom | node_modules/canvas/src/itemize.cc:94-112 | the reference search: the first position from i holding ch, or -1 iff there is none |
| PairedChars.GetPairIndex | node_modules/canvas/src/itemize.cc:94-112 | the position of ch in the table, or -1 iff ch is not in the table |
| PairedChars.BinarySearch | node_modules/canvas/src/itemize.cc:96-111 | over any strictly ascending table, the binary search returns what the reference search returns |
| PairedChars.FoundIsFirst | node_modules/canvas/src/itemize.cc:94-112 | in a strictly ascending table, any position holding ch is the one the reference search finds |
| PairedChars.OpenerOf | node_modules/canvas/src/itemize.cc:146-151 | clearing bit 0 gives the even position of the pair's opener |
| PairedChars.CloserMatchesOpener | node_modules/canvas/src/itemize.cc:151 | an opener is its own opener, a closer's opener is just before it |
| ScriptRuns.DecodeAt | node_modules/canvas/src/itemize.cc:125-135 | a character takes one or two units and stays inside the text |
| ScriptRuns.EncodeSupplementary | node_modules/canvas/src/itemize.cc:130-133 | a supplementary code point encodes as a high and a low surrogate |
| ScriptRuns.DecodeEncoded | node_modules/canvas/src/itemize.cc:128-135 | decoding an encoded supplementary code point gives it back, with a jump of 2 |
| ScriptRuns.PopUnmatchedSpec | node_modules/canvas/src/itemize.cc:153-155 | the pops leave a prefix of the stack topped by the opener, and pop no frame of that opener |
| ScriptRuns.Absorb | node_modules/canvas/src/itemize.cc:167-173 | the running script is real iff it was or the character's is; a real running script never changes; after a compatible character it is still compatible with it and is either the old running script or the character's |
| ScriptRuns.ConsecutiveAdvances | node_modules/canvas/src/itemize.cc:190 | characters of positive width advance the offset |
| ScriptRuns.PairIndexOf | node_modules/canvas/src/itemize.cc:137-138 | only a Common character is looked up; a found position holds the character; the position is a closer's iff the character is Common and a closing bracket |
| ScriptRuns.Bracket | node_modules/canvas/src/itemize.cc:140-165 | the stack keeps only opener frames and start_paren stays within it; a character counts as a script other than its own only when it is a closer |
| ScriptRuns.BracketCloserBorrows | node_modules/canvas/src/itemize.cc:149-163 | a closer whose opener has a frame pops every frame above the uppermost such frame and counts as that frame's script |
| ScriptRuns.BracketCloserUnmatched | node_modules/canvas/src/itemize.cc:149-163 | a closer whose opener has no frame empties the stack, sets start_paren to -1, and keeps its own script |
| ScriptRuns.Fill | node_modules/canvas/src/itemize.cc:177-179 | the back-filled stack has as many frames as before |
| ScriptRuns.StepOf | node_modules/canvas/src/itemize.cc:124-194 | one loop pass reads the character at the offset; it continues iff the character is compatible with the running script, then advancing by the character's width and absorbing its script, and otherwise stays at the offset |
| ScriptRuns.Scan | node_modules/canvas/src/itemize.cc:124-195 | the loop ends between the start offset and the end of the text |
| ScriptRuns.NextState | node_modules/canvas/src/itemize.cc:114-200 | nothing changes once done; otherwise the offset does not move back, and done holds iff the end is reached |
| ScriptRuns.ScanStep | node_modules/canvas/src/itemize.cc:124-195 | the loop takes one pass and goes on from its state iff the pass continues |
| ScriptRuns.SameScriptContinues | node_modules/canvas/src/itemize.cc:167-190 | a character of the run's own real script is taken and leaves the stack and start_paren alone |
| ScriptRuns.ScriptIterator.constructor | node_modules/canvas/src/itemize.h:13-22 | the iterator starts at offset 0, Common, not done, with an empty stack and start_paren -1 |
| ScriptRuns.ScriptIterator.Next | node_modules/canvas/src/itemize.cc:114-200 | the new state is `NextState` of the old; nothing once done; otherwise the run from the old offset consists of consecutive decoded characters compatible with the run's script, which is real iff one of them is; a non-empty rest makes progress; the run stops at an incompatible real script, left unconsumed; done iff the end is reached |
| ScriptRuns.ScriptIterator.Loop | node_modules/canvas/src/itemize.cc:124-195 | the loop ends in the state `Scan` gives; its run is consecutive decoded characters compatible with the run's script, which is real iff one of them is; it stops before an incompatible real script with start_paren at the top |
| ScriptRuns.ScriptIterator.Step | node_modules/canvas/src/itemize.cc:124-194 | the pass and the new state are `StepOf` of the old state, and the rest of the loop is unchanged; one loop pass either takes a compatible character, absorbing its script and advancing by its width, or stops before an incompatible one with start_paren at the top |
| ScriptRuns.ScriptIterator.Classify | node_modules/canvas/src/itemize.cc:125-165 | the character at the offset is decoded and given its script; its table position is `PairIndexOf`; the new stack, start_paren and the script it counts as are `Bracket` of the old ones; the offset is unchanged |
| ScriptRuns.ScriptIterator.Read | node_modules/canvas/src/itemize.cc:125-138 | decoding and get_script; the table position is `PairIndexOf` of the code point and its script |
| ScriptRuns.ScriptIterator.ResolveBracket | node_modules/canvas/src/itemize.cc:145-165 | the new stack, start_paren and script are `Bracket` of the old ones: an opener pushes the running script; a closer with a non-empty stack pops to its opener, clamps start_paren and takes the opener's script; anything else changes nothing |
| ScriptRuns.ScriptIterator.MatchCloser | node_modules/canvas/src/itemize.cc:149-164 | pop to the opener, clamp start_paren, and borrow the top frame's script if any is left |
| ScriptRuns.ScriptIterator.PopToOpener | node_modules/canvas/src/itemize.cc:153-155 | the pop loop computes the specified popped stack |
| ScriptRuns.ScriptIterator.BackFill | node_modules/canvas/src/itemize.cc:177-179 | frames above start_paren receive the new script, and start_paren reaches the top |
| BracketExamples.ParenPairIndices | node_modules/canvas/src/itemize.cc:32-33 | "(" and ")" are at positions 0 and 1 of the bracket table |
| BracketExamples.ArabicLetters | node_modules/canvas/src/itemize.cc:124-195 | a stretch of Arabic letters extends an Arabic run and leaves the stack alone |
| BracketExamples.ParenthesizedOpen | node_modules/canvas/src/itemize.cc:145-148 | in "(مرحبا)" the opening parenthesis pushes a frame with the still-Common running script |
| BracketExamples.ParenthesizedResolve | node_modules/canvas/src/itemize.cc:172-179 | the first letter makes the run Arabic and rewrites the waiting frame to Arabic |
| BracketExamples.ParenthesizedClose | node_modules/canvas/src/itemize.cc:149-163 | the closing parenthesis counts as Arabic, borrowed from the frame, and ends the text |
| BracketExamples.ParenthesizedArabic | node_modules/canvas/src/itemize.cc:114-200 | "(مرحبا)" is a single Arabic run covering the whole text; the closing parenthesis counts as Arabic |
| BracketExamples.LatinRun | node_modules/canvas/src/itemize.cc:114-200 | in "a(مرحبا)" the first run is "a(", Latin, and its parenthesis frame is Latin |
| BracketExamples.ArabicRun | node_modules/canvas/src/itemize.cc:114-200 | the second run is the Arabic word, keeping the Latin frame |
| BracketExamples.ArabicRunStop | node_modules/canvas/src/itemize.cc:149-194 | after the Arabic word, the closing parenthesis counts as Latin, borrowed from its frame, and so stops the Arabic run before it |
| BracketExamples.ClosingRun | node_modules/canvas/src/itemize.cc:149-198 | the closing parenthesis forms a third run, Latin, borrowed from its opener's frame, which is popped; the iterator is then done |
| BracketExamples.ClosingParenFollowsOpener | node_modules/canvas/src/itemize.cc:114-200 | "a(مرحبا)" splits into "a(" (Latin), the Arabic word, and ")" (Latin): a closer takes the script of the run its opener was in |
| BidiRuns.RunEnd | node_modules/canvas/src/itemize.cc:17-26 | the run's end is in range, every position before it has the level, and the next has another level or is the end |
| BidiRuns.Expand | node_modules/canvas/src/itemize.cc:17-26 | the levels spelled out by a list of runs |
| BidiRuns.LevelRunsRebuild | node_modules/canvas/src/itemize.cc:6-29 | the successive runs rebuild the levels, each run is non-empty, and neighbouring runs differ in level |
| BidiRuns.BidiIterator.constructor | node_modules/canvas/src/itemize.h:46-49 | the iterator starts at offset 0, level 0, not done |
| BidiRuns.BidiIterator.Next | node_modules/canvas/src/itemize.cc:6-29 | nothing once done; otherwise the level at the offset is reported and the offset moves to the end of its run; done iff the end is reached |
| Itemizer.ItemizeState.constructor | node_modules/canvas/src/itemize.h:58-68 | both iterators start at the beginning of a non-empty text |
| Itemizer.ItemizeState.Next | node_modules/canvas/src/itemize.cc:202-228 | only the iterators at the item offset advance; the offset moves forward to the nearer boundary; the item has one level and lies in one script run; it ends at the end of the text, where the level changes, or before a character the script run is not compatible with; done iff both iterators are done |
| Itemizer.ItemizeState.Settle | node_modules/canvas/src/itemize.cc:217-227 | the offset moves to the nearer iterator offset, which is the end of the text, a level change or a script stop; done iff both iterators are done |
| Itemizer.ItemizeState.AdvanceBidi | node_modules/canvas/src/itemize.cc:209-211 | the bidi iterator moves past a whole level run that starts at its old offset, and the script iterator is untouched |
| Itemizer.ItemizeState.AdvanceScripts | node_modules/canvas/src/itemize.cc:213-215 | the script iterator's new state is `NextState` of its old one; it moves past a script run that starts at its old offset and stops before an incompatible character; the bidi iterator is untouched |

## Left out

- `convertWeight` is not part of this model: floating-point interpolation of CoreText weights.
- `readSystemFonts` and the CoreText calls, string marshalling and `CFRelease` in `create_font_descriptor` are left out. The system font list is a parameter of `FontManager.Query`.
- `get_script` and the script table behind it are not part of this model. The script iterator takes them as a function parameter.
- The SheenBidi calls that compute the levels are not modelled. The levels are an input of the `ItemizeState` constructor. The paragraph's initial level is fixed at 0 in `BidiIteratorState` and is not a parameter.
- The N-API plumbing of `FontFaceSet` is not modelled: `ObjectReference`/`Persistent`, the `ready` promise and the iterator finalizer. Argument checking becomes the `Argument` datatype and `TypeError` outcomes.
- `FontFace.cc` is not part of this model. A face is an id and a descriptor handle, and ids are unique by assumption.
- `FontProperties.size` is left out: a floating-point field the core never reads.
- WeightMatching.NarrowByWeight: `std::sort` is not stable, so the order among candidates of equal weight is unspecified. The model sorts stably, which fixes one of the allowed orders.
- FamilyNames.CompareFamilyNames: `isspace` and `tolower` are modelled for the C locale on characters. Locale-dependent behaviour is left out, and so is the byte-level handling of multi-byte UTF-8.
- MacFonts.StyleBuffer: `CFStringGetCString` fails outright when the name does not fit, and the buffer's contents are then undefined. The model keeps the first 127 characters instead, and counts characters, not UTF-8 bytes.
- MacFonts.LateObliqueIgnored: it relies on the 127-character prefix of `StyleBuffer`. In the source a name that long makes `CFStringGetCString` fail, and what `strstr` then sees is undefined.
- Itemizer.ItemizeState.constructor: the bidi iterator reads `levels[0]` on the first call, so the text must not be empty. The model requires a non-empty text.
- Itemizer.ItemizeState.Next: the `min` with the text length is not written out. Both iterator offsets are proved never to exceed the length.
- `scripts/generate-contrib-image.js` is left out: network access, drawing and file output.
- Integer widths: weights, offsets and stack indices are unbounded integers. The source's `size_t`, `int` and `uint16_t` never overflow for texts and font lists of realistic size.

## Findings

| source | as written | input that shows it | evidently intended | confidence | as-written member | corrected member |
|---|---|---|---|---|---|---|
| node_modules/canvas/src/FontManager.cc:63-68 | after a swap-and-pop, `i` still advances, so the element swapped into slot `i` is never examined | styles [Normal, Italic, Italic] with a Normal request leave [Normal, Italic] | keep exactly the candidates of the chosen style | not executed | StyleNarrowing.StraySurvivorAsWritten | StyleNarrowing.RetainKeepsExactlyChosen |
| node_modules/canvas/src/FontManager.cc:92-95 | the best distances start at 900, so a candidate below the divider more than 900 away, or one at or above the divider 900 or more away, is never taken, and the result can be null | one candidate of weight 1000 and a request for 100 give null | return the nearest candidate of any non-empty list | not executed | WeightMatching.FarWeightYieldsNothing | WeightMatching.NarrowedByWeightFixedSpec |

`FontQuery` keeps the code as written for both findings, because `query` calls these two functions as they stand.
