# A verified model of the Bible viewer's core

This project models the logic of a small Bible web viewer written in
Python 2 with Flask, and proves properties of that model. It has three
parts.

**The alias catalogue** (`mappings.py`). An `Entry` is a code plus
keyword fields and extra aliases. `Entries` is a list of entries. It
answers lookups by code (`from_code`), by alias (`from_value`) or by
either (`from_any`). To do so it builds three maps from the list, caches
them, and drops them again on `invalidate`. The shipped tables are part
of the model: 16 translations, 66 books and `DEFAULT_VER`.

**The request side** (`bible.py`):
- `filter_htmltext` turns a text and its flag bytes into nested HTML
  tags, and highlights the query.
- `search` recognises a direct reference such as `요 3:16-18`.
- `render_verses` groups the fetched verses into highlight sections.
- The verse views choose which rows to fetch and which to highlight.
- `normalize_url` normalises the `v` (version) parameter.

**The corpus builder** (`populate.py`):
- `normalize`;
- the preparation of a raw verse line: the private-use assertion, the
  marker substitutions, and the cutting out of CJK annotations;
- the scanner that turns style markers into a markup byte per
  character, and the packing of the `meta` column;
- the numbering of the verse keys: ordinals, per-book indices, least and
  greatest verse per chapter;
- `maxgap`;
- the parsing and merging of daily-reading ranges.

Modules, one per file:

| file | module | what it holds |
|---|---|---|
| wrappers.dfy | Wrappers | `Option` and `Result` |
| text.dfy | TextUtil | Python's `split`/`join`, `strip`, `lower`, `upper`, the regex classes `\s` and `\d`, `int`/`str` on digits |
| catalog.dfy | Catalog | `Entry`, the three maps `_refresh` builds, the lookups, and the class `Entries` with its caches |
| catalog_data.dfy | CatalogData | the `versions` and `books` tables, `DEFAULT_VER`, and facts about them |
| htmltext.dfy | HtmlText | `filter_htmltext`: highlighting in place on an array, the render loop, the nesting of its tags |
| reference.dfy | Reference | the direct-reference pattern of `search`, as a scanner, and its round trip |
| views.dfy | Views | the row window and highlight of the verse views, `render_verses`, `normalize_url` |
| markers.dfy | Markers | `normalize`, the substitutions that turn a raw line into markers and cut out the CJK annotations, the marker scanner, the `meta` column |
| ordinals.dfy | Ordinals | the numbering loop over sorted verse keys, and `maxgap` |
| daily.dfy | Daily | daily-reading ranges: parsing, sorting and the backward merge |

Stateful code is modelled as methods whose `ensures` tie the result or
the new state to a function, and the lemmas are proved about that
function. Examples are `Entries` and its caches, the highlighting loop,
the render loops of `filter_htmltext` and `render_verses`, the marker
scanner, the numbering loop and the merge loop. Pure code is modelled as
functions and lemmas. Examples are the lookups, `normalize_url` and the
reference pattern.

Python's `assert` and the exceptions the code relies on are modelled as
`Failure` results: `KeyError` from a lookup, `IndexError`, and
`AssertionError` in the line preparation, the scanner and the merge.
Each is kept where the source has it.

The regular expression at bible.py:237-238 allows whitespace only before
and after the address. It allows none around `-` or `~`, so `3:16 - 18`
is not a direct reference. The model follows the code here.

## Model

| member | source | states |
|---|---|---|
| Catalog.Entry.AllValues | mappings.py:28-29 | `all_values`: the `others` together with the value of every text field whose name does not start with `_`; its properties are the three lemmas below |
| Catalog.OthersOnly | mappings.py:28-29 | an entry without keyword fields has exactly its `others` as aliases |
| Catalog.PrivateFieldIrrelevant | mappings.py:28-29 | setting or changing a field whose name starts with `_` leaves the aliases unchanged, whatever its value |
| Catalog.PublicFieldIsAlias | mappings.py:28-29 | adding a text field whose name does not start with `_` adds exactly its value to the aliases |
| Catalog.Compare | mappings.py:15-16 | `__cmp__` is 0 exactly when the two codes are equal |
| Catalog.CompareAntisymmetric | mappings.py:15-16 | swapping the operands of `__cmp__` negates the result |
| Catalog.ValueKeyIgnoresSpacingAndCase | mappings.py:67 | the alias key ignores inserted or removed whitespace and ASCII case, and is idempotent |
| Catalog.CodeMapDomain | mappings.py:39-44 | `code2entry` holds exactly the stripped, lower-cased codes, each mapped to an entry of the list with that key |
| Catalog.ValueMapDomain | mappings.py:46-47 | `value2entry` holds exactly the normalised aliases, each mapped to an entry having that alias |
| Catalog.IndexMapDomain | mappings.py:45 | `indices` holds exactly the raw codes, each mapped to a position holding that code |
| Catalog.CodeMapLastWins | mappings.py:43-44 | when entries share a code key, the last of them in list order is kept |
| Catalog.ValueMapLastWins | mappings.py:43-47 | when entries share an alias key, the last of them in list order is kept |
| Catalog.IndexMapPositions | mappings.py:43-45 | a code that no later entry repeats is mapped to its own position |
| Catalog.IndexMapBijection | mappings.py:42-45 | with distinct codes, `indices` maps each code to its position, and its values are exactly 0..n-1 |
| Catalog.FromCodeIn | mappings.py:61-63 | `from_code` succeeds exactly when some code has the stripped, lower-cased key, and then returns such an entry; otherwise KeyError of that key |
| Catalog.FromValueIn | mappings.py:65-67 | `from_value` succeeds exactly when some entry has the whitespace-free, lower-cased alias, and then returns such an entry; otherwise KeyError |
| Catalog.FromAnyIn | mappings.py:69-75 | `from_any` succeeds exactly when the key is some code key or alias key; otherwise KeyError of the key |
| Catalog.CodeBeforeAlias | mappings.py:72-75 | an entry whose code key is the query wins over any entry with that alias |
| Catalog.UniqueCodeResolves | mappings.py:61-75 | a code that no other entry shares resolves to its entry by `from_code` and by `from_any` |
| Catalog.AliasWhenNoCode | mappings.py:72-75 | an alias is used only when no code has its key, and then the last entry with it wins, as `from_value` would answer |
| Catalog.FromAnyNormalizes | mappings.py:69-71 | queries equal up to whitespace and ASCII case get the same answer from `from_any` and from `from_value` |
| Catalog.AllValuesOf | mappings.py:77-78 | `Entries.all_values` is the union of the aliases of all entries |
| Catalog.AllCodesOf | mappings.py:80-81 | `Entries.all_codes` is exactly the key set of `indices`, the map built at mappings.py:45 |
| Catalog.StoreAliases | mappings.py:46-47 | the inner loop adds every normalised alias of the entry to `value2entry`, mapped to that entry |
| Catalog.BuildMaps | mappings.py:39-50 | the loop of `_refresh` yields exactly `CodeMap`, `ValueMap` and `IndexMap` of the list |
| Catalog.Entries.constructor | mappings.py:32-34 | a new list holds the arguments and has no cache |
| Catalog.Entries.Invalidate | mappings.py:36-37 | both lookup caches are unset, so the next lookup rebuilds; the list is unchanged |
| Catalog.Entries.Refresh | mappings.py:39-50 | all three caches describe the current list |
| Catalog.Entries.RefreshIfNeeded | mappings.py:52-54 | rebuilds exactly when a lookup cache is unset, and otherwise keeps all three caches |
| Catalog.Entries.Indices | mappings.py:52-59 | answers from the index cache, which describes the list whenever the caches were unset or current. When the lookup caches were already set, all three caches are kept as they were, so a list changed without `invalidate` is answered from the old caches |
| Catalog.Entries.FromCode | mappings.py:52-63 | answers from `code2entry`, and that answer is `from_code` over the list when the caches are current. When the lookup caches were already set, all three caches are kept as they were, so a list changed without `invalidate` is answered from the old caches |
| Catalog.Entries.FromValue | mappings.py:52-67 | answers from `value2entry`, and that answer is `from_value` over the list when the caches are current. When the lookup caches were already set, all three caches are kept as they were, so a list changed without `invalidate` is answered from the old caches |
| Catalog.Entries.FromAny | mappings.py:52-75 | looks in `code2entry` first, then in `value2entry`; this is `from_any` over the list when the caches are current. When the lookup caches were already set, all three caches are kept as they were, so a list changed without `invalidate` is answered from the old caches |
| Catalog.Entries.AllValues | mappings.py:77-78 | reads the list, not the caches: the union of the entries' aliases |
| Catalog.Entries.AllCodes | mappings.py:80-81 | the key set of `indices` over the list, which is the key set of the index cache whenever the caches are current |
| CatalogData.OneBlessedPerLanguage | mappings.py:84-136 | in the versions table no two versions of one `_lang` are both blessed; every `_lang` is en or ko; kjv is the blessed English one and kjav the blessed Korean one |
| CatalogData.VersionCodeKeys | mappings.py:84-136 | every version code is already its own code key and alias key, and no two versions share a code |
| CatalogData.BookCodesDistinct | mappings.py:142-209 | the 66 book codes are pairwise distinct |
| CatalogData.BookIndices | mappings.py:142-209 | `books.indices` maps each book code to its position, and is a bijection onto 0..65 |
| CatalogData.VersionResolvesByCode | mappings.py:61-75 | every version is found from its own code by `from_code` and by `from_any` |
| CatalogData.DefaultVerExists | mappings.py:138 | `DEFAULT_VER` names kjav, the last version, found by `from_code` and `from_any`, and blessed |
| CatalogData.VersionAliasesSolid | mappings.py:84-136 | every alias of every version ends in a non-blank character |
| CatalogData.BlankVersionMisses | mappings.py:69-75 | an empty or all-blank version name is a KeyError of the empty key |
| CatalogData.SpacedCodeResolves | mappings.py:69-71 | `" K J V "` finds kjv through `from_any` |
| CatalogData.FromCodeKeepsInnerSpace | mappings.py:61-63 | `from_code` trims only the ends, so `"k jv"` is a KeyError there |
| CatalogData.FromAnyDropsInnerSpace | mappings.py:69-71 | `from_any` removes inner whitespace too, so `"k jv"` finds kjv |
| CatalogData.PrivateOthersMiss | mappings.py:109-112 | nkrv's `_others` holds 개역개정, yet, its name starting with `_`, it is no alias: `from_value` and `from_any` both raise KeyError for 개역개정 |
| CatalogData.VersionMissesKey | mappings.py:84-136 | no version has 개역개정 as its code key or among its alias keys |
| CatalogData.VersionPublicFields | mappings.py:84-136 | every keyword field of a version whose name does not start with `_` holds a string |
| CatalogData.ShippedVersionTable | mappings.py:84-138 | the shipped versions table has what `normalize_url` relies on: comma-free codes that resolve to their own entries, distinct codes, a resolvable `DEFAULT_VER`, and no version for "" |
| TextUtil.SquashIdempotent | populate.py:12 | removing whitespace twice is removing it once |
| TextUtil.SquashAppend | mappings.py:47 | removing whitespace from a concatenation removes it from each part |
| TextUtil.LowerSquash | mappings.py:67 | `lower()` and removing whitespace commute |
| TextUtil.UpperSquash | populate.py:12 | `upper()` and removing whitespace commute |
| TextUtil.DropLeadingSpaceSpec | mappings.py:44 | the left strip removes a prefix of whitespace and stops at the first non-blank character |
| TextUtil.DropTrailingSpaceSpec | mappings.py:44 | the right strip removes a suffix of whitespace and stops at the last non-blank character |
| TextUtil.SquashKeepsLastChar | mappings.py:47 | removing whitespace keeps a final non-blank character last |
| TextUtil.LowerLettersFixed | mappings.py:63 | a code of lower-case ASCII letters is its own `strip()`, `lower()` and whitespace-free form |
| TextUtil.DigitsRoundTrip | bible.py:243-248 | `int(str(n)) == n` for every natural number n |
| Markers.Normalize | populate.py:11-12 | `normalize` leaves no whitespace and never lengthens its input |
| Markers.NormalizeIdempotent | populate.py:11-12 | `normalize` is idempotent |
| Markers.NormalizeIgnoresSpace | populate.py:11-12 | whitespace inserted anywhere does not change `normalize` |
| Markers.Step | populate.py:80-88 | one iteration of the scanner: a style marker asserts the flags it opens from or closes and sets them; the placeholder asserts that no mark is pending and sets bit 128; any other character goes to the text, its flag byte to the markup, and bit 128 is cleared |
| Markers.Run | populate.py:76-88 | the loop over the whole line from flags 0 and empty text and markup, stopping at the first failed assertion; FailureSticks and RunState state what it computes |
| Markers.ScanMarkers | populate.py:76-89 | the scanner loop computes `ScanLine` of the line, an assertion failure included |
| Markers.FailureSticks | populate.py:79-88 | once an assertion fails, the rest of the line cannot undo it |
| Markers.RunState | populate.py:79-88 | the loop succeeds exactly when the style markers pair up and each placeholder is followed by a kept character; it keeps exactly the non-marker characters, one markup byte for each |
| Markers.ScanSucceedsIff | populate.py:79-89 | the line scans exactly when its markers pair up and its placeholders are followed by kept characters; the text is the kept characters |
| Markers.TrailingByte | populate.py:89 | the markup has one byte per kept character, plus one trailing 128 exactly when the line ends with a placeholder |
| Markers.MarkupOfKept | populate.py:79-88 | each kept character's byte is the style of the marker pair around it, plus 128 exactly when a placeholder stands right before it |
| Markers.MarkupBytes | populate.py:79-89 | every markup byte is a style 0..3, possibly with 128, so never the 0xFF separator |
| Markers.PlaceholderMarks | populate.py:87-89 | a placeholder anywhere in an accepted line leaves a byte with bit 128 set |
| Markers.SplitJoin | populate.py:93 | joining parts that contain no 0xFF with 0xFF, then splitting at 0xFF, gives the parts back |
| Markers.Pack | populate.py:91-96 | meta is None when all bytes are 0, and a failure when there are extras then; otherwise it splits back into the markup and the extras |
| Markers.PackRoundTrip | populate.py:91-96 | the meta blob splits back into the markup followed by the extras |
| Markers.AnnotatedLinePacks | populate.py:73-96 | a line that had an annotation cut out never fails `assert not extra`, and gets a meta blob |
| Markers.LineMetaRoundTrip | populate.py:79-96 | the meta blob of an accepted line splits back into its markup and its extras |
| Markers.Replace | populate.py:69-72 | `str.replace`: occurrences of the pattern, found left to right and never overlapping, each become the one replacement character; ReplaceChars and ReplaceOne state what this brings in and leaves |
| Markers.Substitute | populate.py:63-72 | the private-use assertion, then the `<i>`/`</i>` replacements, then, for kjav only, `[ ] { }`; SubstituteMarkers states its failure and what it keeps |
| Markers.PrepareLine | populate.py:63-75 | a raw line up to the scanner: Substitute, then the annotations cut out from the start, giving the line the scanner reads and the annotations in order; PrepareRoundTrip and PreparedBrackets state its properties |
| Markers.ProcessLine | populate.py:76-96 | a prepared line's text and `meta` column: the scan, then the packing of the markup with the annotations; LineMetaRoundTrip, AnnotatedLinePacks and ExtrasAreMarked state its properties |
| Markers.ReplaceChars | populate.py:69-72 | `replace` brings in the replacement and nothing else, and keeps every character the pattern does not contain |
| Markers.ReplaceOne | populate.py:71-72 | replacing a single character leaves none of it |
| Markers.SubstituteMarkers | populate.py:63-72 | the line fails the assertion exactly when it holds a character in U+E000..U+E00F; otherwise no placeholder comes out, the brackets are kept in every version but kjav, and none is left in kjav |
| Markers.CjkRunSpec | populate.py:74 | the CJK run is all CJK and maximal |
| Markers.GroupsAtChars | populate.py:74 | a run of annotation groups holds only parentheses and CJK characters |
| Markers.CutRestores | populate.py:73-75 | putting the collected annotations back in place of the placeholders gives the line; there is one placeholder per annotation, and each annotation is a parenthesised run |
| Markers.CutKeeps | populate.py:74-75 | a character no annotation can hold is in the cut line exactly when it is in the line |
| Markers.KeptChars | populate.py:79-88 | the scanner keeps exactly the characters of the line that are not markers |
| Markers.ScanKeeps | populate.py:79-89 | an accepted line's text holds a non-marker character exactly when the line does |
| Markers.PreparedBrackets | populate.py:63-75 | after the substitutions and the cut, a bracket is in the line exactly when it was in the raw line, except in kjav, where none is |
| Markers.BracketsReachText | populate.py:63-89 | a bracket of the raw line reaches the verse text exactly in the versions other than kjav |
| Markers.PrepareRoundTrip | populate.py:73-75 | the substituted line comes back from the prepared line and its annotations, one placeholder per annotation |
| Markers.ExtrasAreMarked | populate.py:73-96 | a line from which annotations were cut, once accepted by the scanner, never fails `assert not extra` and gets a meta blob |
| Ordinals.AssignOrdinals | populate.py:101-111 | over strictly sorted keys, every key gets (its index within its book, its ordinal), and nothing else is numbered; `minverse` and `maxverse` map every chapter that occurs to its least and greatest verse |
| Ordinals.NumberKey | populate.py:106-107 | one step numbers the next key and moves its book's counter on |
| Ordinals.NoteVerse | populate.py:108-109 | one step updates the least and greatest verse of the key's chapter |
| Ordinals.VerseBounds | populate.py:108-109 | `minverse` and `maxverse` cover the same chapters, and each least verse is at most the greatest |
| Ordinals.BooksContiguous | populate.py:105 | in sorted order each book's keys are contiguous |
| Ordinals.OrdinalMinusIndexConstant | populate.py:106-111 | within one book, ordinal minus index is the same for every verse |
| Ordinals.IndexStartsAtZero | populate.py:106-111 | a book's index is 0 exactly at its first verse, and runs without gaps |
| Ordinals.OrdinalsOf | populate.py:120 | the ordinals of one version's rows, in row order; OrdinalsInOrder states that sorted rows give sorted ordinals |
| Ordinals.MaxGap | populate.py:118-126 | `append_maxgap` for one version: the assertion that its ordinals are sorted, 0 when it has none, the `max` of an empty sequence when it has one, else the largest gap; LargestGap, MaxGapNonNegative and SortedDataPasses state its properties |
| Ordinals.LargestGap | populate.py:123 | the result is a difference of two consecutive ordinals, and no such difference is larger |
| Ordinals.MaxGapNonNegative | populate.py:121-126 | with sorted ordinals `maxgap` is never negative |
| Ordinals.OrdinalsInOrder | populate.py:113-121 | a version's ordinals keep the order of the rows, so sorted rows give sorted ordinals |
| Ordinals.SortedDataPasses | populate.py:113-126 | over data sorted by (version, ordinal), `maxgap` fails exactly for a version with a single verse |
| Daily.Book | populate.py:137 | the book lookup succeeds exactly for a string whose normalised form is a book alias |
| Daily.Bound | populate.py:146-148 | a chapter bound is found exactly for an integer chapter of the book in the map |
| Daily.OrdinalOf | populate.py:150-151 | an ordinal is found exactly when the (book, chapter, verse) key exists |
| Daily.ParseOne | populate.py:137-149 | the five-item form is used exactly when there are more than three items and the fourth is an int, and uses 5 items; otherwise 3 |
| Daily.ParseAll | populate.py:136-152 | a successful parse yields at most one range per three items |
| Daily.ParseRanges | populate.py:136-152 | the `while ranges:` loop computes `ParseAll` |
| Daily.ParseFlatten | populate.py:136-152 | parsing a flat list of readings resolves each reading in its own form; neither form is mistaken for the other |
| Daily.SortRanges | populate.py:153 | the result is a permutation of the ranges |
| Daily.SortRangesSorted | populate.py:153 | the result is sorted in tuple order |
| Daily.MergeFrom | populate.py:154-158 | a merge has between 1 and n ranges, from the first start to the last end; its only failure is the assertion |
| Daily.MergeRanges | populate.py:154-159 | the backward loop over the optional ranges computes `Merged` |
| Daily.MergeFailureSpreads | populate.py:154-155 | a failed assertion anywhere in the tail fails the whole merge |
| Daily.MergeSucceedsIff | populate.py:154-155 | the merge succeeds exactly when every range ends before the next begins |
| Daily.MergedApart | populate.py:154-159 | merged ranges are sorted, with at least one ordinal between neighbours |
| Daily.MergedCovers | populate.py:154-159 | merging keeps every range non-empty and covers exactly the same ordinals |
| Daily.ApartIsMerged | populate.py:154-158 | ranges that already have gaps between them are left as they are |
| Daily.MergeIdempotent | populate.py:154-158 | merging twice is merging once |
| Daily.DailyRanges | populate.py:135-159 | one code's stored ranges: parsed, sorted, merged, or the first failure |
| Daily.ReadingRanges | populate.py:135-159 | the parse, sort and merge steps for one code compute `DailyRanges` |
| Daily.DailyRangesIff | populate.py:135-159 | a code's ranges exist exactly when its items parse and the sorted ranges are separated; they then have gaps between them |
| Daily.Somes | populate.py:159 | `filter(None, ordranges)`: the ranges the merge kept, in order; MergeRanges states that the loop and this filter compute `Merged` |
| Daily.TopicsOf | populate.py:159-160 | one `('daily', code, o1, o2)` topic per merged range, in order |
| Daily.CollectTopics | populate.py:134-160 | the loop over the codes computes `AllTopics` |
| Daily.MissingTopicsSpread | populate.py:134-160 | a failure for an earlier code ends the whole run |
| HtmlText.BitsOfWord | bible.py:29-33 | each of the bits 256, 128, 2 and 1 of a flag word is set exactly when the matching field is |
| HtmlText.WordInjective | bible.py:48 | two flag values are equal exactly when their words are, so comparing words compares flags |
| HtmlText.Decode | bible.py:24-25 | a markup byte becomes flags without the mark bit, whose word is the byte |
| HtmlText.SetMarkSetsBit256 | bible.py:42 | `flags \|= 256` sets bit 256 and keeps every other bit |
| HtmlText.FindFrom | bible.py:39 | `find` returns the first occurrence at or after the start, or -1 when there is none |
| HtmlText.HighlightQuery | bible.py:36-42 | the loop fails exactly when an occurrence runs past the flag list; otherwise it adds bit 256 to exactly the characters inside an occurrence, overlapping ones included |
| HtmlText.HighlightMarksExactlyQuery | bible.py:36-42 | with a query, a character's word gains 256 exactly when the character lies inside an occurrence |
| HtmlText.FirstChange | bible.py:56-73 | the first cascade position (mark, i, strong, em) where the flags differ: all earlier positions agree, and it differs there |
| HtmlText.CascadeTags | bible.py:52-73 | the four `cascade` blocks close and open exactly the tags from the first changed position inward |
| HtmlText.TransitionNests | bible.py:56-77 | the tags emitted between two runs turn the open tags of the old flags into those of the new flags, closing innermost first |
| HtmlText.InitialFlags | bible.py:24-27 | without markup every flag is 0; with markup each flag's word is its byte |
| HtmlText.FilterHtmlText | bible.py:21-81 | the method computes `Filter`: highlight in a fresh flag list, then render |
| HtmlText.RenderRuns | bible.py:44-81 | the render loop with its sentinel emits the token stream `RunsFrom` from the start with flags 0 |
| HtmlText.RenderChar | bible.py:47-79 | one pass either extends the run or flushes it and emits the transition, and leaves the rest of the stream unchanged |
| HtmlText.RenderSentinel | bible.py:47-77 | the sentinel flushes the last run and closes every open tag |
| HtmlText.ChangeTokens | bible.py:48-79 | on a change of flags, the stream is the pending text, then the transition, then a new run |
| HtmlText.SameTokens | bible.py:79 | equal flags only extend the pending text |
| HtmlText.RunsNest | bible.py:44-81 | from any point, the stream reads as the pending text, then each later character inside the tags of its own flags, and closes everything |
| HtmlText.FilterRendersEachCharacter | bible.py:21-81 | the output is well nested, closes every tag it opens, and shows each character once and in order inside exactly the tags its flags select, mark outermost and em innermost |
| HtmlText.NoMarkupNeverFails | bible.py:22-27 | without markup the filter never fails |
| HtmlText.FailureNeedsShortMarkup | bible.py:36-42 | the only failure is an IndexError: markup shorter than the text, with an occurrence of the query past its end |
| HtmlText.ExampleRender | bible.py:21-81 | flags [0,1,1,0,128] on "abcde" render as `a<em>bc</em>d<i>e</i>` |
| HtmlText.ExampleEm | bible.py:70-73 | from 0 to 1 opens `<em>`, and back closes it |
| HtmlText.ExampleItalic | bible.py:62-65 | from 0 to 128 opens `<i>`, and back closes it |
| HtmlText.PopAll | bible.py:76 | closing the open tags innermost first pops exactly them |
| HtmlText.PushAll | bible.py:77 | opening tags in order pushes exactly them |
| Reference.RefAt | bible.py:237-250 | the part of the pattern after the book: `\s*`, then `c`, `c-c2`, `c:v`, `c:v-n` or `c:v-c2:v2` with `-` or `~` and no inner whitespace, then `\s*$`; None when that does not match; RefRoundTrip and the Read lemmas state what it reads |
| Reference.DirectMatch | bible.py:236-239 | `re.search` of the whole pattern, anchored at the start after any whitespace: the first book, in list order, whose `ko` abbreviation is followed by an address that matches; MatchFromFirst, MatchFromNone and MatchFromSkips state its choice |
| Reference.SkipSpaceSpec | bible.py:237 | `\s*` stops after the whole run of ASCII whitespace |
| Reference.DigitEndSpec | bible.py:237-238 | `\d+` stops after the whole run of ASCII digits |
| Reference.NumberSpells | bible.py:243-248 | over a run of digits, `int()` is the value of those digits |
| Reference.MatchFrom | bible.py:236-238 | the book alternation from alternative n on: the first book, in list order, whose `ko` starts at the position and is followed by an address that matches |
| Reference.MatchFromFirst | bible.py:236-239 | the alternation picks the first book in list order with which the whole pattern matches, and reads the address after it |
| Reference.MatchFromNone | bible.py:236-239 | the pattern fails only when no book alternative matches |
| Reference.MatchFromSkips | bible.py:236-239 | alternatives that do not match are passed over |
| Reference.Search | bible.py:229-267 | a blank query goes home; otherwise a direct match redirects to its reference in the book `from_value` finds for the matched abbreviation, else a book found by `from_value` on the query is viewed, else the stripped query is a full-text search |
| Reference.ShippedBooksHaveKo | mappings.py:142-209 | every shipped book has a `ko` abbreviation, all Hangul syllables; so none holds a regular-expression metacharacter, and the unescaped join at bible.py:236 matches each literally, as the scanner reads it |
| Reference.KoIsAlias | bible.py:240 | a book's `ko` abbreviation is one of its aliases, so `from_value` on group 1 never raises |
| Reference.RefRoundTrip | bible.py:237-259 | any reference written as `c:v`, `c:v-n`, `c1:v1-c2:v2`, `c` or `c1-c2`, with `-` or `~` between the parts and no whitespace around it, and with any whitespace before or after the address, is parsed back as itself |
| Reference.ReadReference | bible.py:241-259 | scanned lexemes are read as the reference they spell |
| Reference.ReadOneChapter | bible.py:254-259 | `c` alone is chapter c |
| Reference.ReadChapterRange | bible.py:254-257 | `c1-c2` is the chapter range |
| Reference.ReadOneVerse | bible.py:241-252 | `c:v` is the verse v of chapter c |
| Reference.ReadShortRange | bible.py:245-250 | `c:v1-v2` is the verse range within chapter c (`chap2 or chap1`) |
| Reference.ReadLongRange | bible.py:245-250 | `c1:v1-c2:v2` is the verse range across chapters |
| Reference.DirectReference | bible.py:236-260 | book n's abbreviation, whitespace and a written reference redirect to that reference in the book `from_value` finds, unless an earlier book's abbreviation already matches the whole pattern |
| Reference.PatternShapes | bible.py:237-238 | concrete examples of each shape the pattern reads |
| Reference.PatternRefusals | bible.py:237-238 | a dangling separator, a missing verse, a letter after the digits and an empty address are refused |
| Views.Selects | bible.py:303-307 | the where-clause of `do_view_verses` on a row (b, c, v): the book number, then (c, v) not before (chapter1, verse1) and not after (chapter2, verse2), spelt out as the SQL does; SelectsLexRange states that this is the inclusive lexicographic range |
| Views.SelectsLexRange | bible.py:304-305 | the where-clause selects the book's rows from (chapter1, verse1) to (chapter2, verse2), both included, in tuple order |
| Views.TupleLePair | bible.py:327 | on pairs, tuple order is lexicographic order |
| Views.BookIndex | bible.py:112-113 | `book_index` is the book's position in the books table |
| Views.VerseWindow | bible.py:317-319 | the query window of `view_verse`: the book's index, from verse-5 to verse+5 of the same chapter; ViewVerseShows states which rows it selects |
| Views.VerseHighlight | bible.py:318 | the highlight lambda of `view_verse`: the book number matches and (c, v) == (chapter, verse); ViewVerseShows states which verse it picks |
| Views.RangeWindow | bible.py:326-328 | the query window of `view_verses`: the book's index, from (chapter1, verse1-5) to (chapter2, verse2+5) |
| Views.RangeHighlight | bible.py:327 | the highlight lambda of `view_verses`: the book number matches and (chapter1, verse1) <= (c, v) <= (chapter2, verse2) in tuple order; ViewVersesShows states which verses it picks |
| Views.ViewVerseShows | bible.py:313-319 | `view_verse` fetches the eleven verses around the one asked for, in its chapter, and highlights exactly that verse, which is among the rows |
| Views.ViewVersesShows | bible.py:321-328 | `view_verses` highlights exactly the lexicographic range asked for, and every highlighted verse is among the fetched rows |
| Views.RowAfter | bible.py:176-192 | the row dict `render_verses` makes of a verse: the book entry at the verse's index, chapter and verse, class `cont` exactly when `prev` is (book, chapter, verse-1), an empty prefix, and the text and markup of both versions; FollowsPrev states the `cont` test |
| Views.FollowsPrev | bible.py:179-192 | the `cont` test on the previous row holds exactly when the verse directly follows the previous one in the same book and chapter |
| Views.GroupedSections | bible.py:162-196 | each section is a non-empty run of consecutive verses, all highlighted or all not, classed `highlight` exactly in the first case |
| Views.GroupedClassesDiffer | bible.py:168-173 | neighbouring sections are classed differently, so each section is a maximal run |
| Views.CloseRun | bible.py:193-196 | closing the open run as a section keeps the rows in order and the grouping |
| Views.AddRow | bible.py:175-191 | adding a verse's row to an equally highlighted run keeps the state |
| Views.RenderStep | bible.py:166-192 | one iteration: a change of highlight closes the run (if it has rows) and starts a new one; the verse's row joins the open run |
| Views.RenderOne | bible.py:167-192 | the loop body computes the highlight and the new run and sections as `RenderStep` describes |
| Views.RenderVerses | bible.py:158-199 | the rows of the sections are the verses' rows in order, one per verse, and the sections are the maximal runs of equally highlighted verses, classed `highlight` exactly when highlighted |
| Views.Partition | bible.py:131 | `partition(',')` splits at the first comma, and gives the whole string and "" when there is none |
| Views.PartitionJoin | bible.py:131 | a comma-free head and any tail come back from `partition` unchanged |
| Views.NormalizeUrl | bible.py:129-156 | fails exactly when the first version and `DEFAULT_VER` both miss; otherwise the first version is in the table and a second version differs from it in code |
| Views.FirstVersion | bible.py:131-135 | `g.version1`: `from_any` of the text before the comma, or `from_code(DEFAULT_VER)` when that raises; NormalizeVersions and NormalizeFallsBack state its properties |
| Views.SecondVersion | bible.py:136-140 | `g.version2`: `from_any` of the text after the comma, dropped when that raises or compares equal to the first; NormalizeVersions states its properties |
| Views.VersionString | bible.py:141-142 | the normalised `v`: the first code, then a comma and the second when there is one, and "" for `DEFAULT_VER` alone; VersionStringEmpty and VersionStringReads state its properties |
| Views.NormalizeVersions | bible.py:130-140 | the first version is `from_any` of the text before the comma, or `DEFAULT_VER`'s entry when that misses; the second is kept exactly when it resolves to a different code |
| Views.NormalizeVersionEmpty | bible.py:141-142 | the normalised `v` is empty exactly when `DEFAULT_VER` alone is selected |
| Views.NormalizeArgs | bible.py:145-153 | the normalised arguments: a `Normalizable` one as its `after` value, any other as its string |
| Views.BookRewritten | bible.py:146-151 | some `Normalizable` argument whose `after` differs from its `before`, which sets `need_redirect`; NormalizeRedirects and PlainArgs state both |
| Views.NormalizeRedirects | bible.py:144-153 | books become their codes and other arguments are kept; a redirect happens exactly when the normalised `v` differs from the request's or some book was not written as its code |
| Views.VersionStringEmpty | bible.py:141-142 | the written `v` is "" exactly for `DEFAULT_VER` alone |
| Views.NormalizeFallsBack | bible.py:132-135 | with a well-formed table `normalize_url` never raises, and an unresolvable first version falls back to `DEFAULT_VER` |
| Views.VersionStringReads | bible.py:130-142 | the written `v`, read again, names the same versions |
| Views.NormalizeIdempotent | bible.py:129-156 | following the redirect changes nothing: the same versions, the same `v` and arguments, and no further redirect |
| Views.NormalizePlain | bible.py:144-153 | a `v` that reads back as itself, with plain arguments, is left as it is and not redirected |
| Views.PlainArgs | bible.py:152-153 | plain arguments are kept as they are and never cause a redirect |

## Left out

- Flask, Werkzeug and Jinja: routes, `url_for`, `redirect` and `abort`, `render_template`, and `BookConverter`. A redirect is a flag. The template receives the sections as values.
- The `Markup` type and its HTML escaping. The filter's output is a token stream (text, open tag, close tag), and `Html` spells it without escaping.
- SQLite: `database()`, `execute_verses_query` and the schema and inserts. The rows a view fetches are an input sequence. The where-clause is modelled as a predicate on a row.
- File, archive and progress I/O in populate.py: JSON, CSV, bz2, glob and stderr. The daily-reading data and the verse keys are inputs.
- The general regular-expression engine. The `search` pattern is a hand-written scanner over the books' `ko` abbreviations. The CJK-annotation pattern of populate.py:74 is a hand-written scanner too (Markers.Cut). The annotations it collects are passed to the `meta` packing as bytes; their UTF-8 encoding at populate.py:93 is not modelled.
- `build_query_suffix`, `compile_less`, `Entry.__repr__` and the dynamic `__getattr__`. Keyword fields are a map.
- UTF-8 encoding and decoding. Strings are sequences of code points, and the `meta` column is a byte sequence.
- TextUtil.Lower and TextUtil.Upper: only ASCII letters change case. Python's `lower()`/`upper()` on unicode also map other cased letters. No code or alias in the shipped tables has such letters: they are ASCII or Hangul, which has no case.
- Views.NormalizeUrl: the versions table is a parameter. The shipped table meets the conditions the lemmas assume, as CatalogData.ShippedVersionTable shows. View arguments other than books are kept as strings, not as the Python values `str()` would write.
- Views.RenderVerses: a verse's `book` indexes the books table only when it is in range (the lemma's precondition). A negative index, which Python would count from the end, is not modelled.
- Daily.MergedCovers: coverage is proved for ranges whose start is at most their end. The code does not check this. For a reversed range the merge can change which ordinals are covered.
- Reference.DirectReference: it is stated for queries where no earlier book's abbreviation matches the whole pattern. Reference.MatchFromFirst covers the general case.
- Catalog.Entry.AllValues: only text fields become aliases. Python adds the value of every public keyword field, and `_refresh` would then raise AttributeError at `val.split()` (mappings.py:47) for a value that is not a string. The shipped versions table has no such field (CatalogData.VersionPublicFields); the books table has only string fields as well, which is not proved.
- Reference.Search: the `normalize_url('.search')` redirect at bible.py:233 is not modelled here; Views.NormalizeUrl models `normalize_url` itself.
- Daily.CollectTopics: the codes are taken in the order given. populate.py:134 loops over `sorted(dailydata.items())`, so the caller is taken to pass them sorted by code; another order would change only the order of `topics` and which failure is reported first.
- Concurrency of Flask requests over the shared `Entries` caches. The class is modelled single-threaded.
