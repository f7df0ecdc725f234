# Tamayame dictionary editor — a Dafny model of its deterministic core

The Tamayame dictionary editor is a Flask and PostgreSQL application. Linguists use it to record verb entries and
example sentences of Tamayame, which are built from morphemes that fill the slots of a verb template
(100, 200, 300, TA, ROOT, 400, 500, 600, B). Once every SQL query is replaced by its result set, given
as a sequence of records, four groups of sequential, deterministic logic remain. This project
models them as pure Dafny functions and proves what the code promises about them.

1. **Template catalog and matcher.**
   - `Catalog` holds the 68 verb templates (ids 51-118) as families of slot skeletons, and proves the catalog's static invariants.
   - `Matcher` covers:
     - the first-wins exact match of a slot list;
     - the `validate_template_slots` answer;
     - the `validate_stem` report;
     - the `add_example` save path, with its TA guard, its 1..k ordering loop and what each outcome leaves committed.
   - `TemplateCsv` parses the `slot_order` array literal that the catalog was generated from.
2. **Allomorph option chains.**
   - `Prmp` is the slot-100 priority chain: voice membership, then benefactive, then intransitive class codes, then the transitive fallback.
   - `Suffix` is the 200/400/500/600 chain, including its option labels.
   - `Allomorphs` holds the person/person gloss test, the transitive and intransitive shapes, and `DISTINCT ON (davis_id)`.
3. **Reconciliation of an example.**
   - `Reconcile` covers what `fetch_example_full` does after its queries:
     - A/B placement;
     - slotted card buckets with legacy fallback;
     - the stored UR timeline;
     - the fractional injection of legacy PRMP and TA blocks;
     - the final stable sort.
   - `ExampleDetail` is the route's re-tiling of that result.
   - `StemReport` is the Python aggregation of the stem report.
4. **Normalisers.** Each is modelled separately, because the three number-alias normalisers disagree:
   - `Lookups.NormalizeTaNumber`, plus the TA lookup's WHERE/LIMIT assembly;
   - `Intransitive.NormNumber`, plus the class letter, primary-key pick and per-number map;
   - `AllowedNumber.NormNumberToAllowed`;
   - `Core.NormalizeMorpheme`;
   - `Mutations`, for the payload and position/category checks.

Shared modules:
- `Wrappers` provides `Option` and `Result`.
- `Text` provides Python's `strip`, ASCII `lower`/`upper`/`title`, `split`/`join` and `int()`.
- `Ordering` provides lexicographic sort keys and a stable insertion sort, which stands in for SQL `ORDER BY` and Python's `list.sort`.
- `Dedup` provides first-occurrence deduplication, the fold of `_push_dedup`.

SQL semantics in the model:
- A SQL `WHERE` is a predicate over a table sequence.
- `ORDER BY` is `Ordering.SortByKey`, which is stable. Rows that SQL leaves tied keep their table order.
- `DISTINCT ON` keeps the first row of each key after sorting.

## Model

| member | source | states |
|---|---|---|
| Catalog.At | template_defs.py:3-884 | Entry i of the catalog has template id 51 + i, and it is transitive exactly for the first 48 entries (ids 51-98). |
| Catalog.Templates | template_defs.py:3-884 | The catalog has 68 templates, in increasing id order. |
| Catalog.CatalogWellFormed | template_defs.py:7-882 | Every template's slot list has TA exactly once and ROOT exactly once, and uses only the nine slot names. Either TA is immediately followed by ROOT, or ROOT is the first slot. A ROOT-first template is intransitive, and B occurs only in transitive templates. |
| Catalog.FamilyWellFormed | template_defs.py:52-883 | Every slot choice within one of the six template families yields a well-formed slot list of that family's transitivity. |
| Catalog.FindById | template_defs.py:3-884 | A lookup by id returns a catalog template with that id, or None when no template has it. |
| Catalog.FindByIdPosition | template_defs.py:5-873 | Ids are 51..118 in order: an id in that range finds entry id − 51, and any other id finds nothing. |
| Catalog.ParseSlot | template_defs.py:7-882 | Parsing a slot name gives the slot with that name, or None exactly when no slot is named so. |
| Catalog.NamesInjective | template_defs.py:7-882 | Two slot lists are equal exactly when their name lists are equal. |
| Catalog.SlotsUniqueWithinTransitivity | template_defs.py:3-884 | Two different templates of the same transitivity (both among ids 51-98, or both among 99-118) never have the same slot list. |
| Catalog.SlotsRepeatAcrossTransitivity | template_defs.py:4-14 | 51 and 99 share 100-TA-ROOT, and 83 and 107 share 200-TA-ROOT, each pair across transitivities. So sequences are not unique over the whole catalog. |
| Catalog.EveryEntryHasTa | template_defs.py:7-882 | Every template's slot order names TA. |
| Catalog.FirstEntry | template_defs.py:4-14 | Template 51 is transitive, with slot order 100, TA, ROOT. |
| Matcher.FirstMatch | app.py:706-708 | The index found has exactly the submitted slot order, and no earlier template has it. None means that no template has it. |
| Matcher.Match | app.py:706-708 | A match is the first catalog template whose slot order equals the submitted list. None means that no template's order equals it. |
| Matcher.MatchFirstWins | app.py:706-708 | Whenever some template has the submitted order, a match exists. Any other template with that order has a larger id and the other transitivity. |
| Matcher.MatchPrefersFirst | app.py:706-708 | 100, TA, ROOT matches template 51 (transitive), never 99. |
| Matcher.MatchNeedsTa | app.py:706-708 | A slot list without TA matches no template. |
| Matcher.ValidateTemplateSlots | app.py:1728-1743 | An empty list gives "No slots received.". Otherwise the answer is the first matching template's id, name and slots, or no match exactly when none matches. |
| Matcher.CompareSlots | app.py:1708-1716 | One matched-or-missing line per expected slot, in template order, followed only by "Unexpected" lines for detected slots outside the template. |
| Matcher.ExpectedLines | app.py:1709-1713 | Line i is about expected slot i. It is "matched" exactly when that slot was detected. |
| Matcher.ExtraLines | app.py:1714-1716 | Every extra line is an "Unexpected" line naming a detected slot that the template lacks. Every such slot gets a line. |
| Matcher.CompareSlotsByMembership | app.py:1708-1716 | The per-slot lines, and the set of unexpected lines, depend only on which slots were detected, not on their order or multiplicity. |
| Matcher.CompareSlotsExact | app.py:1708-1716 | When the detected set equals the template's set, every line is "matched". |
| Matcher.DetectedSlots | app.py:1687-1695 | The detected slots are the upper-cased stored slots, each once, in ascending order. |
| Matcher.DetectedSlotsExactly | app.py:1687-1695 | Every stored slot appears upper-cased among the detected slots, and every detected slot comes from one. |
| Matcher.ValidateStem | app.py:1667-1726 | There are three outcomes: no linked template, a linked id missing from the catalog (each with its message), or the report. The report holds the template's slots and name, the detected slots and the comparison lines. |
| Matcher.ValidateStemKnownIds | app.py:1699-1701 | A linked id is reported as not found exactly when it lies outside 51..118. |
| Matcher.IdAt | app.py:741-743 | A missing, "" or "0" id is no id. Any other id is its parsed integer, and a text that is not an integer is a failure (the `ValueError` of `int()`). |
| Matcher.RowsUpTo | app.py:739-751 | The rows written for the first n positions carry orderings 1..k in submission order. The rows succeed exactly when every id in those positions parses. |
| Matcher.Positions | app.py:739-751 | The positions selected are exactly the ones below n that satisfy the test, in increasing order. |
| Matcher.WrittenPositions | app.py:739-751 | The rows are written exactly for the positions with at least one id, in increasing order. |
| Matcher.RowsAreWrittenPositions | app.py:739-751 | Row j is the slot and ids of the j-th position with an id. Positions whose three ids are all blank, "0" or missing are skipped. |
| Matcher.MorphemeRows | app.py:733-751 | The loop fails exactly when some position holds an id that is not an integer. Otherwise it yields the rows of RowsUpTo, numbered 1..k. |
| Matcher.ExampleRowOf | app.py:534-537 | The example row carries the assigned id, the entry and the four texts trimmed, with "" for a missing comment. |
| Matcher.TemplateLinks | app.py:726-731 | A template link is written exactly when a template matches, with that template's id. |
| Matcher.SavedWrites | app.py:711-753 | A complete save commits the example row, its entry link, the template link when a template matches, and the morpheme rows of RowsUpTo; every committed example is linked to its entry. |
| Matcher.AddExample | app.py:686-755 | The save as written: <br>• a slot list without TA is rejected with its message and writes nothing; <br>• a morpheme id that does not parse is a server error that leaves exactly the example row committed (it was committed by `insert_example` at line 711), with no links and no morpheme rows; <br>• otherwise the example row, its entry link, the matching template's link (if any) and the rows numbered 1..k are committed. |
| Matcher.AddExampleOrphansExample | app.py:711-743 | As written, every failed save of a TA form commits one example row that has no entry link. |
| Matcher.AddExampleOrphanWitness | app.py:711-743 | Slots 100, TA, ROOT with ROOT id "x" leave an orphaned example row. |
| Matcher.AddExampleAtomic | app.py:686-755 | The save as intended: the same three outcomes, but a failed save commits nothing; a successful save writes exactly what AddExample writes. |
| Matcher.AddExampleAtomicKeepsLinks | app.py:711-724 | Under the intended save, every committed example row has its entry link, and an example row is committed exactly when the save succeeds. |
| TemplateCsv.StripBraces | generate_template_defs.py:19 | Only the braces at the two ends are removed. The result is the middle section of the input, with no brace at either edge. |
| TemplateCsv.Tokens | generate_template_defs.py:20 | No token is empty or has edge whitespace, and there are no more tokens than parts. |
| TemplateCsv.TokensSound | generate_template_defs.py:20 | Every token is the trimmed text of some part. |
| TemplateCsv.TokensComplete | generate_template_defs.py:20 | Every part whose trimmed text is non-empty gives a token. |
| TemplateCsv.TokensConcat | generate_template_defs.py:20 | The comprehension works part by part: the tokens of a + b are the tokens of a followed by those of b, so part order is kept. |
| TemplateCsv.TokensOfOne | generate_template_defs.py:20 | One part gives its trimmed text, or nothing when that is empty. |
| TemplateCsv.SlotOrder | generate_template_defs.py:19-20 | Every token is non-empty, has no edge whitespace and no comma, and there are at most commas + 1 tokens. |
| TemplateCsv.SlotOrderPadded | generate_template_defs.py:19-20 | Padding and empty pieces are dropped: `{ TA , ,ROOT}` gives TA, ROOT. |
| TemplateCsv.SlotOrderRoundTrip | generate_template_defs.py:19-20 | Parsing "{" + the comma-joined tokens + "}" gives back those tokens, for non-empty tokens without commas, braces or edge whitespace. |
| TemplateCsv.ParseRow | generate_template_defs.py:15-31 | A row parses exactly when it has an integer template_id, a name and a slot_order. Type defaults to "verb" and transitivity to "" when the column is absent. |
| TemplateCsv.ParseExportRoundTrip | generate_template_defs.py:15-31 | Exporting a template record as a CSV row and parsing the row gives back the record. |
| Allomorphs.ScanPersonPairDecides | app.py:1077 | The scan finds a match exactly when the gloss contains a digit 1-3, then "/", then a digit 1-3, at the start or after a non-digit (the regex `(^\|[^0-9])[123]/[123]`). |
| Allomorphs.PersonPairExamples | app.py:1077 | "1/3" and "A1/2" are person/person glosses, and "11/2x" is not. |
| Allomorphs.ShapesDisjoint | app.py:1115-1190 | No allomorph is both transitive-shaped and intransitive-shaped. |
| Allomorphs.UnmarkedIsInOne | app.py:1115-1190 | An unmarked PRMP with a gloss is transitive-shaped exactly when it is not intransitive-shaped. |
| Allomorphs.DistinctOnDavisFacts | app.py:1109-1124 | DISTINCT ON keeps at most one row per davis_id. Every kept row is an input row, and every input davis_id keeps a row. |
| Allomorphs.DistinctOnDavisPicksShortest | app.py:1124 | The row kept for a davis_id has the shortest form of its group. Ties go to the lowest allomorph id. |
| Allomorphs.DistinctOnDavisKeeps | app.py:1109-1124 | A property of every input row holds for every kept row. |
| Prmp.PrmpOptions | app.py:1041-1236 | The chain has five outcomes, each under its exact condition: <br>• slot ≠ 100 gives a 400 status, "unsupported-slot" and no options; <br>• a non-empty REFL/PASS result gives voice membership; <br>• otherwise has_b gives the benefactive list, even if empty; <br>• otherwise an intransitive entry gives its class list, or "intrans-missing-code" with no options; <br>• otherwise the transitive fallback. |
| Prmp.EmptyVoiceFallsThrough | app.py:1066-1088 | An empty REFL/PASS result gives the same answer as no voice at all. |
| Prmp.MissingCodeStops | app.py:1160-1162 | An intransitive entry with no class code for the TA number returns empty options tagged "intrans-missing-code", never the fallback. |
| Prmp.PrmpOptionsShapes | app.py:1066-1223 | Every option comes from the allomorph table. <br>• Voice options are single-person. <br>• Benefactive and fallback options are transitive-shaped, and intransitive options are intransitive-shaped. <br>• Outside voice membership, there is at most one option per davis_id. |
| Prmp.BenefactiveAndIntransitiveApart | app.py:1109-1223 | No allomorph is offered both by a benefactive or fallback answer and by an intransitive answer. |
| Prmp.BenefactiveRowsFacts | app.py:1109-1124 | Benefactive rows are transitive-shaped table rows of the entry's paradigm class, one per davis_id. Each has the shortest form among the qualifying rows with its davis_id, and the smallest id among those of that length. |
| Prmp.IntransRowsFacts | app.py:1165-1195 | Intransitive rows are intransitive-shaped table rows whose davis_id matches a code of the class in scope, one per davis_id. |
| Prmp.FallbackRowsFacts | app.py:1209-1223 | Fallback rows are transitive-shaped table rows, one per davis_id. |
| Prmp.VoiceRows | app.py:1069-1079 | Voice rows are single-person table rows, ordered by davis_id, form length and id. |
| Prmp.VoiceJoin | app.py:1069-1079 | Every joined row is a single-person table row listed as a member of the requested voice. |
| Prmp.TClass | app.py:1094-1102 | The benefactive class is the entry's class when it is set and non-zero, and 1 otherwise. |
| Prmp.ClassCodeFor | app.py:1150-1160 | `LIMIT 1` over the entry's class rows: a code found is that of the first row whose lower-cased number equals the TA number, and no earlier row matches; none is found when no row matches. |
| Prmp.Prefix3 | app.py:1180 | The three-digit base, when present, is the first three characters of the davis_id. |
| Prmp.Scopes | app.py:1139-1145 | The number scopes always include the TA number itself. |
| Prmp.IntransitiveArgCaseInsensitive | app.py:1050 | The intransitive path is taken exactly when the transitivity argument (default "Transitive") lower-cases to "intransitive". |
| Suffix.FirstFamily | app.py:1268 | The family is the text of the trimmed series before its first comma: a comma-free prefix of the trimmed series that is either all of it or is followed by a comma. |
| Suffix.FirstFamilySingle | app.py:1268 | A single family with surrounding whitespace and no comma is its own first family. |
| Suffix.FirstFamilyPadded | app.py:1268 | " 400 " names the 400 family. |
| Suffix.FirstFamilyOf | app.py:1268 | For a comma-free first element a, the family of "a,b" is a. |
| Suffix.FamilyCode | app.py:1299-1302 | A family code exists exactly when the family starts with 4, 5 or 6. It is the three-character code of that digit. |
| Suffix.SubclassOf | app.py:1346-1348 | The subclass is the entry's subclass id when it is set and non-zero, and None otherwise. |
| Suffix.Label | app.py:1286-1287 | A label starts with the form. <br>• Without a davis_id, it adds " (gloss)", or the no-gloss text when there is no gloss. <br>• A davis_id adds " — davis_id" at the end. |
| Suffix.LabelAppendsDavis | app.py:1286-1287 | A truthy davis_id only appends " — davis_id" to the label the row has without one; any other davis_id leaves that label as it is. |
| Suffix.FutureLabelWithoutGloss | app.py:1286 | A future option without gloss or davis_id is labelled form + " (FUT)". |
| Suffix.ToOptions | app.py:1321-1333 | One option per row, in row order. Each option keeps its row's id and form and carries the requested slot code and source. Its gloss and davis_id are the row's, or the row's with NULL as "" when the query coalesced them. Its label is built from the form and those two values. |
| Suffix.SuffixOptions | app.py:1266-1414 | A family starting with 2 gives series ["200"] of future options. A family code gives that single series. Anything else gives an empty series with no options. Every option's slot_code is the series' code. |
| Suffix.FamilyOptions | app.py:1304-1414 | Every option of a family carries that family as slot_code. |
| Suffix.SuffixSteps | app.py:1304-1414 | 500 with PASS or include_all_500 gives only passive-any-500 options. Otherwise a non-empty subclass result is the answer. Otherwise only category options are given. |
| Suffix.SubclassOptionsInFamily | app.py:1352-1383 | Subclass options keep only davis_ids that start with the family digit. Family 600 never takes the subclass path. |
| Suffix.CategoryRowsMatch | app.py:1386-1399 | Category rows are table rows whose lower-cased category is in the family's category map. |
| Suffix.RowsSorted | app.py:1281 | Future rows are sorted by davis_id with nulls last, then form. Passive and category rows are sorted by davis_id, with null as "ZZZ", then form. |
| Suffix.UnknownFamilyEmpty | app.py:1300-1302 | A family not starting with 2, 4, 5 or 6 gives an empty series and no options. |
| Dedup.PushDedup | db/examples_dal.py:7-15 | The bucket is a prefix of the result, which is at most one longer; the extra element, when there is one, is the item, and it is there exactly when no item of the bucket had its key. The result always has the item's key. |
| Dedup.PushDedupKeys | db/examples_dal.py:7-15 | Every key of the result is the item's key or a key the bucket already had. |
| Dedup.PushDedupKeepsUnique | db/examples_dal.py:7-15 | A duplicate-free bucket stays duplicate-free. |
| Dedup.DedupByFirstOccurrences | db/examples_dal.py:7-15 | Folding the push over a sequence keeps exactly one item per key: the key's first occurrence, in first-occurrence order. |
| Dedup.DedupByUnique | db/examples_dal.py:7-15 | A sequence that is already duplicate-free is kept as it is. |
| Dedup.DedupByIdempotent | db/examples_dal.py:7-15 | Deduplicating twice equals deduplicating once. |
| Reconcile.IndexOf | db/examples_dal.py:285-289 | The index found is the first position of the slot, and None means the slot is absent. |
| Reconcile.SlottedPositions | db/examples_dal.py:284 | The positions of exactly the rows with a non-empty slot, in increasing order. |
| Reconcile.Observed | db/examples_dal.py:284 | The k-th observed slot is the upper-cased slot of the k-th row that has a slot, and there is one per such row. |
| Reconcile.BStyleMeans | db/examples_dal.py:284-293 | B-style holds exactly when TA is observed and some ROOT occurs before the first TA. |
| Reconcile.RowCard | db/examples_dal.py:300-324 | A row gives a card only as a TA row with a TA form, a ROOT row with a segment, or an affix-slot row with an allomorph form, filed under its slot. B rows never give one. |
| Reconcile.RowBucketsAreDedups | db/examples_dal.py:300-324 | The bucket of a slot is the deduplicated list of that slot's row cards. It exists exactly when the slot has some card. |
| Reconcile.NoBCards | db/examples_dal.py:318 | B rows never produce a card or a bucket. |
| Reconcile.CardSources | db/examples_dal.py:326-345 | A slot's bucket comes from the rows when they give cards. Legacy PRMP cards fill 100, and legacy TA cards fill TA, only when the rows give none. No other slot is filled from legacy tables. |
| Reconcile.LegacyTaCards | db/examples_dal.py:338-345 | Legacy TA cards keep the form of their rows and have no davis_id. |
| Reconcile.LegacyPrmpCards | db/examples_dal.py:328-334 | Legacy PRMP cards keep the form and davis_id of their rows. |
| Reconcile.CardBuckets | db/examples_dal.py:347-349 | Every bucket is sorted by ordering and is a permutation of the unsorted bucket. |
| Reconcile.CardBucketsUnique | db/examples_dal.py:296-349 | Every bucket holds at most one card per (form, ur_gloss, davis_id). |
| Reconcile.NewBlock | db/examples_dal.py:27-32 | A block keeps segment, position and ordering, and its gloss is stripped. |
| Reconcile.UrAdd | db/examples_dal.py:18-33 | An empty segment changes nothing. Otherwise the block is appended exactly when its (segment, stripped gloss, position) is new, and the seen set keeps tracking the blocks. |
| Reconcile.UrAddConsistent | db/examples_dal.py:25-32 | Adding a block with a new key keeps the seen set equal to the keys of the blocks. |
| Reconcile.RowSegment | db/examples_dal.py:356-364 | A row contributes its TA form at position TA first, else its allomorph form, else its segment. A row with none of them contributes nothing. |
| Reconcile.StoredUrIsDedup | db/examples_dal.py:351-364 | The stored timeline is the rows' contributions, deduplicated by (segment, gloss, position). |
| Reconcile.Orders | db/examples_dal.py:369-370 | The orderings collected are exactly those of the blocks at the given position. |
| Reconcile.MinOr | db/examples_dal.py:374 | The minimum, or the default for an empty list. |
| Reconcile.Max | db/examples_dal.py:372 | The maximum of a non-empty list. |
| Reconcile.LegacyIgnored | db/examples_dal.py:366-391 | When the rows already give a 100 block, legacy PRMP rows change nothing. When they give a TA block, legacy TA rows change nothing. |
| Reconcile.InjectedPrmpOrdering | db/examples_dal.py:366-377 | When 100 is injected, every 100 block has the same ordering: max(ROOT) + 0.5 in B-style with ROOT blocks, and min(TA ∪ ROOT, default 0) − 0.5 otherwise. |
| Reconcile.InjectedTa | db/examples_dal.py:379-391 | When TA is injected, the only TA block is the first legacy TA row, at max(ROOT) + 0.75 (B-style), else min(ROOT) − 0.75, else −1.0. |
| Reconcile.AStyleTaBefore100 | db/examples_dal.py:366-394 | In A-style, when both 100 and TA are injected, no TA block follows a 100 block. |
| Reconcile.BStyle100AfterRoot | db/examples_dal.py:366-394 | In B-style with ROOT blocks, an injected 100 block is never followed by a ROOT block. |
| Reconcile.Morphemes | db/examples_dal.py:393-394 | The final timeline is sorted by ordering and is a permutation of the unsorted one. Blocks with equal ordering keep their insertion order, and no two blocks share a (segment, gloss, position). |
| Reconcile.FetchExampleFull | db/examples_dal.py:283-402 | The result has the following properties: <br>• no B bucket exists; <br>• every bucket is non-empty and sorted by ordering; <br>• the timeline is sorted and duplicate-free; <br>• the PRMP and TA lists are the 100 and TA buckets. |
| Reconcile.BucketsNonEmpty | db/examples_dal.py:296-345 | No bucket is named B and none is empty. |
| ExampleDetail.SlotOrder | app.py:1759-1765 | The slot order is never empty. |
| ExampleDetail.SlotOrderChoice | app.py:1759-1765 | A linked catalog id gives that template's slot order. No template, or an unknown id, gives 100, 200, 300, TA, ROOT, 400, 500, 600. |
| ExampleDetail.StemUrsFrom | app.py:1766-1776 | A tile is listed exactly when it comes from a card filed under some slot of the order. |
| ExampleDetail.StemTiles | app.py:1778-1783 | Tiles are unique by (segment, gloss), cover every listed key, and each is the first listed tile of its key in slot order. |
| ExampleDetail.UniqueCards | app.py:1785-1796 | Exactly the non-empty slots remain. Each list is unique by (form, ur_gloss, davis_id) and has the same keys as before. |
| ExampleDetail.ExampleDetailOf | app.py:1748-1796 | Without a template, tiles follow the default order. No slot list shown is empty. |
| ExampleDetail.TilesCoverOrderedSlots | app.py:1759-1783 | A (segment, gloss) is shown as a tile exactly when some card under a slot of the order has it. |
| StemReport.ClassLetter | db/examples_dal.py:464 | Class ids 1..4 map to A..D, and anything else maps to None. |
| StemReport.Coalesce | db/examples_dal.py:430 | COALESCE is the first non-null value, or null when both are null. |
| StemReport.NullIfEmpty | db/examples_dal.py:432-433 | NULLIF(x, '') is null exactly for a null or empty x. |
| StemReport.Token | db/examples_dal.py:469 | A gloss token has no edge whitespace. |
| StemReport.GlossesOf | db/examples_dal.py:468-471 | An example's gloss tokens are non-empty and stripped, and never outnumber its segments. |
| StemReport.AggregateGroups | db/examples_dal.py:456-471 | There is exactly one group per example id occurring in the rows. It carries the first row's headword, translation and class letter, with all of the example's segments and its non-empty glosses. |
| StemReport.StemReportRows | db/examples_dal.py:473-485 | There is one line per example, sorted strictly by example_id. Every example of the rows has a line. |
| StemReport.GlossesNeverOutnumberSegments | db/examples_dal.py:468-471 | Every group has at most as many glosses as segments, and each gloss is non-empty. |
| Intransitive.ClassLetter | db/intransitive.py:5-12 | The letter is "A" or "B". It is present exactly when the stripped, upper-cased input is one of them. |
| Intransitive.ClassLetterIdempotent | db/intransitive.py:5-12 | Normalising a letter again changes nothing. |
| Intransitive.ClassLetterExamples | db/intransitive.py:5-12 | " b " gives "B". "C" and None give None. |
| Intransitive.NormNumber | db/intransitive.py:14-24 | Falsy input gives "". Every result is lower-case without edge whitespace. |
| Intransitive.NormNumberAliases | db/intransitive.py:17-24 | The first match wins: an sg/sing prefix gives "sg", else a dl/du/dual prefix gives "dl", else a pl prefix gives "pl". Anything else is returned stripped and lower-cased. |
| Intransitive.NormNumberIdempotent | db/intransitive.py:14-24 | Normalising twice equals normalising once. |
| Intransitive.NormNumberSingWord | db/intransitive.py:18-19 | "Sing" gives "sg". |
| Intransitive.NormNumberDualWord | db/intransitive.py:20-21 | "DUAL" gives "dl". |
| Intransitive.NormNumberBareLetters | db/intransitive.py:24 | A bare "s" or "p" is returned unchanged. |
| Intransitive.FirstPresent | db/intransitive.py:50 | The first candidate in the column set, or None when no candidate is present. |
| Intransitive.PkColumn | db/intransitive.py:49-56 | The PK column is the first of id, class_id, intransitive_class_id that is present. If none is present, an error is raised. |
| Intransitive.PkPrefersId | db/intransitive.py:49-50 | When "id" is present, it is the PK column. |
| Intransitive.InfoOf | db/intransitive.py:80-86 | A row's info passes class code and TA id through, and normalises the TA number. |
| Intransitive.ClassesByNumber | db/intransitive.py:78-86 | The map has exactly one key per number that occurs in the rows. |
| Intransitive.ClassesByNumberLastWins | db/intransitive.py:78-86 | A number's entry is the info of its last row: later rows overwrite earlier ones. |
| Lookups.TaNumberAlias | db/lookups.py:29-32 | 1/sg/singular map to "singular", 2/du/dual to "dual", 3/pl/plural to "plural", and any other text is returned unchanged. |
| Lookups.NormalizeTaNumber | db/lookups.py:25-32 | None stays None. Anything else becomes a lower-case value without edge whitespace, and a value whose stripped lower-case form is not an alias comes back as that form. |
| Lookups.NormalizeTaNumberAliases | db/lookups.py:28-32 | After stripping and lower-casing, 1/sg/singular give "singular", 2/du/dual give "dual", and 3/pl/plural give "plural". |
| Lookups.NormalizeTaNumberIdempotent | db/lookups.py:25-32 | Normalising twice equals normalising once. |
| Lookups.NormalizeTaNumberKeepsDl | db/lookups.py:29-32 | "dl" stays "dl", not "dual". |
| Lookups.NormalizeTaNumberDigit | db/lookups.py:30 | "2" gives "dual". |
| Lookups.Filters | db/lookups.py:40-46 | There is exactly one condition per supplied (truthy) filter, in order: number, voice class, search. |
| Lookups.BuildTaQuery | db/lookups.py:35-56 | The query normalises the number first. Its params follow its conditions. WHERE is empty exactly when there are no conditions. LIMIT defaults to 500 and OFFSET to 0. |
| Lookups.BuildTaQueryCount | db/lookups.py:40-47 | The number of conditions equals the number of truthy filters. |
| Lookups.BuildTaQueryUnfiltered | db/lookups.py:47-56 | With no filters there is no WHERE and no params, with LIMIT 500 and OFFSET 0. |
| Lookups.BlankNumberAddsNothing | db/lookups.py:41-42 | A whitespace-only number adds no number condition. |
| AllowedNumber.NormNumberToAllowed | app.py:165-178 | The result is a member of allowed, and exists exactly when allowed is non-empty. A canonical form that is already allowed is returned unchanged. |
| AllowedNumber.Choose | app.py:167-178 | A choice exists exactly when allowed is non-empty, and it is a member of allowed. An allowed input is chosen unchanged. |
| AllowedNumber.PrefersSingular | app.py:170-171 | For a singular alias not in allowed, "singular" is chosen first, then "sg". |
| AllowedNumber.PrefersDual | app.py:172-174 | For a dual alias not in allowed, "dual" is chosen first, then "du", then "dl". |
| AllowedNumber.PrefersPlural | app.py:175-177 | For a plural alias not in allowed, "plural" is chosen first, then "pl". |
| AllowedNumber.FallsBackToFirst | app.py:178 | Any other input not in allowed falls back to the first element of allowed. |
| AllowedNumber.NormNumberToAllowedIdempotent | app.py:165-178 | When allowed holds canonical values, normalising the result again gives the same value. |
| Mutations.InsertExample | db/mutations.py:9-19 | An empty payload fails with "insert_example: payload is empty". Otherwise there are as many columns, placeholders and params as payload keys, and params follow the key order. |
| Mutations.InsertExamplePairsBack | db/mutations.py:17-19 | Pairing columns with params gives back the payload. |
| Mutations.NormalizePosition | db/mutations.py:57-59 | The position is always valid. A valid stripped, lower-cased input (default "root") is kept, and anything else becomes "root". |
| Mutations.NormalizeCategory | db/mutations.py:61-63 | The category is always valid. A valid stripped, lower-cased input (default "unknown") is kept, and anything else becomes "unknown". |
| Mutations.NormalizePositionIdempotent | db/mutations.py:57-59 | Normalising a position twice equals normalising it once. |
| Mutations.NormalizeCategoryIdempotent | db/mutations.py:61-63 | Normalising a category twice equals normalising it once. |
| Mutations.InsertMorpheme | db/mutations.py:35-63 | An empty segment fails with "insert_morpheme: segment is required". Otherwise the insert carries the entry, segment, gloss and ordering, with a valid position and category. |
| Mutations.UnknownPositionBecomesRoot | db/mutations.py:57-59 | An unrecognised position is stored as "root". |
| Core.NormalizeMorpheme | db/core.py:49-60 | None or "" gives "". Otherwise the result is the NFC form with its surrounding whitespace stripped and each ASCII apostrophe replaced by U+02BC. So it has no ASCII apostrophe and no edge whitespace, and each character is from the NFC form or is the U+02BC that replaced an apostrophe there. |
| Text.StripByReplaceCommutes | db/core.py:58-60 | Replacing a character by one that stripping treats alike, then stripping, equals stripping, then replacing: both orders cut the same ends. |
| Core.NormalizeMorphemePadded | db/core.py:58-60 | With NFC the identity, " a'b " is stored as "a", U+02BC, "b". |
| Core.NormalizeMorphemeFixed | db/core.py:49-60 | An NFC-stable string without apostrophes or edge whitespace is left unchanged. |
| Core.NormalizeMorphemeIdempotent | db/core.py:49-60 | When NFC is stable on the result, normalising twice equals normalising once. |
| Core.NormalizeMorphemeApostrophe | db/core.py:59 | "a'" becomes "a" followed by the modifier letter apostrophe U+02BC. |
| Ordering.SortByKey | db/examples_dal.py:394 | The sort is sorted by key and is a permutation of its input. Items with equal keys keep their input order, as in Python's stable `list.sort`. |
| Ordering.SortSortedIsIdentity | db/examples_dal.py:347-349 | Sorting an already sorted list leaves it unchanged. |
| Text.ParseIntToString | app.py:741-743 | `int()` reads back every decimal integer that was written out. |
| Text.JoinSplit | generate_template_defs.py:20 | Splitting on a separator and joining with it gives back the string. |
| Text.SplitHead | app.py:1268 | The first piece of a split is the text before the first separator, or the whole string when there is none. |
| Text.StripIdempotent | db/core.py:60 | Stripping twice equals stripping once. |

## Left out

- Flask routing, templates, `jsonify`/`request` parsing, flash/redirect, the `?debug=1` JSON view of an example, and media upload. These are presentation and I/O.
- All psycopg2 access, commits and rollbacks. Every query result is passed in as a sequence of records.
  - The `INSERT` statements become returned values: the statement shape of `insert_example`, the morpheme row, and for `add_example` the committed `examples`, `example_entries`, `example_templates` and `example_morphemes` rows. The example id the database assigns is a parameter.
- The example and template lookups of `fetch_example_full` before line 283 are SQL only. The model starts from their results. `None` for an unknown example and the route's 404 are not modelled.
- Schema probing (which columns exist) is left out. Only the pure primary-key pick from a given column set is modelled.
- Report queries with no Python logic, the other functions of db/lookups.py (pure SQL), and the pagination arithmetic of db/entries_dal.py are not part of this model.
- Unicode NFC is a parameter `nfc: string -> string` of `Core.NormalizeMorpheme` and is otherwise uninterpreted.
- Python's `str.lower`, `str.upper` and `str.title` are modelled on ASCII letters only. Other characters are left unchanged. `str.strip` uses Python's whitespace set.
- Postgres text collation is modelled as code-point lexicographic order. NULL davis_ids sort last. SQL leaves the order of tied rows unspecified; the model keeps them in table order.
- AllowedNumber.Choose: `allowed` is a Python set, and the final fallback `next(iter(allowed))` takes an element in set iteration order. The model takes `allowed` as a sequence in that order and returns its first element. For an empty set, where Python raises `StopIteration`, it returns None.
- Matcher.IdAt: `int()` is modelled for optional sign, decimal digits and surrounding whitespace. Underscores and non-ASCII digits are not modelled. A failed parse is the route's unhandled `ValueError`, a server error, after the example row was committed (see Findings).
- Matcher.AddExample: a missing required form field (`KeyError`, a 400 answer) is not modelled; the three texts are taken as given.
- Reconcile.UrAdd: the block's `ordering or 0` is numerically the identity on reals, so the ordering is stored as given.
- Reconcile.BStyleMeans follows the code where the system's documentation differs. The documentation compares the smallest ROOT and TA orderings. The code (db/examples_dal.py:284-293) compares the first index of each slot among the observed rows, in query order.
- A NULL category or transitivity in the allomorph table is modelled as the empty string, as the SQL `COALESCE(…, '')` does.
- Matcher.ValidateStem: the example's entry id, which the page only uses for a back link, is not modelled.
- The dict-key order of `slotted` (insertion order in Python) is not modelled: buckets form a map.
- TemplateCsv.ParseRow: a DictReader row with missing trailing columns (fields filled with None) is modelled as a missing key.
- Prmp.PrmpOptions: the route's catch-all `except Exception` that answers with status 500 (app.py:1235-1236) is not modelled, because the model has no database errors.
- TemplateCsv.Tokens: its own contract gives only the shape and number of the tokens. Which parts become tokens, and in what order, is stated by TokensSound, TokensComplete, TokensConcat and TokensOfOne, because stating it inside the recursive contract was too costly for the solver.
- TemplateCsv.SlotOrder: its own contract gives the shape and number of the tokens. The parts-to-tokens relation is that of Tokens, and SlotOrderPadded and SlotOrderRoundTrip state concrete outcomes.

## Findings

| source | as written | input that shows it | evidently intended | confidence | as-written member | corrected member |
|---|---|---|---|---|---|---|
| app.py:711-755 with db/mutations.py:26-31 | `insert_example` commits the example row on its own connection before the morpheme ids are parsed; an id that `int()` refuses raises out of the route, so the entry link, the template link and the morpheme rows on the uncommitted cursor are lost while the example row stays | slots `100, TA, ROOT` with morpheme ids `"", "", "x"` | a save that fails commits nothing, so no example row is left without its entry link | not executed; follows from the commit order in the code | Matcher.AddExample, Matcher.AddExampleOrphansExample, Matcher.AddExampleOrphanWitness | Matcher.AddExampleAtomic, Matcher.AddExampleAtomicKeepsLinks |
