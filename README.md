# Reference reconciliation in the snowballing tool, modelled in Dafny

The snowballing tool takes a list of seed paper identifiers and fetches each paper's references from two providers: Semantic Scholar and Crossref. It reshapes every record into one five-field form, `{id, title, year, abstract, doi}`. It deduplicates the two reference lists with fuzzy title/DOI keys. It then backfills DOI-matched enrichment results onto the merged list.

This project models the logic that decides which references are kept and how records are shaped and merged. The network and file calls around that logic are not modelled.

The modules follow the source files:

- `Common` holds `Option`, `StartsWith` and an order-preserving `Subsequence` relation.
- `JsValue` models a JavaScript value as a datatype: `undefined`, `null`, booleans, integers, strings, objects as `map<string, Value>`, and arrays. It also defines truthiness, property access, optional chaining, `===`, `Object.assign` and string conversion.
- `ResultProcessor` covers `modules/resultProcessor.js`:
  - `processPaperData` is modelled as a function on values. The `Paper` datatype holds the five fields, and `undefined` marks an absent field.
  - The key-mutating helpers are methods of the class `JsObject`, whose `props` map they change in place. Each is proved against a specification function on maps.
  - `normalizeProperty` is `Canonical(decode(s))`, where `decode` stands for HTML-entity decoding, NFD decomposition and removal of combining marks.
  - `mergeReferences` is a method with the source's loop and its two "seen" sets. It is proved equal to the single-pass function `Merge`, and the admission rule, idempotence, order preservation and key preservation are proved about `Merge`.
- `FileReader` covers `modules/fileReader.js`:
  - `determineIdType` is an ordered classifier.
  - `ReadPaperIds` is a method with the split/filter/partition loop, working over the text of the seed file.
- `SemanticScholar` covers `modules/semanticScholar.js`: the DOI selection and `DOI:` formatting of `enrichReferences`, the `type:id` formatting of `fetchMultiplePapaerData`, and the URL `switch` of `makeApiRequest`. The HTTP calls are function parameters.
- `App` covers `app.js`:
  - the `citedPaper.paperId` filter;
  - the DOI guard on the Crossref fetch;
  - `mergeEnrichedReferences`, a method that updates an `array<Paper>` in place;
  - the per-paper pipeline `enrichAndMergeReferences`, as a function of the provider answers.

Some consequences of the code as written are stated as lemmas:

- Record processing is not idempotent. `processPaperData` reads `id` from `paperId` and `doi` from `externalIds?.DOI` (modules/resultProcessor.js:20,25), so reprocessing a processed record loses both (`ReprocessingLosesIdAndDoi`), and a top-level `doi` or `DOI` never reaches the result (`TopLevelDoiIgnored`).
- The admission test of `mergeReferences` (modules/resultProcessor.js:55-56) admits a reference when either of its non-empty keys is new. Two references with the same DOI and different non-empty normalised titles are therefore both kept (`DifferentTitlesBothKept`).
- The enrichment step of `enrichAndMergeReferences` (app.js:14-15) never selects a reference. Semantic Scholar references are kept only with a truthy `paperId` (app.js:21). Crossref entries are passed through `processPaperData` (app.js:29), which reads the DOI only from `externalIds?.DOI` (modules/resultProcessor.js:25). The comment at app.js:29 assumes this works for Crossref entries, but it does not. So, for Crossref entries without `externalIds`, the batch endpoint is never used inside the pipeline (`CrossrefReferencesHaveNoDoi`, `ProviderReferencesComplete`, `PipelineNeverEnriches`).
- Seed lines are split on `\n` and only blank lines are dropped (modules/fileReader.js:7). The other lines are not trimmed, so every Corpus ID on a line ending in CRLF keeps its `\r` and fails the digits-only test at modules/fileReader.js:28 (`CarriageReturnMakesCorpusIdUnknown`).
- A `null` reference list from Semantic Scholar or Crossref makes `map` throw (app.js:20,29). The model excludes those inputs by the parameter types and preconditions (see Left out).

## Model

| member | source | states |
|---|---|---|
| ResultProcessor.JsObject.constructor | modules/resultProcessor.js:11 | wraps a raw record: the object's keys are exactly the given ones |
| ResultProcessor.JsObject.RenameProperties | modules/resultProcessor.js:67-75 | the object's keys become `Renamed(old keys, nameMap)`: each present old name, in map order, moves to its new name and is deleted |
| ResultProcessor.JsObject.DeleteProperties | modules/resultProcessor.js:84-90 | the object keeps exactly its keys not listed, with their values |
| ResultProcessor.JsObject.RetainProperties | modules/resultProcessor.js:92-98 | the object keeps exactly its keys that are listed, with their values |
| ResultProcessor.JsObject.MoveChildPropertiesToParent | modules/resultProcessor.js:77-82 | a truthy object-typed child's own entries are assigned onto the object and the child key is deleted; otherwise nothing changes |
| ResultProcessor.JsObject.ProcessInPlace | modules/resultProcessor.js:11-31 | the argument object is left renamed by the property map, and the returned record is the one `processPaperData` builds from the original |
| ResultProcessor.ProcessPaperData | modules/resultProcessor.js:11-15 | the result is `null` exactly when the argument is falsy |
| ResultProcessor.ProcessPaperDataFields | modules/resultProcessor.js:19-28 | id is `paperId`, doi is `externalIds?.DOI`, title is `article-title` when present (else `title`), year and abstract are copied |
| ResultProcessor.RenamedByPropertyMap | modules/resultProcessor.js:4-16 | after renaming, `DOI` and `article-title` are gone, their values sit under `doi`/`title` (overwriting), and every other key is untouched |
| ResultProcessor.RenamedLeavesOtherKeys | modules/resultProcessor.js:67-75 | a key that the name map does not mention keeps its presence and value |
| ResultProcessor.TopLevelDoiIgnored | modules/resultProcessor.js:20-25 | a top-level `doi` or `DOI` on the input never affects the processed record |
| ResultProcessor.ReadFieldsDecide | modules/resultProcessor.js:19-28 | two raw records that agree on `paperId`, `title`, `article-title` (presence and value), `year`, `abstract` and `externalIds` process to the same record |
| ResultProcessor.ReprocessingLosesIdAndDoi | modules/resultProcessor.js:19-28 | processing a processed record again gives the same title/year/abstract but `undefined` id and doi |
| ResultProcessor.RetainKeepsProcessedPaper | modules/resultProcessor.js:9 | retaining `propertiesToRetain` leaves a processed record's five keys intact; this only relates the constant to the five-key record shape, since the source never calls `retainProperties` with it |
| ResultProcessor.DeleteIsRetainOfTheRest | modules/resultProcessor.js:84-98 | deleting a set of keys equals retaining exactly the complementary keys |
| ResultProcessor.MovedChildEffect | modules/resultProcessor.js:77-82 | after the move, child entries win over parent entries, other parent entries stay, the child key is gone; no change if the child is falsy or not an object |
| ResultProcessor.NormalizeProperty | modules/resultProcessor.js:101-108 | defined as `Canonical(decode(value))` of a present, truthy own property and `""` otherwise; its range is stated by `NormalizePropertyRange` |
| ResultProcessor.NormalizeReference | modules/resultProcessor.js:110-115 | both keys consist only of `[a-z0-9]`, and a falsy title or doi gives an empty key |
| ResultProcessor.NormalizePropertyRange | modules/resultProcessor.js:101-108 | a missing or falsy property gives `''`; every key consists of `a-z0-9` only |
| ResultProcessor.KeepKeyChars | modules/resultProcessor.js:105 | the filter's output contains only `a-z0-9` characters |
| ResultProcessor.KeepKeyCharsFixes | modules/resultProcessor.js:105 | the filter leaves a string already made of `a-z0-9` unchanged |
| ResultProcessor.CanonicalFixesCanonical | modules/resultProcessor.js:105 | lowercase-then-filter leaves an already normalised key unchanged |
| ResultProcessor.CanonicalIdempotent | modules/resultProcessor.js:105 | lowercase-then-filter applied to its own output changes nothing |
| ResultProcessor.CanonicalAppend | modules/resultProcessor.js:105 | lowercase-then-filter works character by character: it distributes over concatenation |
| ResultProcessor.KeepKeyCharsAppend | modules/resultProcessor.js:105 | the filter distributes over concatenation |
| ResultProcessor.CanonicalIgnoresCase | modules/resultProcessor.js:105 | lowering the input first does not change the key |
| ResultProcessor.Merge | modules/resultProcessor.js:52-61 | the single pass never returns more references than it is given, and everything it returns has normalisable keys |
| ResultProcessor.MergeAppend | modules/resultProcessor.js:55-59 | one more input reference is appended exactly when it has a non-empty title key unseen so far or a non-empty DOI key unseen so far |
| ResultProcessor.KeysAppend | modules/resultProcessor.js:57-58 | admitting a reference adds exactly its non-empty keys to the seen sets |
| ResultProcessor.KeysOfMember | modules/resultProcessor.js:57-58 | the non-empty keys of every listed reference are among the list's keys |
| ResultProcessor.MergedReferences | modules/resultProcessor.js:44-64 | defined as `Merge` of the concatenation, a non-array argument counting as `[]` (modules/resultProcessor.js:49-50); the loop `MergeReferences` is proved equal to it, and `MergeReferencesIdempotent`, `MergeKeepsAllKeys` and `MergedReferencesDistinct` state its properties |
| ResultProcessor.MergeReferences | modules/resultProcessor.js:44-64 | the loop with its seen-title and seen-DOI sets returns the single-pass merge of the two lists, a non-array argument counting as empty |
| ResultProcessor.VisitReference | modules/resultProcessor.js:52-61 | one callback of the pass appends the reference exactly when it brings a new non-empty title or DOI key, and leaves the seen sets equal to the keys of the list it returns |
| ResultProcessor.SeenKeysStep | modules/resultProcessor.js:55-58 | when the seen sets hold the keys of the list so far, the callback's test is the admission test, and adding the reference's non-empty keys gives the keys of the extended list |
| ResultProcessor.MergeIsSubsequence | modules/resultProcessor.js:49-59 | the merged list is an order-preserving subsequence of the first list followed by the second |
| ResultProcessor.MergeAdmitsAll | modules/resultProcessor.js:55-59 | every merged reference has a non-empty key absent from the merged references before it |
| ResultProcessor.MergeOfAdmitted | modules/resultProcessor.js:55-59 | a list in which each reference has a fresh non-empty key merges to itself |
| ResultProcessor.MergeStep | modules/resultProcessor.js:55-59 | a list that merges to itself, extended by a reference with a fresh key, still merges to itself |
| ResultProcessor.AllAdmittedPrefix | modules/resultProcessor.js:55-59 | in a list where each reference brings a fresh key, every prefix has the same property and the last reference is admitted after it |
| ResultProcessor.MergeFixpoint | modules/resultProcessor.js:55-59 | a list merges to itself if and only if each of its references has a non-empty key unseen before it |
| ResultProcessor.MergeReferencesIdempotent | modules/resultProcessor.js:44-64 | `mergeReferences(mergeReferences(a, b), [])` equals `mergeReferences(a, b)` |
| ResultProcessor.MergeKeepsAllKeys | modules/resultProcessor.js:55-58 | the merged list has exactly the non-empty title keys and DOI keys of its input: no key is lost |
| ResultProcessor.MergedReferencesDistinct | modules/resultProcessor.js:55-60 | each merged reference has a non-empty title or DOI key that no earlier merged reference has, so none has both keys empty and no two share both keys |
| ResultProcessor.DifferentTitlesBothKept | modules/resultProcessor.js:55-56 | two references with different non-empty title keys are both kept, whatever their DOIs |
| ResultProcessor.RepeatedKeysDropped | modules/resultProcessor.js:55-59 | a reference whose non-empty keys all repeat an earlier one's is dropped, and a reference with no non-empty key is never kept |
| FileReader.SplitLines | modules/fileReader.js:7 | splitting on `'\n'` yields at least one line and no line contains `'\n'` |
| FileReader.JoinSplitLines | modules/fileReader.js:7 | joining the split lines with `'\n'` gives back the text |
| FileReader.SplitJoinLines | modules/fileReader.js:7 | splitting lines that were joined with `'\n'` gives back the lines |
| FileReader.SplitLinesPrefix | modules/fileReader.js:7 | a newline-free prefix extends the first line of the split |
| FileReader.NonBlankLines | modules/fileReader.js:7 | the kept lines are no more than the input lines and none of them is blank |
| FileReader.NonBlankLinesKeepsExactlyNonBlank | modules/fileReader.js:7 | the kept lines form an order-preserving subsequence of the input, and a line appears in it exactly when it appears in the input and is not blank after trimming; lines are kept untrimmed (multiplicity: `NonBlankLinesAppend`) |
| FileReader.NonBlankLinesOfOne | modules/fileReader.js:7 | a single line is kept exactly when it is not blank |
| FileReader.NonBlankLinesAppend | modules/fileReader.js:7 | the filter distributes over concatenation, so each non-blank line is kept as many times as it occurs, in order |
| FileReader.DetermineIdType | modules/fileReader.js:25-35 | the ordered classifier: `10.` prefix, then `/^\d+$/`, then `arXiv:` prefix, else Unknown; `ClassificationRulesAreDisjoint` states each kind exactly |
| FileReader.ClassificationRulesAreDisjoint | modules/fileReader.js:25-35 | an id is DOI iff it starts with `10.`, CorpusId iff it is a non-empty run of ASCII digits, arXivId iff it starts with `arXiv:` (the three rules never overlap), and Unknown iff none applies |
| FileReader.ReadPaperIds | modules/fileReader.js:4-18 | the loop returns the unknown ids and the typed known ids of the non-blank lines, as the partition functions define them |
| FileReader.PartitionIsExact | modules/fileReader.js:10-17 | the two lists' lengths sum to the number of kept lines; unknownIds holds exactly the lines classified Unknown, and known entries carry their line and its (non-Unknown) type |
| FileReader.PartitionKeepsOrder | modules/fileReader.js:10-17 | both output lists keep the relative order of the kept lines |
| FileReader.CarriageReturnMakesCorpusIdUnknown | modules/fileReader.js:7-11 | a digits-only id followed by CRLF is kept with its `\r` and classified Unknown, though the bare digits are a CorpusId |
| FileReader.LineWithNewlineSplits | modules/fileReader.js:7 | a line without `\n` followed by one newline splits into the line and an empty string |
| FileReader.OneNonBlankLine | modules/fileReader.js:7 | of a non-blank line and an empty string, the blank-line filter keeps only the line |
| SemanticScholar.EnrichmentIds | modules/semanticScholar.js:38 | at most one id per reference, each starting with `DOI:`, and the list is empty iff no reference has a truthy doi and a falsy id |
| SemanticScholar.EnrichmentIdsAppend | modules/semanticScholar.js:38 | the selection is taken reference by reference, in order |
| SemanticScholar.EnrichmentIdsOfOne | modules/semanticScholar.js:38 | one reference contributes `DOI:<doi>` exactly when its doi is truthy and its id falsy |
| SemanticScholar.EnrichReferences | modules/semanticScholar.js:36-41 | a null or non-array argument gives `undefined` |
| SemanticScholar.EnrichReferencesResponse | modules/semanticScholar.js:39 | with nothing selected the answer is `[]` and no batch call is made; otherwise it is the batch answer for the selected ids |
| SemanticScholar.FetchMultiplePaperData | modules/semanticScholar.js:31-34 | the batch endpoint's answer for `BatchIds` of the papers, one `type:id` per paper in order (stated by `BatchIds`) |
| SemanticScholar.BatchIds | modules/semanticScholar.js:32 | one request id per paper, in order; splitting it at its first colon gives back the type name and the id, and its length is that of the two parts plus one, which together fix it as `${type}:${id}` |
| SemanticScholar.SplitAtColonOfRequestId | modules/semanticScholar.js:32 | a colon-free type name followed by `:` and an id splits back into the two |
| SemanticScholar.ApiUrl | modules/semanticScholar.js:75-90 | the URL of each `switch` case, `None` for the throwing default; stated by `ClassifiedIdsHaveUrls`, `ApiUrlUnderBase` and `ApiUrlInjective` |
| SemanticScholar.MakeApiRequest | modules/semanticScholar.js:72-100 | `null` for an unknown type or a failed GET, otherwise the response data; stated by `UnknownTypeYieldsNull` |
| SemanticScholar.ClassifiedIdsHaveUrls | modules/semanticScholar.js:75-89 | every type the seed reader assigns except Unknown has a request URL; Unknown has none |
| SemanticScholar.UnknownTypeYieldsNull | modules/semanticScholar.js:88-99 | any type other than DOI, CorpusId, arXivId and Title ends in `null` without a request |
| SemanticScholar.ApiUrlUnderBase | modules/semanticScholar.js:75-87 | every URL built lies under the v1 paper API base |
| SemanticScholar.ApiUrlInjective | modules/semanticScholar.js:75-87 | for a fixed type and an injective encoder, different ids give different URLs |
| App.ProcessedIdIsPaperId | modules/resultProcessor.js:20 | a raw record with a truthy `paperId` becomes a record with a truthy id |
| App.SemanticScholarReferences | app.js:18-25 | every kept Semantic Scholar reference has a truthy id |
| App.SemanticScholarReferencesAppend | app.js:20-24 | the filter is taken entry by entry, keeping the original order |
| App.SemanticScholarReferencesOfOne | app.js:21-22 | an entry is kept exactly when `citedPaper` is truthy with a truthy `paperId`, and is then the processed `citedPaper` |
| App.CrossrefReferences | app.js:12 | one processed record per Crossref entry when the paper has a truthy doi, none otherwise (app.js:27-30) |
| App.CrossrefOnlyWithDoi | app.js:12 | without a truthy doi on the paper the Crossref list is empty, whatever the lookup would answer |
| App.CrossrefReferencesHaveNoDoi | app.js:27-30 | Crossref references whose raw entries lack `externalIds` all have an undefined doi and an empty DOI key, so they deduplicate by title only |
| App.Enrichments | app.js:33 | one entry per array element, `None` exactly for a falsy element; `[]` for a non-array |
| App.FindByDoi | app.js:36 | the search stops at the first entry that is non-null with a `===`-equal doi, or at the end when there is none |
| App.AssignRecord | app.js:38 | `Object.assign` of one processed record onto another yields the source's five fields, undefined values included |
| App.Backfill | app.js:34-41 | each reference is `BackfillOne` of itself; its properties are stated by `BackfillKeepsShapeAndDois`, `BackfillLeavesUnmatched`, `BackfillCopiesFirstMatch` and `BackfillIdempotent` |
| App.MergeEnrichedReferences | app.js:32-43 | the same array is returned, each element replaced by its backfilled version |
| App.BackfillKeepsShapeAndDois | app.js:34-42 | the backfill keeps the length, the order and every reference's doi |
| App.BackfillLeavesUnmatched | app.js:35-38 | a reference with a falsy doi, or with no enrichment of the same doi, is unchanged |
| App.BackfillCopiesFirstMatch | app.js:36-39 | a reference with a doi receives every field of the first enrichment with the same doi, as `Object.assign` copies them |
| App.BackfillWithoutArrayIsIdentity | app.js:33 | a non-array enrichment argument leaves the whole list unchanged |
| App.BackfillIdempotent | app.js:34-42 | backfilling twice with the same enrichments is the same as once |
| App.ProviderReferencesComplete | app.js:10-13 | no reference from either provider has a truthy doi and a falsy id |
| App.NothingSelectedNothingBackfilled | app.js:14-15 | when no reference is selected for enrichment, the backfill returns the list as it is |
| App.MergeWithoutSelection | app.js:13-15 | when no input reference needs enrichment, no merged reference does, and backfilling the merged list from the batch answer leaves it unchanged |
| App.EnrichAndMergeReferences | app.js:10-16 | backfill of the merged provider lists with the batch answer for the selected ids; `PipelineNeverEnriches` states its value |
| App.PipelineNeverEnriches | app.js:10-16 | per paper, the result is the merge of the Semantic Scholar and Crossref references, whatever the batch endpoint would answer |

## Left out

- Rate limiting: the two Bottleneck limiters and their rate and concurrency settings (modules/semanticScholar.js:13-21). This is timing and concurrency inside a library not shown.
- HTTP: the axios calls, `dotenv`, the API key and the Crossref polite e-mail. `makeBatchApiRequest` and `fetchCrossrefReferences` are function parameters (`batch`, `worksByDoi`), and the GET inside `makeApiRequest` (modules/semanticScholar.js:92-95) is the parameter `get`. `fetchPaperData` is `makeApiRequest` behind the rate limiter, that is `MakeApiRequest` itself. The Semantic Scholar reference list that `makeReferenceApiRequest` fetches is a plain argument of `App.SemanticScholarReferences`. `MakeApiRequest` models the catch-to-`null` path of `makeApiRequest` through a `get` that answers `None`. `batch` may answer `null` (its catch path). The `null` answers of `makeReferenceApiRequest` and `fetchCrossrefReferences` (modules/crossrefClient.js:24), and the `undefined` `message.reference` of a Crossref work without references (modules/crossrefClient.js:20), are excluded by the parameter types, because app.js:20 and app.js:29 throw on them.
- `encodeURIComponent` is a parameter `encode`.
- File I/O: `fs.readFile` and its error path returning `[]`. `ReadPaperIds` takes the file's text. `modules/fileWriter.js` is not part of this model.
- `he.decode`, `normalize("NFD")` and the removal of U+0300..U+036F are the parameter `decode`. Only the lower-casing and the `[a-z0-9]` filter are modelled concretely.
- Lower: only ASCII upper-case letters are lowered. After NFD, the only non-ASCII characters whose lower-case form lies in `a-z` are U+0130 and U+212A, and NFD has already decomposed both, so the key is unaffected.
- `main`, the `Promise.all` fan-out and async sequencing (app.js:45-57) are orchestration and concurrency.
- `analyzeResults` is an unused placeholder that reports the array length.
- Numbers are integers: floating point, NaN and the string form of large or fractional numbers are not modelled.
- Aliasing: records are values. In-place `Object.assign` onto a record that is shared between lists, and the renaming `processPaperData` does on its raw input, are seen only through `JsObject.ProcessInPlace` and the array in `MergeEnrichedReferences`.
- App.SemanticScholarReferences: requires every entry of the reference list to be non-null. A `null` list or a `null` entry makes the source throw (app.js:20-21), which is a crash path, not a behaviour.
- App.CrossrefReferences: requires the Crossref entries to be non-null. A `null` or `undefined` answer makes `map` throw, and a falsy entry becomes `null`, which then makes `normalizeReference` throw.
- ResultProcessor.NormalizeProperty: requires a truthy title or doi to be a string. `he.decode` throws on other values.
- ResultProcessor.Merge: the elements of the two lists are records, never `null`. The source would throw on a `null` element.
- App.CrossrefEntriesLackExternalIds: the lemmas about the whole pipeline (`ProviderReferencesComplete`, `PipelineNeverEnriches`) assume that every Crossref entry has no `externalIds` property. This assumption is about the shape of the Crossref response, which is not part of this model. A Crossref entry that did carry `externalIds.DOI` with no `paperId` would be selected for enrichment.
- App.MergeEnrichedReferences: the array holds records, so it cannot hold `null`, and the `ref1 &&` guard at app.js:35 has no counterpart. In the source a `null` entry is skipped and left as it is. This cannot happen in the pipeline, because `mergeReferences` throws on a `null` element first.
