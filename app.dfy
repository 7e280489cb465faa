/**
 * The per-paper reconciliation steps of app.js: which provider references
 * are kept, the DOI guard on the Crossref fetch, and the backfill of
 * enrichment results onto the merged references. The provider calls are
 * parameters: `worksByDoi` for the Crossref works lookup, `batch` for the
 * Semantic Scholar batch endpoint.
 */
module App {
  import opened Common
  import opened JsValue
  import opened ResultProcessor
  import opened SemanticScholar

  // ---------------------------------------------------------------------
  // Provider reference lists
  // ---------------------------------------------------------------------

  /** No entry of the reference list is `null` or `undefined`. */
  predicate NoNullEntries(references: seq<Value>)
  {
    forall i :: 0 <= i < |references| ==> !Nullish(references[i])
  }

  /** `ref.citedPaper && ref.citedPaper.paperId`. */
  predicate HasCitedPaperId(ref: Value)
    requires !Nullish(ref)
  {
    var cited := Prop(ref, "citedPaper");
    Truthy(cited) && Truthy(Prop(cited, "paperId"))
  }

  /** A truthy raw record with a truthy `paperId` becomes a paper with a truthy `id`. */
  lemma ProcessedIdIsPaperId(raw: Value)
    requires Truthy(raw) && Truthy(Prop(raw, "paperId"))
    ensures Truthy(ProcessPaperData(raw).value.id)
  {
    ProcessPaperDataFields(raw);
  }

  /**
   * The body of `fetchAndProcessSemanticScholarReferences` once the
   * references have been fetched: entries whose `citedPaper` has a truthy
   * `paperId` are processed, the others dropped.
   */
  function SemanticScholarReferences(references: seq<Value>): (papers: seq<Paper>)
    requires NoNullEntries(references)
    ensures forall i :: 0 <= i < |papers| ==> Truthy(papers[i].id)
  {
    if references == [] then []
    else
      var ref := references[0];
      var head := if HasCitedPaperId(ref)
                  then ProcessedIdIsPaperId(Prop(ref, "citedPaper"));
                       [ProcessPaperData(Prop(ref, "citedPaper")).value]
                  else [];
      head + SemanticScholarReferences(references[1..])
  }

  /** `references.map(ref => processPaperData(ref))` over entries that are never null. */
  function ProcessAll(references: seq<Value>): seq<Paper>
    requires forall i :: 0 <= i < |references| ==> Truthy(references[i])
  {
    seq(|references|, i requires 0 <= i < |references| => ProcessPaperData(references[i]).value)
  }

  /** The Crossref works lookup answers with non-null entries. */
  predicate CrossrefEntriesPresent(paper: Paper, worksByDoi: Value -> seq<Value>)
  {
    Truthy(paper.doi) ==>
      forall i :: 0 <= i < |worksByDoi(paper.doi)| ==> Truthy(worksByDoi(paper.doi)[i])
  }

  /**
   * The Crossref entries carry no `externalIds` object, as in the Crossref
   * works API, where the DOI is the top-level `DOI` key.
   */
  predicate CrossrefEntriesLackExternalIds(paper: Paper, worksByDoi: Value -> seq<Value>)
    requires CrossrefEntriesPresent(paper, worksByDoi)
  {
    Truthy(paper.doi) ==>
      forall i :: 0 <= i < |worksByDoi(paper.doi)| ==> Prop(worksByDoi(paper.doi)[i], "externalIds") == Undefined
  }

  /**
   * `paper.doi ? await fetchAndProcessCrossrefReferences(paper.doi) : []`:
   * the Crossref references of the paper, looked up only when it has a DOI.
   */
  function CrossrefReferences(paper: Paper, worksByDoi: Value -> seq<Value>): (crossref: seq<Paper>)
    requires CrossrefEntriesPresent(paper, worksByDoi)
    ensures |crossref| == if Truthy(paper.doi) then |worksByDoi(paper.doi)| else 0
  {
    if Truthy(paper.doi) then ProcessAll(worksByDoi(paper.doi)) else []
  }

  // ---------------------------------------------------------------------
  // mergeEnrichedReferences
  // ---------------------------------------------------------------------

  /**
   * `Array.isArray(enriched) ? enriched.map(ref => processPaperData(ref)) : []`;
   * `None` is the `null` a falsy entry becomes.
   */
  function Enrichments(enrichedReferences: Value): (enriched: seq<Option<Paper>>)
    ensures |enriched| == if enrichedReferences.Arr? then |enrichedReferences.items| else 0
    ensures enrichedReferences.Arr? ==>
              forall i :: 0 <= i < |enriched| ==> (enriched[i].None? <==> !Truthy(enrichedReferences.items[i]))
  {
    if enrichedReferences.Arr?
    then seq(|enrichedReferences.items|, i requires 0 <= i < |enrichedReferences.items| =>
           ProcessPaperData(enrichedReferences.items[i]))
    else []
  }

  /** `ref2 && ref2.doi === doi`. */
  predicate MatchesDoi(candidate: Option<Paper>, doi: Value)
  {
    candidate.Some? && StrictEquals(candidate.value.doi, doi)
  }

  /**
   * The index `enriched.find(ref2 => ref2 && ref2.doi === doi)` stops at:
   * the first match, or `|enriched|` when there is none.
   */
  function FindByDoi(enriched: seq<Option<Paper>>, doi: Value): (k: nat)
    ensures k <= |enriched|
    ensures k < |enriched| ==> MatchesDoi(enriched[k], doi)
    ensures forall j :: 0 <= j < k ==> !MatchesDoi(enriched[j], doi)
  {
    if enriched == [] then 0
    else if MatchesDoi(enriched[0], doi) then 0
    else 1 + FindByDoi(enriched[1..], doi)
  }

  /**
   * `Object.assign(target, source)` on two processed papers: every one of the
   * five keys is copied, `undefined` values included.
   */
  function AssignRecord(target: Paper, source: Paper): (r: Paper)
    ensures AsObject(r) == Assign(AsObject(target), AsObject(source))
  {
    assert AsObject(target).Keys == AsObject(source).Keys;
    source
  }

  /** The reference after the backfill step has looked at it. */
  function BackfillOne(ref: Paper, enriched: seq<Option<Paper>>): Paper
  {
    if Truthy(ref.doi) then
      var k := FindByDoi(enriched, ref.doi);
      if k < |enriched| then AssignRecord(ref, enriched[k].value) else ref
    else ref
  }

  /** The merged references after `mergeEnrichedReferences`. */
  function Backfill(references: seq<Paper>, enriched: seq<Option<Paper>>): seq<Paper>
  {
    seq(|references|, i requires 0 <= i < |references| => BackfillOne(references[i], enriched))
  }

  /**
   * `mergeEnrichedReferences(mergedReferences, enrichedReferences)`: walks
   * the merged references in place and copies the first enrichment result
   * with the same DOI onto each reference that has a DOI; returns the same
   * array.
   */
  method MergeEnrichedReferences(mergedReferences: array<Paper>, enrichedReferences: Value)
    returns (result: array<Paper>)
    modifies mergedReferences
    ensures result == mergedReferences
    ensures mergedReferences[..] == Backfill(old(mergedReferences[..]), Enrichments(enrichedReferences))
  {
    var enriched := Enrichments(enrichedReferences);
    for i := 0 to mergedReferences.Length
      invariant forall j :: 0 <= j < i ==> mergedReferences[j] == BackfillOne(old(mergedReferences[j]), enriched)
      invariant forall j :: i <= j < mergedReferences.Length ==> mergedReferences[j] == old(mergedReferences[j])
    {
      var ref1 := mergedReferences[i];
      if Truthy(ref1.doi) {
        var k := FindByDoi(enriched, ref1.doi);
        if k < |enriched| {
          mergedReferences[i] := AssignRecord(ref1, enriched[k].value);
        }
      }
    }
    result := mergedReferences;
  }

  // ---------------------------------------------------------------------
  // enrichAndMergeReferences
  // ---------------------------------------------------------------------

  /** What `enrichAndMergeReferences(paper)` resolves to, given the provider answers. */
  function EnrichAndMergeReferences(decode: string -> string, paper: Paper, references: seq<Value>,
                                    worksByDoi: Value -> seq<Value>, batch: seq<string> -> Value): seq<Paper>
    requires NoNullEntries(references)
    requires CrossrefEntriesPresent(paper, worksByDoi)
    requires AllKeysDecodable(SemanticScholarReferences(references) + CrossrefReferences(paper, worksByDoi))
  {
    var merged := MergedReferences(decode, Some(SemanticScholarReferences(references)),
                                   Some(CrossrefReferences(paper, worksByDoi)));
    Backfill(merged, Enrichments(EnrichReferences(Some(merged), batch)))
  }

  // ---------------------------------------------------------------------
  // Properties
  // ---------------------------------------------------------------------

  /** Semantic Scholar references keep their original order. */
  lemma {:induction false} SemanticScholarReferencesAppend(a: seq<Value>, b: seq<Value>)
    requires NoNullEntries(a)
    requires NoNullEntries(b)
    ensures SemanticScholarReferences(a + b) == SemanticScholarReferences(a) + SemanticScholarReferences(b)
    decreases |a|
  {
    if a == [] {
      assert a + b == b;
    } else {
      assert (a + b)[0] == a[0];
      assert (a + b)[1..] == a[1..] + b;
      SemanticScholarReferencesAppend(a[1..], b);
    }
  }

  /**
   * A Semantic Scholar reference is kept exactly when its `citedPaper` has a
   * truthy `paperId`, and is then the processed `citedPaper`.
   */
  lemma SemanticScholarReferencesOfOne(ref: Value)
    requires !Nullish(ref)
    ensures SemanticScholarReferences([ref])
            == if HasCitedPaperId(ref) then [ProcessPaperData(Prop(ref, "citedPaper")).value] else []
  {
    assert [ref][1..] == [];
  }

  /** Without a DOI on the paper, the Crossref lookup is not consulted and contributes nothing. */
  lemma CrossrefOnlyWithDoi(paper: Paper, worksByDoi: Value -> seq<Value>)
    requires !Truthy(paper.doi)
    ensures CrossrefReferences(paper, worksByDoi) == []
  {
  }

  /**
   * Crossref entries carry their DOI as a top-level `DOI`, never under
   * `externalIds`, so after processing they have no DOI and deduplicate by
   * title only.
   */
  lemma CrossrefReferencesHaveNoDoi(decode: string -> string, paper: Paper, worksByDoi: Value -> seq<Value>)
    requires CrossrefEntriesPresent(paper, worksByDoi)
    requires CrossrefEntriesLackExternalIds(paper, worksByDoi)
    ensures forall p :: p in CrossrefReferences(paper, worksByDoi) ==> p.doi == Undefined && (KeysDecodable(p) ==> DoiKey(decode, p) == "")
  {
    if Truthy(paper.doi) {
      var works := worksByDoi(paper.doi);
      forall i | 0 <= i < |works| ensures ProcessAll(works)[i].doi == Undefined {
        ProcessPaperDataFields(works[i]);
      }
    }
  }

  /** The backfill keeps the list's length and order and every reference's `doi`. */
  lemma BackfillKeepsShapeAndDois(references: seq<Paper>, enriched: seq<Option<Paper>>)
    ensures |Backfill(references, enriched)| == |references|
    ensures forall i :: 0 <= i < |references| ==> Backfill(references, enriched)[i].doi == references[i].doi
  {
  }

  /** A reference without a DOI, or without an enrichment result of the same DOI, is left unchanged. */
  lemma BackfillLeavesUnmatched(references: seq<Paper>, enriched: seq<Option<Paper>>, i: nat)
    requires i < |references|
    requires !Truthy(references[i].doi)
             || forall j :: 0 <= j < |enriched| ==> !MatchesDoi(enriched[j], references[i].doi)
    ensures Backfill(references, enriched)[i] == references[i]
  {
  }

  /**
   * A reference with a DOI gets every field of the first enrichment result
   * with the same DOI, as `Object.assign` copies them.
   */
  lemma BackfillCopiesFirstMatch(references: seq<Paper>, enriched: seq<Option<Paper>>, i: nat, k: nat)
    requires i < |references| && k < |enriched|
    requires Truthy(references[i].doi) && MatchesDoi(enriched[k], references[i].doi)
    requires forall j :: 0 <= j < k ==> !MatchesDoi(enriched[j], references[i].doi)
    ensures Backfill(references, enriched)[i] == enriched[k].value
    ensures AsObject(Backfill(references, enriched)[i]) == Assign(AsObject(references[i]), AsObject(enriched[k].value))
  {
    assert FindByDoi(enriched, references[i].doi) == k;
  }

  /** A non-array enrichment argument leaves the whole list unchanged. */
  lemma BackfillWithoutArrayIsIdentity(references: seq<Paper>, enrichedReferences: Value)
    requires !enrichedReferences.Arr?
    ensures Backfill(references, Enrichments(enrichedReferences)) == references
  {
  }

  /** Backfilling twice with the same enrichment results changes nothing more. */
  lemma BackfillIdempotent(references: seq<Paper>, enriched: seq<Option<Paper>>)
    ensures Backfill(Backfill(references, enriched), enriched) == Backfill(references, enriched)
  {
    var once := Backfill(references, enriched);
    forall i | 0 <= i < |references| ensures BackfillOne(once[i], enriched) == once[i] {
      var ref := references[i];
      if Truthy(ref.doi) {
        var k := FindByDoi(enriched, ref.doi);
        if k < |enriched| {
          assert once[i] == enriched[k].value;
          assert once[i].doi == ref.doi;
        }
      }
    }
  }

  /**
   * No reference reaching the merge needs enrichment: Semantic Scholar
   * references all have an id, Crossref references have no DOI.
   */
  lemma ProviderReferencesComplete(paper: Paper, references: seq<Value>, worksByDoi: Value -> seq<Value>)
    requires NoNullEntries(references)
    requires CrossrefEntriesPresent(paper, worksByDoi)
    requires CrossrefEntriesLackExternalIds(paper, worksByDoi)
    ensures forall p :: p in SemanticScholarReferences(references) + CrossrefReferences(paper, worksByDoi) ==>
              !NeedsEnrichment(p)
  {
    var fromSemanticScholar := SemanticScholarReferences(references);
    var fromCrossref := CrossrefReferences(paper, worksByDoi);
    CrossrefReferencesHaveNoDoi(x => x, paper, worksByDoi);
    forall p | p in fromSemanticScholar + fromCrossref ensures !NeedsEnrichment(p) {
      if p in fromSemanticScholar {
        var i :| 0 <= i < |fromSemanticScholar| && fromSemanticScholar[i] == p;
        assert Truthy(p.id);
      } else {
        assert p in fromCrossref;
      }
    }
  }

  /** When no reference is selected for enrichment, the backfill leaves the list as it is. */
  lemma NothingSelectedNothingBackfilled(references: seq<Paper>, batch: seq<string> -> Value)
    requires forall i :: 0 <= i < |references| ==> !NeedsEnrichment(references[i])
    ensures Backfill(references, Enrichments(EnrichReferences(Some(references), batch))) == references
  {
    EnrichReferencesResponse(references, batch);
    assert Enrichments(EnrichReferences(Some(references), batch)) == [];
  }

  /**
   * When no input reference needs enrichment, neither does any merged one,
   * so the enrichment and backfill steps return the merged list as it is.
   */
  lemma MergeWithoutSelection(decode: string -> string, refs: seq<Paper>, batch: seq<string> -> Value)
    requires AllKeysDecodable(refs)
    requires forall p :: p in refs ==> !NeedsEnrichment(p)
    ensures forall i :: 0 <= i < |Merge(decode, refs)| ==> !NeedsEnrichment(Merge(decode, refs)[i])
    ensures Backfill(Merge(decode, refs), Enrichments(EnrichReferences(Some(Merge(decode, refs)), batch)))
            == Merge(decode, refs)
  {
    var merged := Merge(decode, refs);
    MergeIsSubsequence(decode, refs);
    SubsequenceMembers(merged, refs);
    forall i | 0 <= i < |merged| ensures !NeedsEnrichment(merged[i]) {
      assert merged[i] in refs;
    }
    NothingSelectedNothingBackfilled(merged, batch);
  }

  /**
   * As written, the enrichment stage never fires: no merged reference is
   * selected, the batch endpoint is not used, and the result is the merged
   * list itself.
   */
  lemma PipelineNeverEnriches(decode: string -> string, paper: Paper, references: seq<Value>,
                              worksByDoi: Value -> seq<Value>, batch: seq<string> -> Value)
    requires NoNullEntries(references)
    requires CrossrefEntriesPresent(paper, worksByDoi)
    requires CrossrefEntriesLackExternalIds(paper, worksByDoi)
    requires AllKeysDecodable(SemanticScholarReferences(references) + CrossrefReferences(paper, worksByDoi))
    ensures EnrichAndMergeReferences(decode, paper, references, worksByDoi, batch)
            == Merge(decode, SemanticScholarReferences(references) + CrossrefReferences(paper, worksByDoi))
  {
    ProviderReferencesComplete(paper, references, worksByDoi);
    var fromSemanticScholar := SemanticScholarReferences(references);
    var fromCrossref := CrossrefReferences(paper, worksByDoi);
    assert ArrayOrEmpty(Some(fromSemanticScholar)) + ArrayOrEmpty(Some(fromCrossref)) == fromSemanticScholar + fromCrossref;
    MergeWithoutSelection(decode, fromSemanticScholar + fromCrossref, batch);
  }
}
