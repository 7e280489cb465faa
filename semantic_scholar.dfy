/**
 * Request-id selection and URL building for the primary provider
 * (modules/semanticScholar.js). The HTTP calls themselves are parameters:
 * `batch` for the batch endpoint, `get` for a single GET, `encode` for
 * `encodeURIComponent`.
 */
module SemanticScholar {
  import opened Common
  import opened JsValue
  import opened ResultProcessor
  import opened FileReader

  /** `API_BASE_URL`. */
  const ApiBaseUrl: string := "https://api.semanticscholar.org/v1/paper/"

  /** `ref.doi && !ref.id`: a reference with a DOI but no provider id. */
  predicate NeedsEnrichment(ref: Paper)
  {
    Truthy(ref.doi) && !Truthy(ref.id)
  }

  /**
   * `references.filter(ref => ref.doi && !ref.id).map(ref => `DOI:${ref.doi}`)`:
   * the batch request ids of the references to enrich.
   */
  function EnrichmentIds(references: seq<Paper>): (ids: seq<string>)
    ensures |ids| <= |references|
    ensures forall i :: 0 <= i < |ids| ==> StartsWith(ids[i], "DOI:")
    ensures ids == [] <==> forall i :: 0 <= i < |references| ==> !NeedsEnrichment(references[i])
  {
    if references == [] then []
    else
      (if NeedsEnrichment(references[0]) then ["DOI:" + ToJsString(references[0].doi)] else [])
      + EnrichmentIds(references[1..])
  }

  /**
   * `enrichReferences(references)`: `None` stands for an argument that is not
   * an array (including `null`), for which the result is `undefined`.
   */
  function EnrichReferences(references: Option<seq<Paper>>, batch: seq<string> -> Value): (response: Value)
    ensures references.None? ==> response == Undefined
  {
    if references.None? then Undefined
    else
      var ids := EnrichmentIds(references.value);
      if |ids| > 0 then batch(ids) else Arr([])
  }

  /** The batch request id of a classified seed id: `${type}:${id}`. */
  function RequestId(paper: KnownId): string
  {
    paper.idType.Name() + ":" + paper.id
  }

  /** Everything before the first `:` and everything after it (all of `s` when there is none). */
  function SplitAtColon(s: string): (string, string)
  {
    if s == [] then ("", "")
    else if s[0] == ':' then ("", s[1..])
    else
      var rest := SplitAtColon(s[1..]);
      ([s[0]] + rest.0, rest.1)
  }

  /** The request ids of `fetchMultiplePapaerData`, one per seed id, in order. */
  function BatchIds(papers: seq<KnownId>): (ids: seq<string>)
    ensures |ids| == |papers|
    ensures forall i :: 0 <= i < |papers| ==> SplitAtColon(ids[i]) == (papers[i].idType.Name(), papers[i].id)
    ensures forall i :: 0 <= i < |papers| ==> |ids[i]| == |papers[i].idType.Name()| + 1 + |papers[i].id|
  {
    var ids := seq(|papers|, i requires 0 <= i < |papers| => RequestId(papers[i]));
    forall i | 0 <= i < |papers| ensures SplitAtColon(ids[i]) == (papers[i].idType.Name(), papers[i].id) {
      SplitAtColonOfRequestId(papers[i].idType.Name(), papers[i].id);
    }
    ids
  }

  /** `fetchMultiplePapaerData(papers)`: one batch request for all seed ids. */
  function FetchMultiplePaperData(papers: seq<KnownId>, batch: seq<string> -> Value): Value
  {
    batch(BatchIds(papers))
  }

  /** `${prefix}:${rest}` splits back into its parts when `prefix` has no `:`. */
  lemma {:induction false} SplitAtColonOfRequestId(prefix: string, rest: string)
    requires ':' !in prefix
    ensures SplitAtColon(prefix + ":" + rest) == (prefix, rest)
  {
    if prefix == [] {
      assert prefix + ":" + rest == [':'] + rest;
    } else {
      assert (prefix + ":" + rest)[0] == prefix[0];
      assert (prefix + ":" + rest)[1..] == prefix[1..] + ":" + rest;
      assert ':' !in prefix[1..];
      SplitAtColonOfRequestId(prefix[1..], rest);
      assert [prefix[0]] + prefix[1..] == prefix;
    }
  }

  /** The URL `makeApiRequest` requests for an id of the given type; `None` where it throws. */
  function ApiUrl(paperId: string, idType: string, encode: string -> string): Option<string>
  {
    if idType == "DOI" then Some(ApiBaseUrl + encode(paperId))
    else if idType == "CorpusId" then Some(ApiBaseUrl + "CorpusID:" + paperId)
    else if idType == "arXivId" then Some(ApiBaseUrl + "arXiv:" + encode(paperId))
    else if idType == "Title" then Some(ApiBaseUrl + "paper/search?query=" + encode(paperId) + "&limit=1")
    else None
  }

  /**
   * `makeApiRequest(paperId, type)`: `get` performs the GET and gives `None`
   * when it fails; any failure, including an unknown type, yields `null`.
   */
  function MakeApiRequest(paperId: string, idType: string, encode: string -> string,
                          get: string -> Option<Value>): Value
  {
    match ApiUrl(paperId, idType, encode)
    case None => Null
    case Some(url) =>
      match get(url)
      case None => Null
      case Some(data) => data
  }

  // ---------------------------------------------------------------------
  // Properties
  // ---------------------------------------------------------------------

  /** The selection keeps the order of the references: it distributes over concatenation. */
  lemma {:induction false} EnrichmentIdsAppend(a: seq<Paper>, b: seq<Paper>)
    ensures EnrichmentIds(a + b) == EnrichmentIds(a) + EnrichmentIds(b)
    decreases |a|
  {
    if a == [] {
      assert a + b == b;
      assert EnrichmentIds(a) == [];
      assert [] + EnrichmentIds(b) == EnrichmentIds(b);
    } else {
      assert (a + b)[0] == a[0];
      assert (a + b)[1..] == a[1..] + b;
      EnrichmentIdsAppend(a[1..], b);
      var head := if NeedsEnrichment(a[0]) then ["DOI:" + ToJsString(a[0].doi)] else [];
      assert EnrichmentIds(a + b) == head + EnrichmentIds(a[1..] + b);
      assert EnrichmentIds(a) == head + EnrichmentIds(a[1..]);
      ConcatAssociative(head, EnrichmentIds(a[1..]), EnrichmentIds(b));
    }
  }

  /** A single reference contributes `DOI:<doi>` exactly when it has a DOI and no id. */
  lemma EnrichmentIdsOfOne(ref: Paper)
    ensures EnrichmentIds([ref]) == if NeedsEnrichment(ref) then ["DOI:" + ToJsString(ref.doi)] else []
  {
    assert [ref][1..] == [];
  }

  /**
   * When no reference needs enrichment, `enrichReferences` returns `[]`
   * without using the batch endpoint; otherwise it returns the batch
   * response for exactly the selected ids.
   */
  lemma EnrichReferencesResponse(references: seq<Paper>, batch: seq<string> -> Value)
    ensures (forall i :: 0 <= i < |references| ==> !NeedsEnrichment(references[i]))
            ==> EnrichReferences(Some(references), batch) == Arr([])
    ensures (exists i :: 0 <= i < |references| && NeedsEnrichment(references[i]))
            ==> EnrichReferences(Some(references), batch) == batch(EnrichmentIds(references))
  {
  }

  /** Every id the seed reader classifies as known has a request URL under the API base. */
  lemma ClassifiedIdsHaveUrls(id: string, encode: string -> string)
    ensures DetermineIdType(id) != Unknown ==> ApiUrl(id, DetermineIdType(id).Name(), encode).Some?
    ensures DetermineIdType(id) == Unknown ==> ApiUrl(id, DetermineIdType(id).Name(), encode).None?
  {
  }

  /** Any type other than `DOI`, `CorpusId`, `arXivId` and `Title` makes `makeApiRequest` yield `null`. */
  lemma UnknownTypeYieldsNull(paperId: string, idType: string, encode: string -> string,
                              get: string -> Option<Value>)
    requires idType !in {"DOI", "CorpusId", "arXivId", "Title"}
    ensures MakeApiRequest(paperId, idType, encode, get) == Null
  {
  }

  /** Every request URL lies under the API base URL. */
  lemma ApiUrlUnderBase(paperId: string, idType: string, encode: string -> string)
    ensures ApiUrl(paperId, idType, encode).Some? ==> StartsWith(ApiUrl(paperId, idType, encode).value, ApiBaseUrl)
  {
    var url := ApiUrl(paperId, idType, encode);
    if url.Some? {
      assert url.value[..|ApiBaseUrl|] == ApiBaseUrl;
    }
  }

  /** With an injective encoder, different ids of the same type get different URLs. */
  lemma ApiUrlInjective(a: string, b: string, idType: string, encode: string -> string)
    requires forall x, y :: encode(x) == encode(y) ==> x == y
    requires ApiUrl(a, idType, encode).Some?
    requires ApiUrl(a, idType, encode) == ApiUrl(b, idType, encode)
    ensures a == b
  {
    var ua, ub := ApiUrl(a, idType, encode).value, ApiUrl(b, idType, encode).value;
    if idType == "DOI" {
      assert ua[|ApiBaseUrl|..] == encode(a) && ub[|ApiBaseUrl|..] == encode(b);
    } else if idType == "CorpusId" {
      var p := ApiBaseUrl + "CorpusID:";
      assert ua[|p|..] == a && ub[|p|..] == b;
    } else if idType == "arXivId" {
      var p := ApiBaseUrl + "arXiv:";
      assert ua[|p|..] == encode(a) && ub[|p|..] == encode(b);
    } else {
      var p := ApiBaseUrl + "paper/search?query=";
      assert ua[|p|..|ua| - 8] == encode(a);
      assert ub[|p|..|ub| - 8] == encode(b);
    }
  }
}
