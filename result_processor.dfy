/**
 * Record normalisation and reference deduplication
 * (modules/resultProcessor.js).
 */
module ResultProcessor {
  import opened Common
  import opened JsValue

  /**
   * A processed paper: the five fields `processPaperData` builds (`paperAbstract`
   * is the `abstract` key, a reserved word in Dafny). A field the
   * raw record lacked holds `Undefined`.
   */
  datatype Paper = Paper(id: Value, title: Value, year: Value, paperAbstract: Value, doi: Value)

  /** The processed paper as a JavaScript object: exactly its five own keys. */
  function AsObject(p: Paper): map<string, Value>
  {
    map["id" := p.id, "title" := p.title, "year" := p.year, "abstract" := p.paperAbstract, "doi" := p.doi]
  }

  /** `propertyMap`: provider-specific keys and their canonical names, in insertion order. */
  const PropertyMap: seq<(string, string)> := [("DOI", "doi"), ("article-title", "title")]

  /** `propertiesToRetain`: the keys of a processed paper. */
  const PropertiesToRetain: seq<string> := ["title", "doi", "abstract", "year", "id"]

  // ---------------------------------------------------------------------
  // In-place key helpers: the specification of each, then the object that
  // runs it.
  // ---------------------------------------------------------------------

  /** One step of `renameProperties`: move `oldProp` to `newProp` when it is an own key. */
  function RenameOne(m: map<string, Value>, oldProp: string, newProp: string): map<string, Value>
  {
    if oldProp in m then m[newProp := m[oldProp]] - {oldProp} else m
  }

  /** The properties after `renameProperties(obj, nameMap)`, the pairs taken in order. */
  function Renamed(m: map<string, Value>, nameMap: seq<(string, string)>): map<string, Value>
    decreases |nameMap|
  {
    if nameMap == [] then m
    else
      var last := nameMap[|nameMap| - 1];
      RenameOne(Renamed(m, nameMap[..|nameMap| - 1]), last.0, last.1)
  }

  /** The name `k` appears in `nameMap`, as an old or as a new name. */
  predicate Mentions(nameMap: seq<(string, string)>, k: string)
  {
    exists i :: 0 <= i < |nameMap| && (nameMap[i].0 == k || nameMap[i].1 == k)
  }

  /** The properties after `retainProperties(obj, keep)`. */
  function Retained(m: map<string, Value>, keep: seq<string>): map<string, Value>
  {
    map k | k in m && k in keep :: m[k]
  }

  /** The properties after `deleteProperties(obj, props)`. */
  function Deleted(m: map<string, Value>, props: seq<string>): map<string, Value>
  {
    map k | k in m && k !in props :: m[k]
  }

  /** The properties after `moveChildPropertiesToParent(obj, child)`. */
  function MovedChild(m: map<string, Value>, child: string): map<string, Value>
  {
    if child in m && Truthy(m[child]) && IsObjectTyped(m[child])
    then Assign(m, OwnEntries(m[child])) - {child}
    else m
  }

  /** A JavaScript object whose own properties the helpers change in place. */
  class JsObject {
    var props: map<string, Value>

    constructor (initial: map<string, Value>)
      ensures props == initial
    {
      props := initial;
    }

    /** `renameProperties(this, nameMap)`. */
    method RenameProperties(nameMap: seq<(string, string)>)
      modifies this
      ensures props == Renamed(old(props), nameMap)
    {
      for i := 0 to |nameMap|
        invariant props == Renamed(old(props), nameMap[..i])
      {
        var oldProp, newProp := nameMap[i].0, nameMap[i].1;
        if oldProp in props {
          props := props[newProp := props[oldProp]];
          props := props - {oldProp};
        }
        assert nameMap[..i + 1][..i] == nameMap[..i];
      }
      assert nameMap[..|nameMap|] == nameMap;
    }

    /** `deleteProperties(this, toDelete)`. */
    method DeleteProperties(toDelete: seq<string>)
      modifies this
      ensures props == Deleted(old(props), toDelete)
    {
      for i := 0 to |toDelete|
        invariant props == Deleted(old(props), toDelete[..i])
      {
        var prop := toDelete[i];
        if prop in props {
          props := props - {prop};
        }
        assert forall k :: k in toDelete[..i + 1] <==> k in toDelete[..i] || k == prop;
      }
      assert toDelete[..|toDelete|] == toDelete;
    }

    /** `retainProperties(this, keep)`: every own key outside `keep` is deleted. */
    method RetainProperties(keep: seq<string>)
      modifies this
      ensures props == Retained(old(props), keep)
    {
      var keys := props.Keys;
      while keys != {}
        invariant keys <= old(props).Keys
        invariant props == map k | k in old(props) && (k in keys || k in keep) :: old(props)[k]
        decreases keys
      {
        var prop :| prop in keys;
        if prop !in keep {
          props := props - {prop};
        }
        keys := keys - {prop};
      }
    }

    /** `moveChildPropertiesToParent(this, child)`. */
    method MoveChildPropertiesToParent(child: string)
      modifies this
      ensures props == MovedChild(old(props), child)
    {
      if child in props && Truthy(props[child]) && IsObjectTyped(props[child]) {
        props := Assign(props, OwnEntries(props[child]));
        props := props - {child};
      }
    }

    /**
     * `processPaperData(this)`: renames the provider-specific keys of this
     * object in place, then builds the processed paper from it.
     */
    method ProcessInPlace() returns (paper: Paper)
      modifies this
      ensures props == Renamed(old(props), PropertyMap)
      ensures ProcessPaperData(Obj(old(props))) == Some(paper)
    {
      RenameProperties(PropertyMap);
      paper := Paper(Get(props, "paperId"), Get(props, "title"), Get(props, "year"),
                     Get(props, "abstract"), OptionalProp(Get(props, "externalIds"), "DOI"));
    }
  }

  // ---------------------------------------------------------------------
  // processPaperData
  // ---------------------------------------------------------------------

  /** The own properties a truthy raw record exposes to `processPaperData`. */
  function RawProps(v: Value): map<string, Value>
  {
    if v.Obj? then v.props else map[]
  }

  /**
   * `processPaperData(paperData)`: `None` is the `null` it returns for a
   * falsy argument.
   */
  function ProcessPaperData(paperData: Value): (r: Option<Paper>)
    ensures r.None? <==> !Truthy(paperData)
  {
    if !Truthy(paperData) then None
    else
      var m := Renamed(RawProps(paperData), PropertyMap);
      Some(Paper(Get(m, "paperId"), Get(m, "title"), Get(m, "year"), Get(m, "abstract"),
                 OptionalProp(Get(m, "externalIds"), "DOI")))
  }

  // ---------------------------------------------------------------------
  // Identity keys
  // ---------------------------------------------------------------------

  /** `toLowerCase` on one character (see README for the non-ASCII cases). */
  function LowerChar(c: char): char
  {
    if 'A' <= c <= 'Z' then (c as int + 32) as char else c
  }

  /** A character `/[a-z0-9]/` keeps. */
  predicate IsKeyChar(c: char)
  {
    'a' <= c <= 'z' || '0' <= c <= '9'
  }

  /** `s.toLowerCase()`. */
  function Lower(s: string): string
  {
    seq(|s|, i requires 0 <= i < |s| => LowerChar(s[i]))
  }

  /** `s.replace(/[^a-z0-9]/g, '')`. */
  function KeepKeyChars(s: string): (r: string)
    ensures IsCanonical(r)
  {
    if s == [] then [] else (if IsKeyChar(s[0]) then [s[0]] else []) + KeepKeyChars(s[1..])
  }

  /** The concrete tail of `normalizeProperty`: lower-case, then keep `[a-z0-9]`. */
  function Canonical(s: string): string
  {
    KeepKeyChars(Lower(s))
  }

  /** Every character of `s` is one that `/[a-z0-9]/` keeps. */
  predicate IsCanonical(s: string)
  {
    forall i :: 0 <= i < |s| ==> IsKeyChar(s[i])
  }

  /** A property value `he.decode` accepts: a string, or a falsy value it is never given. */
  predicate Decodable(v: Value)
  {
    !Truthy(v) || v.Str?
  }

  /**
   * `normalizeProperty(ref, property)`. `decode` stands for `he.decode`
   * followed by NFD decomposition and removal of the combining marks
   * U+0300..U+036F.
   */
  function NormalizeProperty(decode: string -> string, ref: map<string, Value>, property: string): (key: string)
    requires Decodable(Get(ref, property))
  {
    if property in ref && Truthy(ref[property]) then Canonical(decode(ref[property].s)) else ""
  }

  /** The title and DOI of `ref` are values `normalizeProperty` accepts. */
  predicate KeysDecodable(ref: Paper)
  {
    Decodable(ref.title) && Decodable(ref.doi)
  }

  /** Every reference in `refs` has decodable keys. */
  predicate AllKeysDecodable(refs: seq<Paper>)
  {
    forall r :: r in refs ==> KeysDecodable(r)
  }

  /** `normalizeReference(ref)`: the normalised title and normalised DOI. */
  function NormalizeReference(decode: string -> string, ref: Paper): (keys: (string, string))
    requires KeysDecodable(ref)
    ensures IsCanonical(keys.0) && IsCanonical(keys.1)
    ensures !Truthy(ref.title) ==> keys.0 == ""
    ensures !Truthy(ref.doi) ==> keys.1 == ""
  {
    (NormalizeProperty(decode, AsObject(ref), "title"), NormalizeProperty(decode, AsObject(ref), "doi"))
  }

  function TitleKey(decode: string -> string, ref: Paper): string
    requires KeysDecodable(ref)
  {
    NormalizeReference(decode, ref).0
  }

  function DoiKey(decode: string -> string, ref: Paper): string
    requires KeysDecodable(ref)
  {
    NormalizeReference(decode, ref).1
  }

  /** `{key}` for a non-empty key, else nothing. */
  function NonEmpty(key: string): set<string>
  {
    if key == "" then {} else {key}
  }

  /** The non-empty normalised titles of `refs`. */
  function TitleKeys(decode: string -> string, refs: seq<Paper>): set<string>
    requires AllKeysDecodable(refs)
    decreases |refs|
  {
    if refs == [] then {}
    else TitleKeys(decode, refs[..|refs| - 1]) + NonEmpty(TitleKey(decode, refs[|refs| - 1]))
  }

  /** The non-empty normalised DOIs of `refs`. */
  function DoiKeys(decode: string -> string, refs: seq<Paper>): set<string>
    requires AllKeysDecodable(refs)
    decreases |refs|
  {
    if refs == [] then {}
    else DoiKeys(decode, refs[..|refs| - 1]) + NonEmpty(DoiKey(decode, refs[|refs| - 1]))
  }

  // ---------------------------------------------------------------------
  // mergeReferences
  // ---------------------------------------------------------------------

  /**
   * The admission rule: `ref` has a non-empty normalised title not among the
   * titles of the references already admitted, or a non-empty normalised DOI
   * not among their DOIs.
   */
  predicate Admits(decode: string -> string, admitted: seq<Paper>, ref: Paper)
    requires AllKeysDecodable(admitted) && KeysDecodable(ref)
  {
    (TitleKey(decode, ref) != "" && TitleKey(decode, ref) !in TitleKeys(decode, admitted))
    || (DoiKey(decode, ref) != "" && DoiKey(decode, ref) !in DoiKeys(decode, admitted))
  }

  /** The references a single order-preserving pass over `refs` admits. */
  function Merge(decode: string -> string, refs: seq<Paper>): (merged: seq<Paper>)
    requires AllKeysDecodable(refs)
    ensures |merged| <= |refs|
    ensures AllKeysDecodable(merged)
    decreases |refs|
  {
    if refs == [] then []
    else
      var admitted := Merge(decode, refs[..|refs| - 1]);
      var ref := refs[|refs| - 1];
      if Admits(decode, admitted, ref) then admitted + [ref] else admitted
  }

  /** Appending a reference adds its non-empty keys to the key sets. */
  lemma KeysAppend(decode: string -> string, refs: seq<Paper>, ref: Paper)
    requires AllKeysDecodable(refs) && KeysDecodable(ref)
    ensures AllKeysDecodable(refs + [ref])
    ensures TitleKeys(decode, refs + [ref]) == TitleKeys(decode, refs) + NonEmpty(TitleKey(decode, ref))
    ensures DoiKeys(decode, refs + [ref]) == DoiKeys(decode, refs) + NonEmpty(DoiKey(decode, ref))
  {
    assert (refs + [ref])[..|refs|] == refs;
  }

  /** One more step of the pass. */
  lemma MergeAppend(decode: string -> string, refs: seq<Paper>, ref: Paper)
    requires AllKeysDecodable(refs) && KeysDecodable(ref)
    ensures AllKeysDecodable(refs + [ref])
    ensures Merge(decode, refs + [ref])
            == if Admits(decode, Merge(decode, refs), ref) then Merge(decode, refs) + [ref] else Merge(decode, refs)
  {
    assert (refs + [ref])[..|refs|] == refs;
  }

  /** `Array.isArray(arg) ? arg : []`; `None` stands for any non-array argument. */
  function ArrayOrEmpty(arg: Option<seq<Paper>>): seq<Paper>
  {
    if arg.Some? then arg.value else []
  }

  /** What `mergeReferences(fromSemanticScholar, fromCrossref)` returns. */
  function MergedReferences(decode: string -> string, fromSemanticScholar: Option<seq<Paper>>,
                            fromCrossref: Option<seq<Paper>>): seq<Paper>
    requires AllKeysDecodable(ArrayOrEmpty(fromSemanticScholar) + ArrayOrEmpty(fromCrossref))
  {
    Merge(decode, ArrayOrEmpty(fromSemanticScholar) + ArrayOrEmpty(fromCrossref))
  }

  /**
   * One iteration of `mergeReferences`: its test is the admission rule, and
   * the sets it grows are the keys of the grown list.
   */
  lemma SeenKeysStep(decode: string -> string, merged: seq<Paper>, ref: Paper,
                     seenTitles: set<string>, seenDois: set<string>)
    requires AllKeysDecodable(merged) && KeysDecodable(ref)
    requires seenTitles == TitleKeys(decode, merged) && seenDois == DoiKeys(decode, merged)
    ensures AllKeysDecodable(merged + [ref])
    ensures Admits(decode, merged, ref)
            == ((NormalizeReference(decode, ref).0 != "" && NormalizeReference(decode, ref).0 !in seenTitles)
                || (NormalizeReference(decode, ref).1 != "" && NormalizeReference(decode, ref).1 !in seenDois))
    ensures TitleKeys(decode, merged + [ref]) == seenTitles + NonEmpty(NormalizeReference(decode, ref).0)
    ensures DoiKeys(decode, merged + [ref]) == seenDois + NonEmpty(NormalizeReference(decode, ref).1)
  {
    KeysAppend(decode, merged, ref);
  }

  /**
   * The `forEach` callback of `mergeReferences`: given the list and the two
   * seen sets so far, it appends `ref` exactly when the admission rule lets
   * it in, and keeps the sets equal to the keys of the list.
   */
  method VisitReference(decode: string -> string, ref: Paper, merged: seq<Paper>,
                        seenTitles: set<string>, seenDois: set<string>)
    returns (mergedAfter: seq<Paper>, titlesAfter: set<string>, doisAfter: set<string>)
    requires AllKeysDecodable(merged) && KeysDecodable(ref)
    requires seenTitles == TitleKeys(decode, merged) && seenDois == DoiKeys(decode, merged)
    ensures mergedAfter == if Admits(decode, merged, ref) then merged + [ref] else merged
    ensures AllKeysDecodable(mergedAfter)
    ensures titlesAfter == TitleKeys(decode, mergedAfter) && doisAfter == DoiKeys(decode, mergedAfter)
  {
    SeenKeysStep(decode, merged, ref, seenTitles, seenDois);
    var keys := NormalizeReference(decode, ref);
    var normalizedTitle, normalizedDoi := keys.0, keys.1;
    mergedAfter, titlesAfter, doisAfter := merged, seenTitles, seenDois;
    if (normalizedTitle != "" && normalizedTitle !in seenTitles)
       || (normalizedDoi != "" && normalizedDoi !in seenDois)
    {
      if normalizedTitle != "" {
        titlesAfter := titlesAfter + {normalizedTitle};
      }
      if normalizedDoi != "" {
        doisAfter := doisAfter + {normalizedDoi};
      }
      mergedAfter := mergedAfter + [ref];
    }
  }

  /**
   * `mergeReferences`: one pass over the concatenated lists with a set of
   * seen titles and a set of seen DOIs.
   */
  method MergeReferences(decode: string -> string, fromSemanticScholar: Option<seq<Paper>>,
                         fromCrossref: Option<seq<Paper>>) returns (merged: seq<Paper>)
    requires AllKeysDecodable(ArrayOrEmpty(fromSemanticScholar) + ArrayOrEmpty(fromCrossref))
    ensures merged == MergedReferences(decode, fromSemanticScholar, fromCrossref)
  {
    var all := ArrayOrEmpty(fromSemanticScholar) + ArrayOrEmpty(fromCrossref);
    var seenTitles: set<string> := {};
    var seenDois: set<string> := {};
    merged := [];
    for i := 0 to |all|
      invariant AllKeysDecodable(all[..i])
      invariant merged == Merge(decode, all[..i])
      invariant seenTitles == TitleKeys(decode, merged)
      invariant seenDois == DoiKeys(decode, merged)
    {
      assert all[..i + 1] == all[..i] + [all[i]];
      assert all[i] in all;
      MergeAppend(decode, all[..i], all[i]);
      merged, seenTitles, seenDois := VisitReference(decode, all[i], merged, seenTitles, seenDois);
    }
    assert all[..|all|] == all;
  }

  // ---------------------------------------------------------------------
  // Properties of the key helpers and of processPaperData
  // ---------------------------------------------------------------------

  /** `renameProperties` leaves every key that `nameMap` does not mention as it was. */
  lemma {:induction false} RenamedLeavesOtherKeys(m: map<string, Value>, nameMap: seq<(string, string)>, k: string)
    requires !Mentions(nameMap, k)
    ensures k in Renamed(m, nameMap) <==> k in m
    ensures Get(Renamed(m, nameMap), k) == Get(m, k)
    decreases |nameMap|
  {
    if nameMap != [] {
      var prefix := nameMap[..|nameMap| - 1];
      assert !Mentions(prefix, k) by {
        forall i | 0 <= i < |prefix| ensures prefix[i].0 != k && prefix[i].1 != k {
          assert prefix[i] == nameMap[i];
        }
      }
      RenamedLeavesOtherKeys(m, prefix, k);
      assert nameMap[|nameMap| - 1].0 != k && nameMap[|nameMap| - 1].1 != k;
    }
  }

  /**
   * `renameProperties(obj, propertyMap)`: afterwards neither `DOI` nor
   * `article-title` is a key; a present `DOI` (`article-title`) value sits
   * under `doi` (`title`), overwriting what was there; every other key is
   * untouched.
   */
  lemma RenamedByPropertyMap(m: map<string, Value>)
    ensures "DOI" !in Renamed(m, PropertyMap) && "article-title" !in Renamed(m, PropertyMap)
    ensures "DOI" in m ==> Get(Renamed(m, PropertyMap), "doi") == m["DOI"]
    ensures "DOI" !in m ==> ("doi" in Renamed(m, PropertyMap) <==> "doi" in m)
                            && Get(Renamed(m, PropertyMap), "doi") == Get(m, "doi")
    ensures "article-title" in m ==> Get(Renamed(m, PropertyMap), "title") == m["article-title"]
    ensures "article-title" !in m ==> ("title" in Renamed(m, PropertyMap) <==> "title" in m)
                                      && Get(Renamed(m, PropertyMap), "title") == Get(m, "title")
    ensures forall k :: k !in {"DOI", "doi", "article-title", "title"} ==>
              (k in Renamed(m, PropertyMap) <==> k in m) && Get(Renamed(m, PropertyMap), k) == Get(m, k)
  {
    assert PropertyMap[..1] == [("DOI", "doi")];
    assert PropertyMap[..1][..0] == [];
    assert Renamed(m, PropertyMap) == RenameOne(RenameOne(m, "DOI", "doi"), "article-title", "title");
  }

  /**
   * The processed paper's fields: `id` is the raw `paperId`, `doi` is the raw
   * `externalIds.DOI`, `title` is the raw `article-title` when there is one and
   * the raw `title` otherwise, `year` and `abstract` are copied.
   */
  lemma ProcessPaperDataFields(paperData: Value)
    requires Truthy(paperData)
    ensures ProcessPaperData(paperData).Some?
    ensures ProcessPaperData(paperData).value.id == Prop(paperData, "paperId")
    ensures ProcessPaperData(paperData).value.doi == OptionalProp(Prop(paperData, "externalIds"), "DOI")
    ensures ProcessPaperData(paperData).value.title
            == if paperData.Obj? && "article-title" in paperData.props
               then paperData.props["article-title"] else Prop(paperData, "title")
    ensures ProcessPaperData(paperData).value.year == Prop(paperData, "year")
    ensures ProcessPaperData(paperData).value.paperAbstract == Prop(paperData, "abstract")
  {
    RenamedByPropertyMap(RawProps(paperData));
  }

  /** A top-level `doi` or `DOI` on the raw record never reaches the processed paper. */
  lemma TopLevelDoiIgnored(m: map<string, Value>)
    ensures ProcessPaperData(Obj(m)) == ProcessPaperData(Obj(m - {"doi", "DOI"}))
  {
    var stripped := m - {"doi", "DOI"};
    assert "article-title" !in {"doi", "DOI"};
    ReadFieldsDecide(m, stripped);
  }

  /**
   * The processed paper depends only on the raw `paperId`, `title`,
   * `article-title`, `year`, `abstract` and `externalIds`.
   */
  lemma ReadFieldsDecide(m1: map<string, Value>, m2: map<string, Value>)
    requires Get(m1, "paperId") == Get(m2, "paperId") && Get(m1, "title") == Get(m2, "title")
    requires Get(m1, "year") == Get(m2, "year") && Get(m1, "abstract") == Get(m2, "abstract")
    requires Get(m1, "externalIds") == Get(m2, "externalIds")
    requires "article-title" in m1 <==> "article-title" in m2
    requires "article-title" in m1 ==> m1["article-title"] == m2["article-title"]
    ensures ProcessPaperData(Obj(m1)) == ProcessPaperData(Obj(m2))
  {
    ProcessPaperDataFields(Obj(m1));
    ProcessPaperDataFields(Obj(m2));
    var a, b := ProcessPaperData(Obj(m1)).value, ProcessPaperData(Obj(m2)).value;
    assert a.id == b.id && a.year == b.year && a.paperAbstract == b.paperAbstract;
    assert a.title == b.title;
    assert a.doi == b.doi;
  }

  /**
   * Processing an already processed paper keeps its title, year and abstract
   * but loses its `id` and `doi`: `processPaperData` is not idempotent.
   */
  lemma ReprocessingLosesIdAndDoi(p: Paper)
    ensures ProcessPaperData(Obj(AsObject(p))) == Some(Paper(Undefined, p.title, p.year, p.paperAbstract, Undefined))
  {
    ProcessPaperDataFields(Obj(AsObject(p)));
  }

  /** Retaining `propertiesToRetain` leaves a processed paper as it is. */
  lemma RetainKeepsProcessedPaper(p: Paper)
    ensures Retained(AsObject(p), PropertiesToRetain) == AsObject(p)
  {
  }

  /**
   * When every key is either to be deleted or to be retained (and not both),
   * `deleteProperties` and `retainProperties` agree.
   */
  lemma DeleteIsRetainOfTheRest(m: map<string, Value>, toDelete: seq<string>, keep: seq<string>)
    requires forall k :: k in m ==> (k in toDelete <==> k !in keep)
    ensures Deleted(m, toDelete) == Retained(m, keep)
  {
  }

  /**
   * `moveChildPropertiesToParent`: when the child is a truthy object, its own
   * entries overwrite the parent's and the child key disappears, all other
   * keys staying as they were; otherwise nothing changes.
   */
  lemma MovedChildEffect(m: map<string, Value>, child: string)
    ensures child in m && Truthy(m[child]) && IsObjectTyped(m[child]) ==>
              && child !in MovedChild(m, child)
              && (forall k :: k in OwnEntries(m[child]) && k != child ==> MovedChild(m, child)[k] == OwnEntries(m[child])[k])
              && (forall k :: k in m && k !in OwnEntries(m[child]) && k != child ==> MovedChild(m, child)[k] == m[k])
              && MovedChild(m, child).Keys == (m.Keys + OwnEntries(m[child]).Keys) - {child}
    ensures !(child in m && Truthy(m[child]) && IsObjectTyped(m[child])) ==> MovedChild(m, child) == m
  {
  }

  // ---------------------------------------------------------------------
  // Properties of the identity keys
  // ---------------------------------------------------------------------

  /** `normalizeProperty` returns `''` for a missing or falsy property and otherwise only `[a-z0-9]`. */
  lemma NormalizePropertyRange(decode: string -> string, ref: map<string, Value>, property: string)
    requires Decodable(Get(ref, property))
    ensures !(property in ref && Truthy(ref[property])) ==> NormalizeProperty(decode, ref, property) == ""
    ensures IsCanonical(NormalizeProperty(decode, ref, property))
  {
  }

  /** Lower-casing and filtering a string that is already canonical changes nothing. */
  lemma {:induction false} CanonicalFixesCanonical(s: string)
    requires IsCanonical(s)
    ensures Canonical(s) == s
  {
    assert Lower(s) == s;
    KeepKeyCharsFixes(s);
  }

  lemma {:induction false} KeepKeyCharsFixes(s: string)
    requires IsCanonical(s)
    ensures KeepKeyChars(s) == s
  {
    if s != [] {
      KeepKeyCharsFixes(s[1..]);
    }
  }

  /** The lower-case-then-strip step is idempotent. */
  lemma CanonicalIdempotent(s: string)
    ensures Canonical(Canonical(s)) == Canonical(s)
  {
    CanonicalFixesCanonical(Canonical(s));
  }

  /** The key of a concatenation is the concatenation of the keys. */
  lemma {:induction false} CanonicalAppend(a: string, b: string)
    ensures Canonical(a + b) == Canonical(a) + Canonical(b)
  {
    assert Lower(a + b) == Lower(a) + Lower(b);
    KeepKeyCharsAppend(Lower(a), Lower(b));
  }

  lemma {:induction false} KeepKeyCharsAppend(a: string, b: string)
    ensures KeepKeyChars(a + b) == KeepKeyChars(a) + KeepKeyChars(b)
  {
    if a != [] {
      assert (a + b)[0] == a[0] && (a + b)[1..] == a[1..] + b;
      KeepKeyCharsAppend(a[1..], b);
    } else {
      assert a + b == b;
    }
  }

  /** The key ignores letter case: lower-casing first changes nothing. */
  lemma CanonicalIgnoresCase(s: string)
    ensures Canonical(Lower(s)) == Canonical(s)
  {
    assert Lower(Lower(s)) == Lower(s);
  }

  // ---------------------------------------------------------------------
  // Properties of mergeReferences
  // ---------------------------------------------------------------------

  /** Each reference of `refs` would be admitted after the ones before it. */
  predicate AllAdmitted(decode: string -> string, refs: seq<Paper>)
    requires AllKeysDecodable(refs)
  {
    forall j :: 0 <= j < |refs| ==> AdmittedAt(decode, refs, j)
  }

  /** The reference at index `j` is admitted after the ones before it. */
  predicate AdmittedAt(decode: string -> string, refs: seq<Paper>, j: nat)
    requires AllKeysDecodable(refs) && j < |refs|
  {
    Admits(decode, refs[..j], refs[j])
  }

  /** A non-empty key of any reference is among the keys of its list. */
  lemma {:induction false} KeysOfMember(decode: string -> string, refs: seq<Paper>, i: nat)
    requires AllKeysDecodable(refs) && i < |refs|
    ensures NonEmpty(TitleKey(decode, refs[i])) <= TitleKeys(decode, refs)
    ensures NonEmpty(DoiKey(decode, refs[i])) <= DoiKeys(decode, refs)
    decreases |refs|
  {
    if i < |refs| - 1 {
      KeysOfMember(decode, refs[..|refs| - 1], i);
    }
  }

  /** The merged list is an order-preserving subsequence of its input. */
  lemma {:induction false} MergeIsSubsequence(decode: string -> string, refs: seq<Paper>)
    requires AllKeysDecodable(refs)
    ensures Subsequence(Merge(decode, refs), refs)
    decreases |refs|
  {
    if refs != [] {
      var prefix := refs[..|refs| - 1];
      var admitted := Merge(decode, prefix);
      MergeIsSubsequence(decode, prefix);
      if Admits(decode, admitted, refs[|refs| - 1]) {
        var merged := admitted + [refs[|refs| - 1]];
        assert merged[..|merged| - 1] == admitted;
      }
    }
  }

  /** Every merged reference was admitted against the merged references before it. */
  lemma {:induction false} MergeAdmitsAll(decode: string -> string, refs: seq<Paper>)
    requires AllKeysDecodable(refs)
    ensures AllAdmitted(decode, Merge(decode, refs))
    decreases |refs|
  {
    if refs != [] {
      var prefix := refs[..|refs| - 1];
      var admitted := Merge(decode, prefix);
      var ref := refs[|refs| - 1];
      MergeAdmitsAll(decode, prefix);
      if Admits(decode, admitted, ref) {
        var merged := admitted + [ref];
        forall j | 0 <= j < |merged| ensures AdmittedAt(decode, merged, j) {
          if j < |admitted| {
            assert AdmittedAt(decode, admitted, j);
            assert merged[..j] == admitted[..j] && merged[j] == admitted[j];
          } else {
            assert merged[..j] == admitted && merged[j] == ref;
          }
        }
        assert AllAdmitted(decode, merged);
      }
    }
  }

  /** A list in which every reference is admitted after the ones before it merges to itself. */
  lemma {:induction false} MergeOfAdmitted(decode: string -> string, refs: seq<Paper>)
    requires AllKeysDecodable(refs) && AllAdmitted(decode, refs)
    ensures Merge(decode, refs) == refs
    decreases |refs|
  {
    if refs != [] {
      var prefix := refs[..|refs| - 1];
      var last := refs[|refs| - 1];
      AllAdmittedPrefix(decode, refs);
      MergeOfAdmitted(decode, prefix);
      assert refs == prefix + [last];
      MergeStep(decode, prefix, last);
    }
  }

  /** Appending an admitted reference to a list that merges to itself gives a list that merges to itself. */
  lemma MergeStep(decode: string -> string, prefix: seq<Paper>, last: Paper)
    requires AllKeysDecodable(prefix) && KeysDecodable(last)
    requires Merge(decode, prefix) == prefix && Admits(decode, prefix, last)
    ensures AllKeysDecodable(prefix + [last])
    ensures Merge(decode, prefix + [last]) == prefix + [last]
  {
    MergeAppend(decode, prefix, last);
  }

  /** Dropping the last reference of an all-admitted list leaves an all-admitted list. */
  lemma AllAdmittedPrefix(decode: string -> string, refs: seq<Paper>)
    requires AllKeysDecodable(refs) && AllAdmitted(decode, refs) && refs != []
    ensures AllKeysDecodable(refs[..|refs| - 1]) && AllAdmitted(decode, refs[..|refs| - 1])
    ensures Admits(decode, refs[..|refs| - 1], refs[|refs| - 1])
  {
    var prefix := refs[..|refs| - 1];
    forall j | 0 <= j < |prefix| ensures AdmittedAt(decode, prefix, j) {
      assert prefix[..j] == refs[..j];
      assert AdmittedAt(decode, refs, j);
    }
    assert AdmittedAt(decode, refs, |prefix|);
  }

  /**
   * The admission rule characterises the output: a list is left unchanged by
   * the merge exactly when each of its references has a non-empty key that no
   * earlier reference has.
   */
  lemma MergeFixpoint(decode: string -> string, refs: seq<Paper>)
    requires AllKeysDecodable(refs)
    ensures Merge(decode, refs) == refs <==> AllAdmitted(decode, refs)
  {
    MergeAdmitsAll(decode, refs);
    if AllAdmitted(decode, refs) {
      MergeOfAdmitted(decode, refs);
    }
  }

  /** `mergeReferences(mergeReferences(a, b), [])` equals `mergeReferences(a, b)`. */
  lemma MergeReferencesIdempotent(decode: string -> string, fromSemanticScholar: Option<seq<Paper>>,
                                  fromCrossref: Option<seq<Paper>>)
    requires AllKeysDecodable(ArrayOrEmpty(fromSemanticScholar) + ArrayOrEmpty(fromCrossref))
    ensures var merged := MergedReferences(decode, fromSemanticScholar, fromCrossref);
            MergedReferences(decode, Some(merged), Some([])) == merged
  {
    var merged := MergedReferences(decode, fromSemanticScholar, fromCrossref);
    assert ArrayOrEmpty(Some(merged)) + ArrayOrEmpty(Some([])) == merged;
    MergeAdmitsAll(decode, ArrayOrEmpty(fromSemanticScholar) + ArrayOrEmpty(fromCrossref));
    MergeOfAdmitted(decode, merged);
  }

  /** No key is lost: the merged list has exactly the non-empty titles and DOIs of its input. */
  lemma {:induction false} MergeKeepsAllKeys(decode: string -> string, refs: seq<Paper>)
    requires AllKeysDecodable(refs)
    ensures TitleKeys(decode, Merge(decode, refs)) == TitleKeys(decode, refs)
    ensures DoiKeys(decode, Merge(decode, refs)) == DoiKeys(decode, refs)
    decreases |refs|
  {
    if refs != [] {
      var prefix := refs[..|refs| - 1];
      var admitted := Merge(decode, prefix);
      var ref := refs[|refs| - 1];
      MergeKeepsAllKeys(decode, prefix);
      if Admits(decode, admitted, ref) {
        KeysAppend(decode, admitted, ref);
      }
    }
  }

  /**
   * Each merged reference has a non-empty title that no earlier merged
   * reference has, or a non-empty DOI that no earlier one has. So no merged
   * reference has both keys empty, and no two share both a title and a DOI.
   */
  lemma MergedReferencesDistinct(decode: string -> string, refs: seq<Paper>)
    requires AllKeysDecodable(refs)
    ensures var merged := Merge(decode, refs);
            forall j :: 0 <= j < |merged| ==>
              (TitleKey(decode, merged[j]) != ""
               && forall i :: 0 <= i < j ==> TitleKey(decode, merged[i]) != TitleKey(decode, merged[j]))
              || (DoiKey(decode, merged[j]) != ""
                  && forall i :: 0 <= i < j ==> DoiKey(decode, merged[i]) != DoiKey(decode, merged[j]))
  {
    var merged := Merge(decode, refs);
    MergeAdmitsAll(decode, refs);
    forall j | 0 <= j < |merged|
      ensures (TitleKey(decode, merged[j]) != ""
               && forall i :: 0 <= i < j ==> TitleKey(decode, merged[i]) != TitleKey(decode, merged[j]))
              || (DoiKey(decode, merged[j]) != ""
                  && forall i :: 0 <= i < j ==> DoiKey(decode, merged[i]) != DoiKey(decode, merged[j]))
    {
      assert AdmittedAt(decode, merged, j);
      forall i | 0 <= i < j
        ensures NonEmpty(TitleKey(decode, merged[i])) <= TitleKeys(decode, merged[..j])
        ensures NonEmpty(DoiKey(decode, merged[i])) <= DoiKeys(decode, merged[..j])
      {
        KeysOfMember(decode, merged[..j], i);
      }
    }
  }

  /**
   * The rule is looser than "same title or same DOI means same reference":
   * two references with different non-empty titles are both kept, whatever
   * their DOIs.
   */
  lemma DifferentTitlesBothKept(decode: string -> string, a: Paper, b: Paper)
    requires KeysDecodable(a) && KeysDecodable(b)
    requires TitleKey(decode, a) != "" && TitleKey(decode, b) != ""
    requires TitleKey(decode, a) != TitleKey(decode, b)
    ensures Merge(decode, [a, b]) == [a, b]
  {
    assert [a, b][..1] == [a];
    assert [a][..0] == [];
    assert Merge(decode, [a]) == [a];
    assert TitleKeys(decode, [a]) == {TitleKey(decode, a)};
  }

  /**
   * A later reference whose non-empty keys all repeat those of an earlier one
   * is dropped, and a reference with no non-empty key is never kept.
   */
  lemma RepeatedKeysDropped(decode: string -> string, a: Paper, b: Paper)
    requires KeysDecodable(a) && KeysDecodable(b)
    requires TitleKey(decode, b) == "" || TitleKey(decode, b) == TitleKey(decode, a)
    requires DoiKey(decode, b) == "" || DoiKey(decode, b) == DoiKey(decode, a)
    ensures Merge(decode, [a, b]) == if TitleKey(decode, a) != "" || DoiKey(decode, a) != "" then [a] else []
  {
    assert [a, b][..1] == [a];
    assert [a][..0] == [];
    assert TitleKeys(decode, [a]) == NonEmpty(TitleKey(decode, a));
    assert DoiKeys(decode, [a]) == NonEmpty(DoiKey(decode, a));
  }
}
