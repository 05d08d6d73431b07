/** The normalised article record of `pipeline/search.py` and the conversion of one
    stub entry into it that both source clients perform. */
module Records {
  import opened Wrappers
  import opened Text
  import opened Failures

  /** `SearchResult`, with the `citation_count` field that the clients pass and the
      ranking reads (default 0). The dataclass as written lacks it; see `AsWritten`
      in module `PubMed`. */
  datatype SearchResult = SearchResult(
    title: string,
    authors: seq<string>,
    year: int,
    journal: string,
    doi: string,
    studyType: string,
    sampleSize: string,
    imagingModality: seq<string>,
    keyFindings: string,
    accessType: string,
    source: string,
    link: string,
    citationCount: int)

  /** `SearchResult.unique_id`: the lowercased DOI, or the lowercased title joined to the
      source by "::" when there is no DOI. */
  function UniqueId(r: SearchResult): string {
    if r.doi != "" then Lower(r.doi) else Lower(r.title) + "::" + r.source
  }

  /** An id built from a DOI is the DOI lowercased; one built without a DOI keeps the
      lowercased title in front and the source at the end. */
  lemma UniqueIdShape(r: SearchResult)
    ensures r.doi != "" ==> |UniqueId(r)| == |r.doi|
                            && forall i :: 0 <= i < |r.doi| ==> UniqueId(r)[i] == ToLowerChar(r.doi[i])
    ensures r.doi == "" ==> IsPrefix(Lower(r.title), UniqueId(r)) && IsSuffix("::" + r.source, UniqueId(r))
  {
  }

  /** Two records whose DOIs differ only in letter case have the same id, whatever
      their titles and sources. */
  lemma DoiCaseInsensitive(a: SearchResult, b: SearchResult)
    requires a.doi != "" && b.doi != ""
    requires Lower(a.doi) == Lower(b.doi)
    ensures UniqueId(a) == UniqueId(b)
  {
  }

  /** One entry of a stub file: every field the clients read, each possibly absent. */
  datatype StubEntry = StubEntry(
    title: Option<string>,
    authors: Option<seq<string>>,
    year: Option<int>,
    journal: Option<string>,
    doi: Option<string>,
    studyType: Option<string>,
    sampleSize: Option<string>,
    imagingModality: Option<seq<string>>,
    keyFindings: Option<string>,
    accessType: Option<string>,
    link: Option<string>,
    citations: Option<int>,
    source: Option<string>)

  /** The stub file: a mapping from query name to that query's entries. */
  type Stub = map<string, seq<StubEntry>>

  /** The entries recorded for a query, or none (`payload.get(query.name, [])`). */
  function EntriesFor(stub: Stub, name: string): seq<StubEntry> {
    if name in stub then stub[name] else []
  }

  /** The record a client builds from one entry: `title` and `year` are required (a
      missing one raises `KeyError`, `title` first); every other field has a default;
      the source is forced to the client's name whatever the entry says. */
  function FromStub(e: StubEntry, source: string, citations: int): (r: Result<SearchResult, Failure>)
    ensures e.title.None? ==> r == Err(KeyError("title"))
    ensures e.title.Some? && e.year.None? ==> r == Err(KeyError("year"))
    ensures r.Ok? <==> e.title.Some? && e.year.Some?
    ensures r.Ok? ==> r.value.source == source && r.value.citationCount == citations
    ensures r.Ok? ==> r.value.title == e.title.value && r.value.year == e.year.value
  {
    if e.title.None? then Err(KeyError("title"))
    else if e.year.None? then Err(KeyError("year"))
    else Ok(SearchResult(
      title := e.title.value,
      authors := e.authors.GetOr([]),
      year := e.year.value,
      journal := e.journal.GetOr(""),
      doi := e.doi.GetOr(""),
      studyType := e.studyType.GetOr(""),
      sampleSize := e.sampleSize.GetOr(""),
      imagingModality := e.imagingModality.GetOr([]),
      keyFindings := e.keyFindings.GetOr(""),
      accessType := e.accessType.GetOr("unknown"),
      source := source,
      link := e.link.GetOr(""),
      citationCount := citations))
  }

  /** An entry with only a title and a year gives a record of defaults: empty text
      fields and lists, access type "unknown". */
  lemma FromStubDefaults(title: string, year: int, source: string, citations: int)
    ensures var e := StubEntry(Some(title), None, Some(year), None, None, None, None, None, None, None, None, None, None);
      FromStub(e, source, citations)
      == Ok(SearchResult(title, [], year, "", "", "", "", [], "", "unknown", source, "", citations))
  {
  }

  /** Entry `i` is the first one whose conversion fails. */
  predicate FirstFailing(es: seq<StubEntry>, source: string, citationsOf: StubEntry -> int, i: int)
    requires 0 <= i < |es|
  {
    && FromStub(es[i], source, citationsOf(es[i])).Err?
    && forall j :: 0 <= j < i ==> FromStub(es[j], source, citationsOf(es[j])).Ok?
  }

  /** The records of a sequence of entries in entry order; the first entry that fails
      decides the error. `citationsOf` says which citation count the client passes. */
  function FromStubs(es: seq<StubEntry>, source: string, citationsOf: StubEntry -> int)
    : (r: Result<seq<SearchResult>, Failure>)
    ensures r.Ok? <==> forall i :: 0 <= i < |es| ==> es[i].title.Some? && es[i].year.Some?
    ensures r.Ok? ==> |r.value| == |es|
    ensures r.Ok? ==> forall i :: 0 <= i < |es| ==> FromStub(es[i], source, citationsOf(es[i])) == Ok(r.value[i])
    ensures r.Err? ==> r.error == KeyError("title") || r.error == KeyError("year")
    decreases |es|
  {
    if es == [] then Ok([])
    else
      var init := es[..|es| - 1];
      var e := es[|es| - 1];
      match FromStubs(init, source, citationsOf)
      case Err(f) => Err(f)
      case Ok(rs) =>
        match FromStub(e, source, citationsOf(e))
        case Err(f) => Err(f)
        case Ok(x) => Ok(rs + [x])
  }

  /** The error of a failed conversion is that of the first entry that fails. */
  lemma {:induction false} FromStubsFirstError(es: seq<StubEntry>, source: string, citationsOf: StubEntry -> int)
    requires FromStubs(es, source, citationsOf).Err?
    ensures exists i :: 0 <= i < |es| && FirstFailing(es, source, citationsOf, i)
                        && FromStub(es[i], source, citationsOf(es[i])) == Err(FromStubs(es, source, citationsOf).error)
    decreases |es|
  {
    var init := es[..|es| - 1];
    var e := es[|es| - 1];
    var r0 := FromStubs(init, source, citationsOf);
    if r0.Err? {
      FromStubsFirstError(init, source, citationsOf);
      var i :| 0 <= i < |init| && FirstFailing(init, source, citationsOf, i)
               && FromStub(init[i], source, citationsOf(init[i])) == Err(r0.error);
      forall j | 0 <= j < i
        ensures FromStub(es[j], source, citationsOf(es[j])).Ok?
      {
        assert es[j] == init[j];
      }
      assert es[i] == init[i];
    } else {
      forall j | 0 <= j < |es| - 1
        ensures FromStub(es[j], source, citationsOf(es[j])).Ok?
      {
        assert es[j] == init[j];
      }
      assert FromStubs(es, source, citationsOf).error == FromStub(e, source, citationsOf(e)).error;
    }
  }

  /** What both clients' `search` do: refuse with `refusal` unless in offline mode, and
      otherwise replay the stub entries recorded for the query's name. */
  function ReplayStub(offline: bool, refusal: string, stub: Stub, name: string, source: string,
                      citationsOf: StubEntry -> int): Result<seq<SearchResult>, Failure>
  {
    if !offline then Err(RuntimeError(refusal))
    else FromStubs(EntriesFor(stub, name), source, citationsOf)
  }
}
