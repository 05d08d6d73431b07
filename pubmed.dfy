/** `pipeline/pubmed.py`: the PubMed client, which in this environment only replays a
    stub file. The stub's contents are an input. */
module PubMed {
  import opened Wrappers
  import opened Failures
  import opened Records
  import opened Config

  const SourceName := "pubmed"

  const Refusal := "Real PubMed access is not available in this environment. "
                   + "Set offline_mode=true in the config to use stub data."

  /** The citation count passed for an entry: its `citations`, or 0. */
  function Citations(e: StubEntry): int {
    e.citations.GetOr(0)
  }

  /** `PubMedClient.search`, with the `citation_count` keyword accepted by the record. */
  function Search(offline: bool, stub: Stub, query: QueryConfig): (r: Result<seq<SearchResult>, Failure>)
    ensures !offline ==> r == Err(RuntimeError(Refusal))
    ensures offline && query.name !in stub ==> r == Ok([])
    ensures offline && r.Err? ==> r.error == KeyError("title") || r.error == KeyError("year")
    ensures offline ==> (r.Ok? <==> forall i :: 0 <= i < |EntriesFor(stub, query.name)| ==>
                                      EntriesFor(stub, query.name)[i].title.Some?
                                      && EntriesFor(stub, query.name)[i].year.Some?)
    ensures r.Ok? ==> |r.value| == |EntriesFor(stub, query.name)|
    ensures r.Ok? ==> forall i :: 0 <= i < |r.value| ==>
                        var e := EntriesFor(stub, query.name)[i];
                        && r.value[i].source == SourceName
                        && r.value[i].title == e.title.value
                        && r.value[i].year == e.year.value
                        && r.value[i].citationCount == e.citations.GetOr(0)
                        && r.value[i].accessType == e.accessType.GetOr("unknown")
                        && r.value[i].doi == e.doi.GetOr("")
  {
    ReplayStub(offline, Refusal, stub, query.name, SourceName, Citations)
  }

  // ---------------------------------------------------------------- as written

  const UnexpectedCitationCount := "SearchResult.__init__() got an unexpected keyword argument 'citation_count'"

  /** `PubMedClient.search` against the `SearchResult` dataclass as declared, which has no
      `citation_count` field. The keyword arguments are evaluated first (so a missing
      `title` or `year` still raises `KeyError`), and then the constructor call fails. */
  function SearchAsWritten(offline: bool, stub: Stub, query: QueryConfig): (r: Result<seq<SearchResult>, Failure>)
    ensures r.Ok? ==> r.value == []
  {
    if !offline then Err(RuntimeError(Refusal))
    else
      var es := EntriesFor(stub, query.name);
      if es == [] then Ok([])
      else
        match FromStub(es[0], SourceName, Citations(es[0]))
        case Err(f) => Err(f)
        case Ok(_) => Err(TypeError(UnexpectedCitationCount))
  }

  /** A stub with one complete entry: the corrected client returns its record, the
      client as written raises `TypeError` instead. */
  lemma AsWrittenRejectsCompleteEntry()
    ensures var q := QueryConfig("q", "k", [], [], [SourceName]);
      var e := StubEntry(Some("T"), None, Some(2020), None, None, None, None, None, None, None, None, None, None);
      var stub := map["q" := [e]];
      && Search(true, stub, q).Ok? && |Search(true, stub, q).value| == 1
      && SearchAsWritten(true, stub, q) == Err(TypeError(UnexpectedCitationCount))
  {
    var e := StubEntry(Some("T"), None, Some(2020), None, None, None, None, None, None, None, None, None, None);
    var stub := map["q" := [e]];
    assert EntriesFor(stub, "q") == [e];
    assert [e][..0] == [];
  }
}
