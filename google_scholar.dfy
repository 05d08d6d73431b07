/** `pipeline/google_scholar.py`: the Google Scholar client, which only replays a stub
    file. It passes no citation count, so its records carry the default, 0. */
module GoogleScholar {
  import opened Wrappers
  import opened Failures
  import opened Records
  import opened Config

  const SourceName := "google_scholar"

  const Refusal := "Real Google Scholar access is not supported. "
                   + "Enable offline_mode and supply stub data."

  function NoCitations(e: StubEntry): int {
    0
  }

  /** `GoogleScholarClient.search`. */
  function Search(offline: bool, stub: Stub, query: QueryConfig): (r: Result<seq<SearchResult>, Failure>)
    ensures !offline ==> r == Err(RuntimeError(Refusal))
    ensures offline && query.name !in stub ==> r == Ok([])
    ensures offline && r.Err? ==> r.error == KeyError("title") || r.error == KeyError("year")
    ensures offline ==> (r.Ok? <==> forall i :: 0 <= i < |EntriesFor(stub, query.name)| ==>
                                      EntriesFor(stub, query.name)[i].title.Some?
                                      && EntriesFor(stub, query.name)[i].year.Some?)
    ensures r.Ok? ==> |r.value| == |EntriesFor(stub, query.name)|
    ensures r.Ok? ==> forall i :: 0 <= i < |r.value| ==>
                        var e := EntriesFor(stub, query.name)[i];
                        && r.value[i].source == SourceName
                        && r.value[i].title == e.title.value
                        && r.value[i].year == e.year.value
                        && r.value[i].citationCount == 0
                        && r.value[i].accessType == e.accessType.GetOr("unknown")
                        && r.value[i].doi == e.doi.GetOr("")
  {
    ReplayStub(offline, Refusal, stub, query.name, SourceName, NoCitations)
  }
}
