/** The two source clients behind the `BaseClient` protocol of `pipeline/search.py`,
    as a closed set of cases. Both are built from the pipeline configuration, whose
    `offline_mode` they consult; the stub files they read are inputs. */
module Clients {
  import opened Wrappers
  import opened Failures
  import opened Records
  import opened Config
  import PubMed
  import GoogleScholar

  datatype Client = PubMedClient | GoogleScholarClient

  /** The contents of the two stub files. */
  datatype Stubs = Stubs(pubmed: Stub, scholar: Stub)

  /** `client.search(query)`. */
  function ClientSearch(c: Client, cfg: PipelineConfig, stubs: Stubs, q: QueryConfig)
    : (r: Result<seq<SearchResult>, Failure>)
    ensures r.Err? ==> r.error.RuntimeError? || r.error.KeyError?
    ensures r.Ok? ==> forall i :: 0 <= i < |r.value| ==>
                        r.value[i].source == (if c.PubMedClient? then PubMed.SourceName else GoogleScholar.SourceName)
  {
    match c
    case PubMedClient => PubMed.Search(cfg.offlineMode, stubs.pubmed, q)
    case GoogleScholarClient => GoogleScholar.Search(cfg.offlineMode, stubs.scholar, q)
  }
}
