/** `pipeline/run.py`: choosing a client for each configured source, and the pipeline
    run that builds the clients, runs the searches and reports a history count per
    (query, source) pair. */
module Run {
  import opened Wrappers
  import opened Collections
  import opened Failures
  import opened Records
  import opened Config
  import opened Clients
  import opened Search
  import Summarizer

  /** The client registered for a source name, if the name is supported. */
  function ClientFor(source: string): (c: Option<Client>)
    ensures c == Some(PubMedClient) <==> source == "pubmed"
    ensures c == Some(GoogleScholarClient) <==> source == "google_scholar"
    ensures c.None? <==> source != "pubmed" && source != "google_scholar"
  {
    if source == "pubmed" then Some(PubMedClient)
    else if source == "google_scholar" then Some(GoogleScholarClient)
    else None
  }

  function UnsupportedMessage(source: string): string {
    "Unsupported source '" + source + "'"
  }

  /** The `clients` mapping after handling `sources` in order, or the error for the
      first unsupported one. */
  function ClientsFor(sources: seq<string>): Result<map<string, Client>, Failure>
    decreases |sources|
  {
    if sources == [] then Ok(map[])
    else
      match ClientsFor(sources[..|sources| - 1])
      case Err(f) => Err(f)
      case Ok(m) =>
        var s := sources[|sources| - 1];
        match ClientFor(s)
        case None => Err(ValueError(UnsupportedMessage(s)))
        case Some(c) => Ok(m[s := c])
  }

  /** Every source gets exactly its own client; the mapping is refused exactly when
      some source is unsupported, and then for the first such source. */
  lemma {:induction false} ClientsForSpec(sources: seq<string>)
    ensures ClientsFor(sources).Ok? <==> forall s :: s in sources ==> ClientFor(s).Some?
    ensures ClientsFor(sources).Ok? ==>
              && ClientsFor(sources).value.Keys == set s | s in sources
              && forall s :: s in ClientsFor(sources).value ==> Some(ClientsFor(sources).value[s]) == ClientFor(s)
    ensures ClientsFor(sources).Err? ==>
              exists i :: 0 <= i < |sources| && ClientFor(sources[i]).None?
                          && (forall j :: 0 <= j < i ==> ClientFor(sources[j]).Some?)
                          && ClientsFor(sources).error == ValueError(UnsupportedMessage(sources[i]))
    decreases |sources|
  {
    if sources != [] {
      var init := sources[..|sources| - 1];
      var s := sources[|sources| - 1];
      ClientsForSpec(init);
      assert sources == init + [s];
      if ClientsFor(init).Err? {
        var i :| 0 <= i < |init| && ClientFor(init[i]).None?
                 && (forall j :: 0 <= j < i ==> ClientFor(init[j]).Some?)
                 && ClientsFor(init).error == ValueError(UnsupportedMessage(init[i]));
        assert sources[i] == init[i];
        forall j | 0 <= j < i
          ensures ClientFor(sources[j]).Some?
        {
          assert sources[j] == init[j];
        }
      } else if ClientFor(s).None? {
        forall j | 0 <= j < |init|
          ensures ClientFor(sources[j]).Some?
        {
          assert sources[j] == init[j];
          assert init[j] in init;
        }
      }
    }
  }

  /** `build_clients`: one client for each source `iter_sources` yields. */
  method BuildClients(cfg: PipelineConfig) returns (r: Result<map<string, Client>, Failure>)
    ensures r == ClientsFor(Distinct(AllSources(cfg.queries)))
  {
    var sources := IterSources(cfg);
    var clients: map<string, Client> := map[];
    var i := 0;
    while i < |sources|
      invariant 0 <= i <= |sources|
      invariant ClientsFor(sources[..i]) == Ok(clients)
    {
      var source := sources[i];
      assert sources[..i + 1][..i] == sources[..i];
      if source == "pubmed" {
        clients := clients[source := PubMedClient];
      } else if source == "google_scholar" {
        clients := clients[source := GoogleScholarClient];
      } else {
        ClientsForPrefixErr(sources, i + 1);
        return Err(ValueError(UnsupportedMessage(source)));
      }
      i := i + 1;
    }
    assert sources[..i] == sources;
    r := Ok(clients);
  }

  lemma {:induction false} ClientsForPrefixErr(sources: seq<string>, n: nat)
    requires n <= |sources|
    requires ClientsFor(sources[..n]).Err?
    ensures ClientsFor(sources) == ClientsFor(sources[..n])
    decreases |sources|
  {
    if n < |sources| {
      var init := sources[..|sources| - 1];
      assert init[..n] == sources[..n];
      ClientsForPrefixErr(init, n);
    } else {
      assert sources[..n] == sources;
    }
  }

  /** Clients that `build_clients` accepted cover every named source, so the runner's
      "No client registered" error cannot occur with them. */
  lemma BuiltClientsCoverSources(cfg: PipelineConfig, clients: map<string, Client>, stubs: Stubs)
    requires ClientsFor(Distinct(AllSources(cfg.queries))) == Ok(clients)
    ensures forall s :: s in AllSources(cfg.queries) ==> s in clients
    ensures forall source :: Outcome(cfg, clients, stubs) != Err(ValueError(NoClientMessage(source)))
  {
    var sources := Distinct(AllSources(cfg.queries));
    ClientsForSpec(sources);
    DistinctSpec(AllSources(cfg.queries));
    NoClientErrorIffMissing(cfg, clients, stubs);
  }

  lemma UnsupportedIsNotNoClient()
    ensures forall a, b :: ValueError(UnsupportedMessage(a)) != ValueError(NoClientMessage(b))
  {
    forall a, b
      ensures UnsupportedMessage(a) != NoClientMessage(b)
    {
      assert UnsupportedMessage(a)[0] == 'U';
      assert NoClientMessage(b)[0] == 'N';
    }
  }

  // ---------------------------------------------------------------- history

  /** One `append_history` call: the pair and the length of its raw list. */
  datatype HistoryRow = HistoryRow(query: string, source: string, count: nat)

  function CountSum(rows: seq<HistoryRow>): nat
    decreases |rows|
  {
    if rows == [] then 0 else CountSum(rows[..|rows| - 1]) + rows[|rows| - 1].count
  }

  /** `order` lists every key of `perQuery`, each once (the dict's own key order). */
  ghost predicate KeyOrder(out: RunOutput) {
    && (forall k :: k in out.perQuery <==> k in out.order)
    && (forall i, j :: 0 <= i < j < |out.order| ==> out.order[i] != out.order[j])
  }

  lemma ExpectedKeyOrder(hits: seq<Hit>)
    ensures KeyOrder(Expected(hits))
  {
    DistinctSpec(KeySeq(hits, HitKey));
    forall k: PairKey
      ensures k in Expected(hits).perQuery <==> k in Expected(hits).order
    {
      ExpectedKeyMember(hits, k);
    }
  }

  lemma ExpectedKeyMember(hits: seq<Hit>, k: PairKey)
    ensures k in Expected(hits).perQuery <==> k in Expected(hits).order
  {
    var ks := KeySeq(hits, HitKey);
    GroupBySpec(hits, HitKey, HitItem);
    DistinctSpec(ks);
    KeysIdOfKeySeq(hits, HitKey, k);
    assert k in Distinct(ks) <==> k in ks;
  }

  /** The row written for a key of `per_query`. */
  function RowFor(g: map<PairKey, seq<SearchResult>>): PairKey -> HistoryRow {
    (k: PairKey) => HistoryRow(k.0, k.1, if k in g then |g[k]| else 0)
  }

  /** The history loop of `execute_pipeline`: one row per `per_query` entry, in the
      mapping's order, counting that entry's records. */
  method HistoryRows(out: RunOutput) returns (rows: seq<HistoryRow>)
    requires KeyOrder(out)
    ensures |rows| == |out.order|
    ensures forall i :: 0 <= i < |rows| ==>
              rows[i] == HistoryRow(out.order[i].0, out.order[i].1, |out.perQuery[out.order[i]]|)
    ensures CountSum(rows) == TotalSize(out.order, out.perQuery)
  {
    rows := [];
    var i := 0;
    while i < |out.order|
      invariant 0 <= i <= |out.order|
      invariant rows == Map(out.order[..i], RowFor(out.perQuery))
      invariant CountSum(rows) == TotalSize(out.order[..i], out.perQuery)
    {
      var key := out.order[i];
      assert key in out.perQuery;
      var row := HistoryRow(key.0, key.1, |out.perQuery[key]|);
      HistoryStep(out.order, out.perQuery, i, rows, row);
      MapSnoc(out.order, RowFor(out.perQuery), i);
      rows := rows + [row];
      i := i + 1;
    }
    assert out.order[..i] == out.order;
  }

  lemma HistoryStep(order: seq<PairKey>, g: map<PairKey, seq<SearchResult>>, i: nat,
                    rows: seq<HistoryRow>, row: HistoryRow)
    requires i < |order| && order[i] in g
    requires row.count == |g[order[i]]|
    requires CountSum(rows) == TotalSize(order[..i], g)
    ensures CountSum(rows + [row]) == TotalSize(order[..i + 1], g)
  {
    var pre := order[..i + 1];
    assert pre[..|pre| - 1] == order[..i];
    var rows2 := rows + [row];
    assert rows2[..|rows2| - 1] == rows;
  }

  /** The history counts add up to the number of records the clients returned. */
  lemma HistoryCountsAllRecords(hits: seq<Hit>)
    ensures TotalSize(Expected(hits).order, Expected(hits).perQuery) == |hits|
  {
    GroupSizesSum(hits, HitKey, HitItem);
  }

  // ---------------------------------------------------------------- the pipeline

  /** What a pipeline run leaves behind, apart from the files it writes. */
  datatype Report = Report(
    aggregated: seq<SearchResult>,
    history: seq<HistoryRow>,
    markdown: seq<string>,
    paragraphs: seq<string>)

  /** The records a pipeline run meets, or the error that stops it: the configuration
      is read, the clients are built, and then the searches run. */
  ghost function PipelineHits(raw: RawConfig, stubs: Stubs): Result<seq<Hit>, Failure> {
    match FromMapping(raw)
    case Err(f) => Err(f)
    case Ok(cfg) =>
      match ClientsFor(Distinct(AllSources(cfg.queries)))
      case Err(f) => Err(f)
      case Ok(clients) => Hits(cfg, clients, stubs)
  }

  /** A run is never stopped by a source without a client: `build_clients` already
      refused every unsupported source. */
  lemma PipelineNeverLacksClient(raw: RawConfig, stubs: Stubs, source: string)
    ensures PipelineHits(raw, stubs) != Err(ValueError(NoClientMessage(source)))
  {
    match FromMapping(raw)
    case Err(f) =>
      FromMappingErrors(raw);
    case Ok(cfg) =>
      var sources := Distinct(AllSources(cfg.queries));
      ClientsForSpec(sources);
      UnsupportedIsNotNoClient();
      if ClientsFor(sources).Ok? {
        var clients := ClientsFor(sources).value;
        BuiltClientsCoverSources(cfg, clients, stubs);
      }
  }

  lemma FromMappingErrors(raw: RawConfig)
    ensures FromMapping(raw).Err? ==> FromMapping(raw).error.KeyError?
  {
    QueriesFromMappingErrors(raw.queries.GetOr([]));
  }

  /** `execute_pipeline` on an already-parsed configuration mapping, with `output_root`
      optionally overridden: it fails exactly as `PipelineHits` does; otherwise the
      aggregate is that of the records met, the history counts add up to their number,
      and the Markdown summary has ten lines per aggregated record. */
  method ExecutePipeline(raw: RawConfig, outputRoot: Option<string>, stubs: Stubs)
    returns (r: Result<Report, Failure>)
    ensures r.Err? <==> PipelineHits(raw, stubs).Err?
    ensures r.Err? ==> r.error == PipelineHits(raw, stubs).error
    ensures r.Ok? ==> r.value.aggregated == Expected(PipelineHits(raw, stubs).value).aggregated
    ensures r.Ok? ==> CountSum(r.value.history) == |PipelineHits(raw, stubs).value|
    ensures r.Ok? ==> |r.value.markdown| == 4 + 10 * |r.value.aggregated|
  {
    var parsed := FromMapping(raw);
    if parsed.Err? {
      return Err(parsed.error);
    }
    var cfg := parsed.value;
    if outputRoot.Some? {
      cfg := cfg.(outputRoot := outputRoot.value);
    }
    var built := BuildClients(cfg);
    if built.Err? {
      return Err(built.error);
    }
    var clients := built.value;
    HitsIgnoreOutputRoot(parsed.value, cfg, clients, stubs);
    var ran := Run(cfg, clients, stubs);
    if ran.Err? {
      return Err(ran.error);
    }
    var out := ran.value;
    ghost var hits := Hits(cfg, clients, stubs).value;
    ExpectedKeyOrder(hits);
    var rows := HistoryRows(out);
    HistoryCountsAllRecords(hits);
    var markdown := Summarizer.MarkdownLines(out.aggregated);
    var paragraphs := Summarizer.DocxParagraphs(out.aggregated);
    r := Ok(Report(out.aggregated, rows, markdown, paragraphs));
  }

  /** The searches do not look at `output_root`. */
  lemma HitsIgnoreOutputRoot(a: PipelineConfig, b: PipelineConfig, clients: map<string, Client>, stubs: Stubs)
    requires a.queries == b.queries && a.offlineMode == b.offlineMode
    ensures Hits(a, clients, stubs) == Hits(b, clients, stubs)
  {
    QueryHitsConfig(a, b, clients, stubs, a.queries);
  }

  lemma {:induction false} QueryHitsConfig(a: PipelineConfig, b: PipelineConfig, clients: map<string, Client>,
                                           stubs: Stubs, qs: seq<QueryConfig>)
    requires a.offlineMode == b.offlineMode
    ensures QueryHits(a, clients, stubs, qs) == QueryHits(b, clients, stubs, qs)
    decreases |qs|
  {
    if qs != [] {
      QueryHitsConfig(a, b, clients, stubs, qs[..|qs| - 1]);
      var q := qs[|qs| - 1];
      SourceHitsConfig(a, b, clients, stubs, q, q.sources);
    }
  }

  lemma {:induction false} SourceHitsConfig(a: PipelineConfig, b: PipelineConfig, clients: map<string, Client>,
                                            stubs: Stubs, q: QueryConfig, sources: seq<string>)
    requires a.offlineMode == b.offlineMode
    ensures SourceHits(a, clients, stubs, q, sources) == SourceHits(b, clients, stubs, q, sources)
    decreases |sources|
  {
    if sources != [] {
      SourceHitsConfig(a, b, clients, stubs, q, sources[..|sources| - 1]);
    }
  }
}
