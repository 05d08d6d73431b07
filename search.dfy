/** `SearchRunner.run` of `pipeline/search.py`: every query, then every source of that
    query, then every record its client returns. Each record is filed under its
    (query name, source) pair, and the aggregate keeps the first record per
    `unique_id`. */
module Search {
  import opened Wrappers
  import opened Text
  import opened Collections
  import opened Failures
  import opened Records
  import opened Config
  import opened Clients

  type PairKey = (string, string)

  /** One record as the runner meets it, with the pair it is filed under. */
  datatype Hit = Hit(query: string, source: string, item: SearchResult)

  function HitKey(h: Hit): PairKey {
    (h.query, h.source)
  }

  function HitItem(h: Hit): SearchResult {
    h.item
  }

  function Items(hits: seq<Hit>): (r: seq<SearchResult>)
    ensures |r| == |hits| && forall i :: 0 <= i < |hits| ==> r[i] == hits[i].item
  {
    seq(|hits|, i requires 0 <= i < |hits| => hits[i].item)
  }

  function NoClientMessage(source: string): string {
    "No client registered for source '" + source + "'"
  }

  /** The records of one client call, each filed under (query name, source). */
  function PairHits(name: string, source: string, items: seq<SearchResult>): (r: seq<Hit>)
    ensures |r| == |items| && forall i :: 0 <= i < |items| ==> r[i] == Hit(name, source, items[i])
  {
    seq(|items|, i requires 0 <= i < |items| => Hit(name, source, items[i]))
  }

  /** The records met for query `q` over `sources`, in order, or the first error:
      a source with no client, or a failing client call. */
  function SourceHits(cfg: PipelineConfig, clients: map<string, Client>, stubs: Stubs,
                      q: QueryConfig, sources: seq<string>): Result<seq<Hit>, Failure>
    decreases |sources|
  {
    if sources == [] then Ok([])
    else
      match SourceHits(cfg, clients, stubs, q, sources[..|sources| - 1])
      case Err(f) => Err(f)
      case Ok(h) =>
        var source := sources[|sources| - 1];
        if source !in clients then Err(ValueError(NoClientMessage(source)))
        else
          match ClientSearch(clients[source], cfg, stubs, q)
          case Err(f) => Err(f)
          case Ok(items) => Ok(h + PairHits(q.name, source, items))
  }

  /** The records met over the queries `qs`, in order, or the first error. */
  function QueryHits(cfg: PipelineConfig, clients: map<string, Client>, stubs: Stubs,
                     qs: seq<QueryConfig>): Result<seq<Hit>, Failure>
    decreases |qs|
  {
    if qs == [] then Ok([])
    else
      match QueryHits(cfg, clients, stubs, qs[..|qs| - 1])
      case Err(f) => Err(f)
      case Ok(h) =>
        var q := qs[|qs| - 1];
        match SourceHits(cfg, clients, stubs, q, q.sources)
        case Err(f) => Err(f)
        case Ok(h2) => Ok(h + h2)
  }

  function Hits(cfg: PipelineConfig, clients: map<string, Client>, stubs: Stubs): Result<seq<Hit>, Failure> {
    QueryHits(cfg, clients, stubs, cfg.queries)
  }

  /** What `run` returns: the aggregate, the `per_query` mapping, and the order in which
      its keys were first inserted (the order in which the mapping yields them). */
  datatype RunOutput = RunOutput(
    aggregated: seq<SearchResult>,
    perQuery: map<PairKey, seq<SearchResult>>,
    order: seq<PairKey>)

  /** The run's output for the records met, in the order met. */
  function Expected(hits: seq<Hit>): RunOutput {
    RunOutput(
      DedupBy(Items(hits), UniqueId),
      GroupBy(hits, HitKey, HitItem),
      Distinct(KeySeq(hits, HitKey)))
  }

  function Outcome(cfg: PipelineConfig, clients: map<string, Client>, stubs: Stubs): Result<RunOutput, Failure> {
    match Hits(cfg, clients, stubs)
    case Err(f) => Err(f)
    case Ok(hits) => Ok(Expected(hits))
  }

  // ---------------------------------------------------------------- the loop's steps

  lemma ItemsSnoc(hits: seq<Hit>, h: Hit)
    ensures Items(hits + [h]) == Items(hits) + [h.item]
  {
  }

  /** The state change of one pass through the innermost loop body. */
  lemma ExpectedSnoc(hits: seq<Hit>, h: Hit)
    ensures var e := Expected(hits);
      var k := HitKey(h);
      Expected(hits + [h]) == RunOutput(
        if UniqueId(h.item) in Keys(Items(hits), UniqueId) then e.aggregated else e.aggregated + [h.item],
        e.perQuery[k := (if k in e.perQuery then e.perQuery[k] else []) + [h.item]],
        if k in e.perQuery then e.order else e.order + [k])
  {
    var k := HitKey(h);
    ItemsSnoc(hits, h);
    DedupBySnoc(Items(hits), UniqueId, h.item);
    GroupBySnoc(hits, HitKey, HitItem, h);
    KeySeqSnoc(hits, HitKey, h);
    DistinctSnoc(KeySeq(hits, HitKey), k);
    GroupBySpec(hits, HitKey, HitItem);
    KeysIdOfKeySeq(hits, HitKey, k);
  }

  lemma {:induction false} SourceHitsPrefixErr(cfg: PipelineConfig, clients: map<string, Client>, stubs: Stubs,
                                               q: QueryConfig, sources: seq<string>, n: nat)
    requires n <= |sources|
    requires SourceHits(cfg, clients, stubs, q, sources[..n]).Err?
    ensures SourceHits(cfg, clients, stubs, q, sources) == SourceHits(cfg, clients, stubs, q, sources[..n])
    decreases |sources|
  {
    if n < |sources| {
      var init := sources[..|sources| - 1];
      assert init[..n] == sources[..n];
      SourceHitsPrefixErr(cfg, clients, stubs, q, init, n);
    } else {
      assert sources[..n] == sources;
    }
  }

  lemma {:induction false} QueryHitsPrefixErr(cfg: PipelineConfig, clients: map<string, Client>, stubs: Stubs,
                                              qs: seq<QueryConfig>, n: nat)
    requires n <= |qs|
    requires QueryHits(cfg, clients, stubs, qs[..n]).Err?
    ensures QueryHits(cfg, clients, stubs, qs) == QueryHits(cfg, clients, stubs, qs[..n])
    decreases |qs|
  {
    if n < |qs| {
      var init := qs[..|qs| - 1];
      assert init[..n] == qs[..n];
      QueryHitsPrefixErr(cfg, clients, stubs, init, n);
    } else {
      assert qs[..n] == qs;
    }
  }

  /** A failure of query `i` is the failure of the whole run. */
  lemma QueryFails(cfg: PipelineConfig, clients: map<string, Client>, stubs: Stubs, i: nat, h0: seq<Hit>)
    requires i < |cfg.queries|
    requires QueryHits(cfg, clients, stubs, cfg.queries[..i]) == Ok(h0)
    requires SourceHits(cfg, clients, stubs, cfg.queries[i], cfg.queries[i].sources).Err?
    ensures Hits(cfg, clients, stubs) == Err(SourceHits(cfg, clients, stubs, cfg.queries[i], cfg.queries[i].sources).error)
  {
    assert cfg.queries[..i + 1][..i] == cfg.queries[..i];
    QueryHitsPrefixErr(cfg, clients, stubs, cfg.queries, i + 1);
  }

  /** The run so far extends by the records of query `i`. */
  lemma QueryDone(cfg: PipelineConfig, clients: map<string, Client>, stubs: Stubs, i: nat, h0: seq<Hit>, h1: seq<Hit>)
    requires i < |cfg.queries|
    requires QueryHits(cfg, clients, stubs, cfg.queries[..i]) == Ok(h0)
    requires SourceHits(cfg, clients, stubs, cfg.queries[i], cfg.queries[i].sources) == Ok(h1)
    ensures QueryHits(cfg, clients, stubs, cfg.queries[..i + 1]) == Ok(h0 + h1)
  {
    assert cfg.queries[..i + 1][..i] == cfg.queries[..i];
  }

  /** A missing client or a failing call at source `j` is the failure of the whole query. */
  lemma SourceFails(cfg: PipelineConfig, clients: map<string, Client>, stubs: Stubs, q: QueryConfig, j: nat, h: seq<Hit>)
    requires j < |q.sources|
    requires SourceHits(cfg, clients, stubs, q, q.sources[..j]) == Ok(h)
    requires q.sources[j] in clients ==> ClientSearch(clients[q.sources[j]], cfg, stubs, q).Err?
    ensures SourceHits(cfg, clients, stubs, q, q.sources)
            == if q.sources[j] !in clients then Err(ValueError(NoClientMessage(q.sources[j])))
               else Err(ClientSearch(clients[q.sources[j]], cfg, stubs, q).error)
  {
    assert q.sources[..j + 1][..j] == q.sources[..j];
    SourceHitsPrefixErr(cfg, clients, stubs, q, q.sources, j + 1);
  }

  /** Source `j` of a query, with its client found and its call succeeding. */
  lemma SourceDone(cfg: PipelineConfig, clients: map<string, Client>, stubs: Stubs, q: QueryConfig, j: nat,
                   h: seq<Hit>, items: seq<SearchResult>)
    requires j < |q.sources| && q.sources[j] in clients
    requires SourceHits(cfg, clients, stubs, q, q.sources[..j]) == Ok(h)
    requires ClientSearch(clients[q.sources[j]], cfg, stubs, q) == Ok(items)
    ensures SourceHits(cfg, clients, stubs, q, q.sources[..j + 1]) == Ok(h + PairHits(q.name, q.sources[j], items))
  {
    assert q.sources[..j + 1][..j] == q.sources[..j];
  }

  lemma AppendAssoc<T>(a: seq<T>, b: seq<T>, c: seq<T>)
    ensures a + b + c == a + (b + c)
  {
  }

  lemma PairHitsSnoc(hits: seq<Hit>, name: string, source: string, items: seq<SearchResult>, k: nat)
    requires k < |items|
    ensures hits + PairHits(name, source, items[..k + 1])
            == hits + PairHits(name, source, items[..k]) + [Hit(name, source, items[k])]
  {
    assert PairHits(name, source, items[..k + 1]) == PairHits(name, source, items[..k]) + [Hit(name, source, items[k])];
  }

  /** One pass of the innermost loop body: file `item` under (name, source) and add it
      to the aggregate unless its id was seen. */
  method FileRecord(name: string, source: string, item: SearchResult,
                    out0: RunOutput, seen0: set<string>, ghost hits: seq<Hit>)
    returns (out: RunOutput, seenIds: set<string>)
    requires out0 == Expected(hits) && seen0 == Keys(Items(hits), UniqueId)
    ensures out == Expected(hits + [Hit(name, source, item)])
    ensures seenIds == Keys(Items(hits + [Hit(name, source, item)]), UniqueId)
  {
    var aggregated, perQuery, order := out0.aggregated, out0.perQuery, out0.order;
    var key := (name, source);
    ExpectedSnoc(hits, Hit(name, source, item));
    ItemsSnoc(hits, Hit(name, source, item));
    KeysSnoc(Items(hits), UniqueId, item);
    if key !in perQuery {
      var none: seq<SearchResult> := [];
      assert none + [item] == [item];
      order := order + [key];
      perQuery := perQuery[key := [item]];
    } else {
      perQuery := perQuery[key := perQuery[key] + [item]];
    }
    seenIds := seen0;
    var uid := UniqueId(item);
    if uid !in seenIds {
      seenIds := seenIds + {uid};
      aggregated := aggregated + [item];
    }
    out := RunOutput(aggregated, perQuery, order);
  }

  /** The innermost loop of `run`, over the records of one client call. */
  method FileRecords(name: string, source: string, items: seq<SearchResult>,
                     out0: RunOutput, seen0: set<string>, ghost hits: seq<Hit>)
    returns (out: RunOutput, seenIds: set<string>)
    requires out0 == Expected(hits) && seen0 == Keys(Items(hits), UniqueId)
    ensures out == Expected(hits + PairHits(name, source, items))
    ensures seenIds == Keys(Items(hits + PairHits(name, source, items)), UniqueId)
  {
    out, seenIds := out0, seen0;
    var k := 0;
    assert hits + PairHits(name, source, items[..k]) == hits;
    while k < |items|
      invariant 0 <= k <= |items|
      invariant out == Expected(hits + PairHits(name, source, items[..k]))
      invariant seenIds == Keys(Items(hits + PairHits(name, source, items[..k])), UniqueId)
    {
      ghost var done := hits + PairHits(name, source, items[..k]);
      out, seenIds := FileRecord(name, source, items[k], out, seenIds, done);
      PairHitsSnoc(hits, name, source, items, k);
      k := k + 1;
    }
    assert items[..k] == items;
  }

  /** The middle loop of `run` for query `i`: its sources, in listed order. A source
      with no client, or a failing client, ends the whole run with that error. */
  method RunQuery(cfg: PipelineConfig, clients: map<string, Client>, stubs: Stubs, i: nat,
                  out0: RunOutput, seen0: set<string>, ghost hits: seq<Hit>)
    returns (r: Result<RunOutput, Failure>, seenIds: set<string>, ghost added: seq<Hit>)
    requires i < |cfg.queries| && QueryHits(cfg, clients, stubs, cfg.queries[..i]) == Ok(hits)
    requires out0 == Expected(hits) && seen0 == Keys(Items(hits), UniqueId)
    ensures r.Err? ==> Outcome(cfg, clients, stubs) == Err(r.error)
    ensures r.Ok? ==> && QueryHits(cfg, clients, stubs, cfg.queries[..i + 1]) == Ok(hits + added)
                      && r.value == Expected(hits + added)
                      && seenIds == Keys(Items(hits + added), UniqueId)
  {
    var q := cfg.queries[i];
    var out := out0;
    seenIds := seen0;
    added := [];
    assert hits + added == hits;
    var j := 0;
    while j < |q.sources|
      invariant 0 <= j <= |q.sources|
      invariant SourceHits(cfg, clients, stubs, q, q.sources[..j]) == Ok(added)
      invariant out == Expected(hits + added)
      invariant seenIds == Keys(Items(hits + added), UniqueId)
    {
      var source := q.sources[j];
      if source !in clients {
        SourceFails(cfg, clients, stubs, q, j, added);
        QueryFails(cfg, clients, stubs, i, hits);
        return Err(ValueError(NoClientMessage(source))), seenIds, added;
      }
      var found := ClientSearch(clients[source], cfg, stubs, q);
      if found.Err? {
        SourceFails(cfg, clients, stubs, q, j, added);
        QueryFails(cfg, clients, stubs, i, hits);
        return Err(found.error), seenIds, added;
      }
      out, seenIds := FileRecords(q.name, source, found.value, out, seenIds, hits + added);
      SourceDone(cfg, clients, stubs, q, j, added, found.value);
      ghost var more := PairHits(q.name, source, found.value);
      AppendAssoc(hits, added, more);
      added := added + more;
      j := j + 1;
    }
    assert q.sources[..j] == q.sources;
    QueryDone(cfg, clients, stubs, i, hits, added);
    r := Ok(out);
  }

  /** `SearchRunner.run`. The `seen_ids` set is local to the call. */
  method Run(cfg: PipelineConfig, clients: map<string, Client>, stubs: Stubs)
    returns (r: Result<RunOutput, Failure>)
    ensures r == Outcome(cfg, clients, stubs)
  {
    var out := RunOutput([], map[], []);
    var seenIds: set<string> := {};
    ghost var hits: seq<Hit> := [];
    var i := 0;
    while i < |cfg.queries|
      invariant 0 <= i <= |cfg.queries|
      invariant QueryHits(cfg, clients, stubs, cfg.queries[..i]) == Ok(hits)
      invariant out == Expected(hits)
      invariant seenIds == Keys(Items(hits), UniqueId)
    {
      var step;
      ghost var added;
      step, seenIds, added := RunQuery(cfg, clients, stubs, i, out, seenIds, hits);
      if step.Err? {
        return Err(step.error);
      }
      out := step.value;
      hits := hits + added;
      i := i + 1;
    }
    assert cfg.queries[..i] == cfg.queries;
    r := Ok(out);
  }

  // ---------------------------------------------------------------- what a run promises

  /** No two records of the aggregate share an id, and each is the first record met
      with its id, in the order met. */
  lemma AggregateFirstSeen(hits: seq<Hit>)
    ensures DistinctKeys(Expected(hits).aggregated, UniqueId)
    ensures FirstSeenOrder(Items(hits), UniqueId, Expected(hits).aggregated)
  {
    DedupByDistinct(Items(hits), UniqueId);
    DedupByFirstSeen(Items(hits), UniqueId);
  }

  /** Two records whose DOIs differ only in letter case never both reach the aggregate. */
  lemma DoiVariantsCollapse(hits: seq<Hit>)
    ensures var agg := Expected(hits).aggregated;
      forall i, j :: 0 <= i < j < |agg| && agg[i].doi != "" && agg[j].doi != "" ==>
        Lower(agg[i].doi) != Lower(agg[j].doi)
  {
    var agg := Expected(hits).aggregated;
    DedupByDistinct(Items(hits), UniqueId);
    forall i, j | 0 <= i < j < |agg| && agg[i].doi != "" && agg[j].doi != ""
      ensures Lower(agg[i].doi) != Lower(agg[j].doi)
    {
      if Lower(agg[i].doi) == Lower(agg[j].doi) {
        DoiCaseInsensitive(agg[i], agg[j]);
      }
    }
  }

  /** `per_query` has a key exactly for the pairs that yielded at least one record, and
      under each key every record of that pair, undeduplicated and in order. */
  lemma PerQueryGroups(hits: seq<Hit>)
    ensures var g := Expected(hits).perQuery;
      && (forall k :: k in g <==> exists i :: 0 <= i < |hits| && HitKey(hits[i]) == k)
      && (forall k :: k in g ==> g[k] == Select(hits, HitKey, HitItem, k) != [])
  {
    GroupBySpec(hits, HitKey, HitItem);
    forall k
      ensures k in Keys(hits, HitKey) <==> exists i :: 0 <= i < |hits| && HitKey(hits[i]) == k
    {
      KeysMember(hits, HitKey, k);
    }
  }

  /** The ids in the aggregate are exactly the ids filed under `per_query`, and the
      aggregate is no longer than the raw lists together. */
  lemma AggregateIdsMatchPerQuery(hits: seq<Hit>)
    ensures var e := Expected(hits);
      forall id :: id in Keys(e.aggregated, UniqueId) <==>
        exists k, j :: k in e.perQuery && 0 <= j < |e.perQuery[k]| && UniqueId(e.perQuery[k][j]) == id
    ensures |Expected(hits).aggregated| <= TotalSize(Expected(hits).order, Expected(hits).perQuery) == |hits|
  {
    var e := Expected(hits);
    var items := Items(hits);
    DedupByKeys(items, UniqueId);
    GroupBySpec(hits, HitKey, HitItem);
    GroupSizesSum(hits, HitKey, HitItem);
    forall id
      ensures id in Keys(e.aggregated, UniqueId) <==>
        exists k, j :: k in e.perQuery && 0 <= j < |e.perQuery[k]| && UniqueId(e.perQuery[k][j]) == id
    {
      KeysMember(items, UniqueId, id);
      if id in Keys(e.aggregated, UniqueId) {
        var i :| 0 <= i < |items| && UniqueId(items[i]) == id;
        var k := HitKey(hits[i]);
        KeysOfElement(hits, HitKey, i);
        SelectMember(hits, HitKey, HitItem, k, items[i]);
        var j :| 0 <= j < |e.perQuery[k]| && e.perQuery[k][j] == items[i];
      }
      if exists k, j :: k in e.perQuery && 0 <= j < |e.perQuery[k]| && UniqueId(e.perQuery[k][j]) == id {
        var k, j :| k in e.perQuery && 0 <= j < |e.perQuery[k]| && UniqueId(e.perQuery[k][j]) == id;
        SelectMember(hits, HitKey, HitItem, k, e.perQuery[k][j]);
        var i :| 0 <= i < |hits| && HitKey(hits[i]) == k && HitItem(hits[i]) == e.perQuery[k][j];
        assert UniqueId(items[i]) == id;
      }
    }
  }

  // ---------------------------------------------------------------- missing clients

  /** A named source without a client stops the run; with a client for every named
      source, the only failures are those of the clients themselves. */
  lemma {:induction false} SourceHitsClients(cfg: PipelineConfig, clients: map<string, Client>, stubs: Stubs,
                                             q: QueryConfig, sources: seq<string>)
    ensures SourceHits(cfg, clients, stubs, q, sources).Ok? ==> forall s :: s in sources ==> s in clients
    ensures (forall s :: s in sources ==> s in clients) && SourceHits(cfg, clients, stubs, q, sources).Err? ==>
              !SourceHits(cfg, clients, stubs, q, sources).error.ValueError?
    decreases |sources|
  {
    if sources != [] {
      var init := sources[..|sources| - 1];
      SourceHitsClients(cfg, clients, stubs, q, init);
      assert sources == init + [sources[|sources| - 1]];
    }
  }

  lemma {:induction false} QueryHitsClients(cfg: PipelineConfig, clients: map<string, Client>, stubs: Stubs,
                                            qs: seq<QueryConfig>)
    ensures QueryHits(cfg, clients, stubs, qs).Ok? ==> forall s :: s in AllSources(qs) ==> s in clients
    ensures (forall s :: s in AllSources(qs) ==> s in clients) && QueryHits(cfg, clients, stubs, qs).Err? ==>
              !QueryHits(cfg, clients, stubs, qs).error.ValueError?
    decreases |qs|
  {
    if qs != [] {
      var init := qs[..|qs| - 1];
      var q := qs[|qs| - 1];
      QueryHitsClients(cfg, clients, stubs, init);
      SourceHitsClients(cfg, clients, stubs, q, q.sources);
    }
  }

  /** The run succeeds only if every named source has a client; when every one has,
      the "No client registered" error cannot occur. */
  lemma NoClientErrorIffMissing(cfg: PipelineConfig, clients: map<string, Client>, stubs: Stubs)
    ensures Outcome(cfg, clients, stubs).Ok? ==> forall s :: s in AllSources(cfg.queries) ==> s in clients
    ensures (forall s :: s in AllSources(cfg.queries) ==> s in clients) ==>
              forall source :: Outcome(cfg, clients, stubs) != Err(ValueError(NoClientMessage(source)))
  {
    QueryHitsClients(cfg, clients, stubs, cfg.queries);
  }
}
