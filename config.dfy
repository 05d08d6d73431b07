/** `pipeline/config.py`: the query and pipeline configuration, the defaulting that
    `from_path` applies to an already-parsed mapping, and `iter_sources`. */
module Config {
  import opened Wrappers
  import opened Collections
  import opened Failures

  datatype QueryConfig = QueryConfig(
    name: string,
    keywords: string,
    years: seq<int>,
    modalities: seq<string>,
    sources: seq<string>)

  datatype PipelineConfig = PipelineConfig(
    outputRoot: string,
    offlineMode: bool,
    queries: seq<QueryConfig>,
    iterations: int)

  /** One item of the mapping's `queries` list, each key possibly absent. */
  datatype RawQuery = RawQuery(
    name: Option<string>,
    keywords: Option<string>,
    years: Option<seq<int>>,
    modalities: Option<seq<string>>,
    sources: Option<seq<string>>)

  /** The parsed configuration mapping, each key possibly absent. */
  datatype RawConfig = RawConfig(
    outputRoot: Option<string>,
    offlineMode: Option<bool>,
    queries: Option<seq<RawQuery>>,
    iterations: Option<int>)

  /** One query: `name` is read before `keywords`, and both are required. */
  function QueryFromMapping(item: RawQuery): (r: Result<QueryConfig, Failure>)
    ensures item.name.None? ==> r == Err(KeyError("name"))
    ensures item.name.Some? && item.keywords.None? ==> r == Err(KeyError("keywords"))
    ensures r.Ok? <==> item.name.Some? && item.keywords.Some?
  {
    if item.name.None? then Err(KeyError("name"))
    else if item.keywords.None? then Err(KeyError("keywords"))
    else Ok(QueryConfig(
      item.name.value, item.keywords.value,
      item.years.GetOr([]), item.modalities.GetOr([]), item.sources.GetOr([])))
  }

  predicate Complete(item: RawQuery) {
    item.name.Some? && item.keywords.Some?
  }

  /** The list comprehension over `queries`, in order; the first bad item decides. */
  function QueriesFromMapping(items: seq<RawQuery>): (r: Result<seq<QueryConfig>, Failure>)
    ensures r.Ok? <==> forall i :: 0 <= i < |items| ==> Complete(items[i])
    ensures r.Ok? ==> |r.value| == |items|
                      && forall i :: 0 <= i < |items| ==> QueryFromMapping(items[i]) == Ok(r.value[i])
    decreases |items|
  {
    if items == [] then Ok([])
    else
      match QueriesFromMapping(items[..|items| - 1])
      case Err(f) => Err(f)
      case Ok(qs) =>
        match QueryFromMapping(items[|items| - 1])
        case Err(f) => Err(f)
        case Ok(q) => Ok(qs + [q])
  }

  /** `PipelineConfig.from_path` after the text has been parsed. The queries are built
      before `output_root` is read, so a bad query is reported first. */
  function FromMapping(raw: RawConfig): Result<PipelineConfig, Failure> {
    match QueriesFromMapping(raw.queries.GetOr([]))
    case Err(f) => Err(f)
    case Ok(qs) =>
      if raw.outputRoot.None? then Err(KeyError("output_root"))
      else Ok(PipelineConfig(raw.outputRoot.value, raw.offlineMode.GetOr(false), qs, raw.iterations.GetOr(1)))
  }

  /** The mapping is accepted exactly when `output_root` is present and every query
      has a name and keywords; absent optional keys take their defaults, and
      `iterations` is passed through unclamped. */
  lemma FromMappingSpec(raw: RawConfig)
    ensures var items := raw.queries.GetOr([]);
      FromMapping(raw).Ok?
      <==> raw.outputRoot.Some? && forall i :: 0 <= i < |items| ==> Complete(items[i])
    ensures var r := FromMapping(raw);
      r.Ok? ==>
        && r.value.outputRoot == raw.outputRoot.value
        && r.value.offlineMode == (raw.offlineMode == Some(true))
        && r.value.iterations == (if raw.iterations.Some? then raw.iterations.value else 1)
        && |r.value.queries| == |raw.queries.GetOr([])|
        && forall i :: 0 <= i < |r.value.queries| ==>
             var item, q := raw.queries.GetOr([])[i], r.value.queries[i];
             && q.name == item.name.value && q.keywords == item.keywords.value
             && q.years == item.years.GetOr([]) && q.modalities == item.modalities.GetOr([])
             && q.sources == item.sources.GetOr([])
    ensures raw.queries.None? && raw.outputRoot.Some? ==> FromMapping(raw).Ok? && FromMapping(raw).value.queries == []
  {
    var items := raw.queries.GetOr([]);
    var r := FromMapping(raw);
    if r.Ok? {
      var qs := QueriesFromMapping(items).value;
      forall i | 0 <= i < |qs|
        ensures qs[i].name == items[i].name.value && qs[i].sources == items[i].sources.GetOr([])
      {
        assert QueryFromMapping(items[i]) == Ok(qs[i]);
      }
    }
  }

  /** A query missing its name or keywords is reported even when `output_root` is
      missing too. */
  lemma BadQueryReportedFirst(raw: RawConfig, i: int)
    requires raw.queries.Some? && 0 <= i < |raw.queries.value|
    requires !Complete(raw.queries.value[i])
    ensures FromMapping(raw).Err?
    ensures FromMapping(raw).error != KeyError("output_root")
  {
    var items := raw.queries.value;
    QueriesFromMappingErrors(items);
  }

  lemma {:induction false} QueriesFromMappingErrors(items: seq<RawQuery>)
    ensures var r := QueriesFromMapping(items);
      r.Err? ==> r.error == KeyError("name") || r.error == KeyError("keywords")
    decreases |items|
  {
    if items != [] {
      QueriesFromMappingErrors(items[..|items| - 1]);
    }
  }

  // ---------------------------------------------------------------- sources

  /** Every source named by the queries, in query order and then list order, with
      repetitions. */
  function AllSources(qs: seq<QueryConfig>): seq<string>
    decreases |qs|
  {
    if qs == [] then [] else AllSources(qs[..|qs| - 1]) + qs[|qs| - 1].sources
  }

  lemma {:induction false} AllSourcesMember(qs: seq<QueryConfig>, s: string)
    ensures s in AllSources(qs) <==> exists i :: 0 <= i < |qs| && s in qs[i].sources
    decreases |qs|
  {
    if qs != [] {
      var init := qs[..|qs| - 1];
      AllSourcesMember(init, s);
      if exists i :: 0 <= i < |init| && s in init[i].sources {
        var i :| 0 <= i < |init| && s in init[i].sources;
        assert qs[i] == init[i];
      }
      if exists i :: 0 <= i < |qs| && s in qs[i].sources {
        var i :| 0 <= i < |qs| && s in qs[i].sources;
        if i < |init| {
          assert init[i] == qs[i];
        }
      }
    }
  }

  /** `PipelineConfig.iter_sources`: the sources of all queries, each once, in the order
      they are first named. */
  method IterSources(cfg: PipelineConfig) returns (out: seq<string>)
    ensures out == Distinct(AllSources(cfg.queries))
  {
    var seen: set<string> := {};
    out := [];
    ghost var named: seq<string> := [];
    var i := 0;
    while i < |cfg.queries|
      invariant 0 <= i <= |cfg.queries|
      invariant named == AllSources(cfg.queries[..i])
      invariant out == Distinct(named)
      invariant seen == Keys(named, Id)
    {
      var q := cfg.queries[i];
      var j := 0;
      while j < |q.sources|
        invariant 0 <= j <= |q.sources|
        invariant named == AllSources(cfg.queries[..i]) + q.sources[..j]
        invariant out == Distinct(named)
        invariant seen == Keys(named, Id)
      {
        var source := q.sources[j];
        DistinctSnoc(named, source);
        KeysSnoc(named, Id, source);
        KeysIdOfDistinct(named, source);
        if source !in seen {
          seen := seen + {source};
          out := out + [source];
        }
        PrefixStep(AllSources(cfg.queries[..i]), q.sources, j);
        named := named + [source];
        j := j + 1;
      }
      assert q.sources[..j] == q.sources;
      assert cfg.queries[..i + 1][..i] == cfg.queries[..i];
      i := i + 1;
    }
    assert cfg.queries[..i] == cfg.queries;
  }

  lemma PrefixStep<T>(pre: seq<T>, s: seq<T>, j: nat)
    requires j < |s|
    ensures pre + s[..j + 1] == pre + s[..j] + [s[j]]
  {
    assert s[..j + 1] == s[..j] + [s[j]];
  }

  /** The distinct sources are exactly those named, without repeats, in first-seen order. */
  lemma DistinctSourcesSpec(qs: seq<QueryConfig>)
    ensures var out := Distinct(AllSources(qs));
      && (forall s :: s in out <==> exists i :: 0 <= i < |qs| && s in qs[i].sources)
      && (forall i, j :: 0 <= i < j < |out| ==> out[i] != out[j])
      && (forall a, b :: 0 <= a < b < |out| ==>
            FirstIndex(AllSources(qs), Id, out[a]) < FirstIndex(AllSources(qs), Id, out[b]))
  {
    DistinctSpec(AllSources(qs));
    forall s
      ensures s in Distinct(AllSources(qs)) <==> exists i :: 0 <= i < |qs| && s in qs[i].sources
    {
      AllSourcesMember(qs, s);
    }
  }
}
