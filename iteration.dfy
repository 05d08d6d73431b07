/** `pipeline/iteration.py`: the `IterationPlanner` that ranks the records, writes a
    round-by-round log anchored on the best-ranked ones, and drafts the final plan
    with a reference list, fixed data needs and one topic line per modality group. */
module Iteration {
  import opened Text
  import opened Collections
  import opened Sorting
  import opened Records

  /** The planner's settings; `__init__` fixes them and nothing updates them later. */
  datatype Planner = Planner(outputRoot: string, iterations: int)

  /** `IterationPlanner(output_root, iterations)`: at least one round, whatever is asked. */
  function NewPlanner(outputRoot: string, iterations: int): (p: Planner)
    ensures p.outputRoot == outputRoot
    ensures p.iterations >= 1
    ensures iterations >= 1 ==> p.iterations == iterations
    ensures iterations < 1 ==> p.iterations == 1
  {
    Planner(outputRoot, if iterations > 1 then iterations else 1)
  }

  /** The number of rounds the log loop runs for: `range(1, iterations + 1)`. */
  function Rounds(p: Planner): nat {
    if p.iterations > 0 then p.iterations else 0
  }

  // ---------------------------------------------------------------- ranking

  /** The order of `_rank_results`: the key `(-citations, -year, journal.lower(),
      title.lower())` compared as a tuple. */
  predicate RankLe(a: SearchResult, b: SearchResult) {
    if a.citationCount != b.citationCount then a.citationCount > b.citationCount
    else if a.year != b.year then a.year > b.year
    else if Lower(a.journal) != Lower(b.journal) then LexLe(Lower(a.journal), Lower(b.journal))
    else LexLe(Lower(a.title), Lower(b.title))
  }

  lemma RankLeTransitive(a: SearchResult, b: SearchResult, c: SearchResult)
    requires RankLe(a, b) && RankLe(b, c)
    ensures RankLe(a, c)
  {
    if a.citationCount == b.citationCount == c.citationCount && a.year == b.year == c.year {
      var ja, jb, jc := Lower(a.journal), Lower(b.journal), Lower(c.journal);
      if ja != jb || jb != jc {
        if ja == jb {
          assert LexLe(jb, jc);
        } else if jb == jc {
          assert LexLe(ja, jb);
        } else {
          LexLeTransitive(ja, jb, jc);
          if ja == jc {
            LexLeAntisymmetric(ja, jb);
          }
        }
      } else {
        LexLeTransitive(Lower(a.title), Lower(b.title), Lower(c.title));
      }
    }
  }

  /** The rank key orders every pair of records, consistently. */
  lemma RankLeTotalPreorder()
    ensures TotalPreorder(RankLe)
  {
    forall a, b
      ensures RankLe(a, b) || RankLe(b, a)
    {
      LexLeTotal(Lower(a.journal), Lower(b.journal));
      LexLeTotal(Lower(a.title), Lower(b.title));
    }
    forall a, b, c | RankLe(a, b) && RankLe(b, c)
      ensures RankLe(a, c)
    {
      RankLeTransitive(a, b, c);
    }
  }

  /** `_rank_results`: Python's stable `sorted` under the rank key. */
  function RankResults(results: seq<SearchResult>): seq<SearchResult> {
    SortBy(results, RankLe)
  }

  /** The ranking is a permutation of its input, ordered by citations descending, then
      year descending, then journal and title ascending ignoring case, and records
      with equal keys keep their input order. */
  lemma RankResultsSpec(results: seq<SearchResult>)
    ensures multiset(RankResults(results)) == multiset(results)
    ensures forall i, j :: 0 <= i < j < |RankResults(results)| ==>
              var a, b := RankResults(results)[i], RankResults(results)[j];
              && a.citationCount >= b.citationCount
              && (a.citationCount == b.citationCount ==> a.year >= b.year)
              && (a.citationCount == b.citationCount && a.year == b.year ==>
                    LexLe(Lower(a.journal), Lower(b.journal)))
              && (a.citationCount == b.citationCount && a.year == b.year
                    && Lower(a.journal) == Lower(b.journal) ==>
                    LexLe(Lower(a.title), Lower(b.title)))
    ensures forall y :: EquivTo(RankResults(results), y, RankLe) == EquivTo(results, y, RankLe)
  {
    RankLeTotalPreorder();
    SortBySpec(results, RankLe);
    var r := RankResults(results);
    forall i, j | 0 <= i < j < |r|
      ensures r[i].citationCount == r[j].citationCount && r[i].year == r[j].year ==>
                LexLe(Lower(r[i].journal), Lower(r[j].journal))
      ensures r[i].citationCount == r[j].citationCount && r[i].year == r[j].year
                && Lower(r[i].journal) == Lower(r[j].journal) ==>
                LexLe(Lower(r[i].title), Lower(r[j].title))
    {
      assert RankLe(r[i], r[j]);
      if Lower(r[i].journal) == Lower(r[j].journal) {
        LexLeTotal(Lower(r[i].journal), Lower(r[j].journal));
      }
    }
  }

  // ---------------------------------------------------------------- iteration log

  const LogHeader: seq<string> := [
    "# 研究方案迭代日志",
    "",
    "以下 7 轮迭代演示如何逐步引入高引用度的医工交叉文献,",
    "以优化食管肿瘤 MRI/CT 融合研究方案。",
    ""
  ]

  const NoRecordsLine := "暂无文献记录可用于迭代。"

  const ActionLine := "- 行动要点：将该研究的特征提取/模型策略引入本地数据集，"
    + "验证在术前评估、放化疗疗效或随访复发预测中的可复现性。"

  const DeepenLine := "- 医工结合深化：联合影像工程特征、临床分期与疗效终点，"
    + "并同步准备可公开分享的特征工程流程。"

  function Modalities(item: SearchResult): seq<string> {
    item.imagingModality
  }

  /** Every modality of every record, in order: what the `Counter` counts. */
  function AllModalities(ranked: seq<SearchResult>): seq<string> {
    FlatMap(ranked, Modalities)
  }

  /** `_modal_focus`: the round's label from the anchor's first modality and the
      modality counts over all records. */
  function ModalFocus(ref: SearchResult, all: seq<string>): string {
    if ref.imagingModality == [] then "多模态策略"
    else
      var primary := ref.imagingModality[0];
      if multiset(all)[primary] == 1 && |Distinct(all)| > 1 then "补强" + primary + "特色"
      else primary + "与临床协同"
  }

  /** The label names the anchor's first modality, and it is the "reinforce" label
      exactly when that modality occurs once in all records and some other modality
      occurs too. */
  lemma ModalFocusSpec(ref: SearchResult, all: seq<string>)
    ensures ref.imagingModality == [] ==> ModalFocus(ref, all) == "多模态策略"
    ensures ref.imagingModality != [] ==>
              var primary := ref.imagingModality[0];
              && (ModalFocus(ref, all) == "补强" + primary + "特色"
                  <==> multiset(all)[primary] == 1 && exists m :: m in all && m != primary)
              && (ModalFocus(ref, all) != "补强" + primary + "特色" ==>
                    ModalFocus(ref, all) == primary + "与临床协同")
  {
    if ref.imagingModality != [] {
      var primary := ref.imagingModality[0];
      var r := "补强" + primary + "特色";
      var o := primary + "与临床协同";
      assert |r| != |o|;
      if multiset(all)[primary] == 1 {
        assert primary in all;
        MoreThanOneDistinct(all, primary);
      }
    }
  }

  /** With `x` present, more than one distinct value means some value other than `x`. */
  lemma MoreThanOneDistinct(all: seq<string>, x: string)
    requires x in all
    ensures |Distinct(all)| > 1 <==> exists m :: m in all && m != x
  {
    DistinctSpec(all);
    var d := Distinct(all);
    assert x in d;
    if |d| > 1 {
      if d[0] == x {
        assert d[1] in all && d[1] != x;
      } else {
        assert d[0] in all && d[0] != x;
      }
    }
    if exists m :: m in all && m != x {
      var m :| m in all && m != x;
      assert m in d;
      var i :| 0 <= i < |d| && d[i] == m;
      var j :| 0 <= j < |d| && d[j] == x;
      assert i != j;
    }
  }

  /** `top_refs`: the best `iterations + 3` records (Python's slice). */
  function TopRefs(p: Planner, ranked: seq<SearchResult>): seq<SearchResult> {
    SliceTo(ranked, p.iterations + 3)
  }

  /** The record round `idx` is anchored on: round-robin over `top_refs`. */
  function Anchor(top: seq<SearchResult>, idx: int): SearchResult
    requires top != []
  {
    top[(idx - 1) % |top|]
  }

  /** Round `idx` anchors on ranked record `(idx - 1) mod min(iterations + 3, n)`, so
      once the pool is used up the anchors repeat with that period. */
  lemma AnchorSpec(p: Planner, ranked: seq<SearchResult>, idx: int)
    requires ranked != [] && 1 <= idx <= p.iterations
    ensures var pool := if p.iterations + 3 < |ranked| then p.iterations + 3 else |ranked|;
      && |TopRefs(p, ranked)| == pool > 0
      && Anchor(TopRefs(p, ranked), idx) == ranked[(idx - 1) % pool]
      && Anchor(TopRefs(p, ranked), idx + pool) == Anchor(TopRefs(p, ranked), idx)
  {
    var pool := if p.iterations + 3 < |ranked| then p.iterations + 3 else |ranked|;
    ModPeriod(idx - 1, pool);
  }

  lemma MulAtLeast(k: int, m: int)
    requires k >= 1 && m > 0
    ensures k * m >= m
  {
    assert k * m == (k - 1) * m + m;
  }

  /** The remainder is determined by any quotient-remainder split. */
  lemma ModUnique(x: int, q: int, r: int, m: int)
    requires m > 0 && 0 <= r < m && x == q * m + r
    ensures x % m == r
  {
    var q', r' := x / m, x % m;
    assert (q - q') * m == r' - r;
    if q > q' {
      MulAtLeast(q - q', m);
    } else if q < q' {
      MulAtLeast(q' - q, m);
    }
  }

  /** Python's `%` by a positive modulus repeats with that period. */
  lemma ModPeriod(a: int, m: int)
    requires m > 0
    ensures (a + m) % m == a % m
  {
    var q, r := a / m, a % m;
    assert a + m == (q + 1) * m + r;
    ModUnique(a + m, q + 1, r, m);
  }

  function RoundHeading(idx: int, focus: string): string {
    "## 第" + IntToString(idx) + "轮：聚焦" + focus
  }

  function RoundReference(ref: SearchResult): string {
    "- 核心文献：《" + ref.title + "》(" + ref.journal + ", " + IntToString(ref.year) + ")，"
    + "引用 " + IntToString(ref.citationCount) + " 次，覆盖 " + Join(", ", ref.imagingModality) + "。"
  }

  /** The five lines of one round. */
  function RoundBlock(idx: int, ref: SearchResult, all: seq<string>): (b: seq<string>)
    ensures |b| == 5
  {
    [RoundHeading(idx, ModalFocus(ref, all)), RoundReference(ref), ActionLine, DeepenLine, ""]
  }

  /** The lines of round `idx`, for each `idx`. */
  function RoundOf(top: seq<SearchResult>, all: seq<string>): int -> seq<string>
    requires top != []
  {
    idx => RoundBlock(idx, Anchor(top, idx), all)
  }

  /** The lines `_build_iteration_log` returns. */
  function IterationLog(p: Planner, ranked: seq<SearchResult>): seq<string> {
    if ranked == [] then LogHeader + [NoRecordsLine]
    else if Rounds(p) == 0 then LogHeader
    else LogHeader + Numbered(Rounds(p), RoundOf(TopRefs(p, ranked), AllModalities(ranked)))
  }

  /** `_build_iteration_log`: the header, then five lines per round. */
  method BuildIterationLog(p: Planner, ranked: seq<SearchResult>) returns (lines: seq<string>)
    ensures lines == IterationLog(p, ranked)
  {
    var header := LogHeader;
    if ranked == [] {
      return header + [NoRecordsLine];
    }
    var top := SliceTo(ranked, p.iterations + 3);
    var all := AllModalities(ranked);
    if p.iterations < 1 {
      // `range(1, iterations + 1)` is empty
      return header;
    }
    var rounds: seq<string> := [];
    var idx := 1;
    while idx <= p.iterations
      invariant 1 <= idx <= p.iterations + 1
      invariant rounds == Numbered(idx - 1, RoundOf(top, all))
    {
      var ref := top[(idx - 1) % |top|];
      var focus := ModalFocus(ref, all);
      var block := [RoundHeading(idx, focus), RoundReference(ref), ActionLine, DeepenLine, ""];
      assert block == RoundOf(top, all)(idx);
      rounds := rounds + block;
      idx := idx + 1;
    }
    lines := header + rounds;
  }

  /** With no records the log is the header and the placeholder. */
  lemma IterationLogEmpty(p: Planner)
    ensures |IterationLog(p, [])| == 6
    ensures IterationLog(p, [])[..5] == LogHeader && IterationLog(p, [])[5] == NoRecordsLine
  {
  }

  /** With records the log has five lines per round, and round `idx` opens with its
      label and its anchor. */
  lemma IterationLogRounds(p: Planner, ranked: seq<SearchResult>)
    requires ranked != []
    ensures |IterationLog(p, ranked)| == 5 + 5 * Rounds(p)
    ensures forall idx :: 1 <= idx <= Rounds(p) ==>
              && IterationLog(p, ranked)[5 * idx]
                 == RoundHeading(idx, ModalFocus(Anchor(TopRefs(p, ranked), idx), AllModalities(ranked)))
              && IterationLog(p, ranked)[5 * idx + 1] == RoundReference(Anchor(TopRefs(p, ranked), idx))
  {
    if Rounds(p) > 0 {
      var top, all, n := TopRefs(p, ranked), AllModalities(ranked), Rounds(p);
      assert IterationLog(p, ranked) == LogHeader + Numbered(n, RoundOf(top, all));
      RoundLinesAt(top, all, n, 1);
      forall idx | 1 <= idx <= n
        ensures IterationLog(p, ranked)[5 * idx] == RoundHeading(idx, ModalFocus(Anchor(top, idx), all))
        ensures IterationLog(p, ranked)[5 * idx + 1] == RoundReference(Anchor(top, idx))
      {
        RoundLinesAt(top, all, n, idx);
      }
    }
  }

  /** Round `idx` of the log starts at line `5 * idx` with its heading and reference. */
  lemma RoundLinesAt(top: seq<SearchResult>, all: seq<string>, n: nat, idx: int)
    requires top != [] && 1 <= idx <= n
    ensures |LogHeader + Numbered(n, RoundOf(top, all))| == 5 + 5 * n
    ensures (LogHeader + Numbered(n, RoundOf(top, all)))[5 * idx]
              == RoundHeading(idx, ModalFocus(Anchor(top, idx), all))
    ensures (LogHeader + Numbered(n, RoundOf(top, all)))[5 * idx + 1] == RoundReference(Anchor(top, idx))
  {
    var f := RoundOf(top, all);
    assert forall i :: 1 <= i <= n ==> |f(i)| == 5;
    HeaderRoundsAt(LogHeader, n, f, idx);
  }

  lemma HeaderRoundsAt(header: seq<string>, n: nat, f: int -> seq<string>, idx: int)
    requires |header| == 5 && 1 <= idx <= n
    requires forall i :: 1 <= i <= n ==> |f(i)| == 5
    ensures |header + Numbered(n, f)| == 5 + 5 * n
    ensures (header + Numbered(n, f))[5 * idx] == f(idx)[0]
    ensures (header + Numbered(n, f))[5 * idx + 1] == f(idx)[1]
  {
    NumberedLength(n, f, 5);
    NumberedLength(idx - 1, f, 5);
    NumberedAt(n, f, idx, 0);
    NumberedAt(n, f, idx, 1);
  }

  /** A planner from `NewPlanner` writes at least one round whenever there are records. */
  lemma NewPlannerLogLength(outputRoot: string, iterations: int, ranked: seq<SearchResult>)
    requires ranked != []
    ensures var p := NewPlanner(outputRoot, iterations);
      |IterationLog(p, ranked)| == 5 + 5 * p.iterations >= 10
  {
    IterationLogRounds(NewPlanner(outputRoot, iterations), ranked);
  }

  // ---------------------------------------------------------------- final plan

  const PlanPreamble: seq<string> := [
    "# 食管肿瘤 MRI/CT 融合研究方案（第7轮定稿）",
    "",
    "## 研究目标",
    "- 构建基于 MRI 与 CT 多模态影像的病理/疗效预测模型，"
      + "针对食管癌患者的术前分期、放化疗反应及复发风险评估。",
    "- 引入高引用度医工交叉成果中的影像工程、深度学习和多模态融合策略，"
      + "形成可复现的临床决策支持工具。",
    ""
  ]

  const NoReferencesLine := "暂无文献信息，需先执行检索流程。"

  const ReferenceHeading := "## 核心参考文献（按引用次数排序）"

  function ReferenceLine(item: SearchResult): string {
    "- 《" + item.title + "》，" + item.journal + " (" + IntToString(item.year) + ")，引用 "
    + IntToString(item.citationCount) + " 次。" + " 重点：" + item.keyFindings
  }

  function ReferenceEntry(item: SearchResult): seq<string> {
    [ReferenceLine(item)]
  }

  /** How many records the reference section lists: `min(10, len(ranked))`. */
  function ReferenceCount(ranked: seq<SearchResult>): nat {
    if |ranked| < 10 then |ranked| else 10
  }

  /** The bullet lines of the reference section. */
  function ReferenceEntries(ranked: seq<SearchResult>): seq<string> {
    FlatMap(ranked[..ReferenceCount(ranked)], ReferenceEntry)
  }

  /** The lines `_reference_section` returns. */
  function ReferenceLines(ranked: seq<SearchResult>): seq<string> {
    [ReferenceHeading, ""] + ReferenceEntries(ranked) + [""]
  }

  /** `_reference_section`: one line for each of the first ten records. */
  method ReferenceSection(ranked: seq<SearchResult>) returns (lines: seq<string>)
    ensures lines == ReferenceLines(ranked)
  {
    var top := ranked[..if 10 < |ranked| then 10 else |ranked|];
    var entries: seq<string> := [];
    var i := 0;
    while i < |top|
      invariant 0 <= i <= |top|
      invariant entries == FlatMap(top[..i], ReferenceEntry)
    {
      FlatMapSnoc(top, ReferenceEntry, i);
      entries := entries + [ReferenceLine(top[i])];
      i := i + 1;
    }
    assert top[..i] == top;
    lines := [ReferenceHeading, ""] + entries + [""];
  }

  /** The reference section lists exactly the first `min(10, n)` records, in ranked order. */
  lemma ReferenceLinesSpec(ranked: seq<SearchResult>)
    ensures ReferenceCount(ranked) <= 10 && ReferenceCount(ranked) <= |ranked|
    ensures |ranked| >= 10 ==> ReferenceCount(ranked) == 10
    ensures |ReferenceEntries(ranked)| == ReferenceCount(ranked)
    ensures |ReferenceLines(ranked)| == 3 + ReferenceCount(ranked)
    ensures forall i :: 0 <= i < ReferenceCount(ranked) ==>
              ReferenceEntries(ranked)[i] == ReferenceLine(ranked[i])
  {
    var top := ranked[..ReferenceCount(ranked)];
    var entries := ReferenceEntries(ranked);
    FlatMapSingles(top, ReferenceEntry);
    forall i | 0 <= i < ReferenceCount(ranked)
      ensures entries[i] == ReferenceLine(ranked[i])
    {
      assert entries[i] == ReferenceEntry(top[i])[0];
    }
  }

  /** `_data_needs_section`: a fixed block. */
  const DataNeeds: seq<string> := [
    "## 数据与特征需求",
    "",
    "- 影像：术前 CT、MRI（含 DWI、DCE 等功能序列），统一重采样与配准。",
    "- 临床：TNM/cT 分期、病理分型、放化疗方案、手术/随访结局。",
    "- 分子：若可获得，加入血液或组织分子标志物以支持多模态建模。",
    "- 工程特征：影像放射组学、深度学习特征向量、时序随访指标。",
    ""
  ]

  const AnalysisHead: seq<string> := [
    "## 分析路径",
    "",
    "1. 数据治理：执行图像标准化、去噪与器官分割，建立跨模态联合特征仓库。",
    "2. 特征工程：依据前述高引用研究复现 radiomics、深度学习嵌入及融合策略。",
    "3. 模型开发：采用交叉验证与外部验证集，比较传统机器学习与 Transformer 等方法。",
    "4. 临床验证：与放射科、胸外科联合评估模型对 cT 分期、疗效预测的增益。",
    "5. 可解释性：输出特征重要性、注意力热图，支撑医工协同决策。",
    "",
    "### 模态专题"
  ]

  const AnalysisTail: seq<string> := [
    "",
    "### 迭代与交付",
    "- 每轮迭代输出模型性能、重要特征和临床评审意见，持续对齐研究目标。",
    "- 第7轮后固化代码、文档与可复现脚本，准备投稿或开源发布。",
    ""
  ]

  const Unlabelled := "未标注"

  /** The modality group of a record: `", ".join(modalities) or "未标注"`. */
  function ClusterKey(item: SearchResult): (k: string)
    ensures k != ""
    ensures item.imagingModality == [] ==> k == Unlabelled
  {
    var joined := Join(", ", item.imagingModality);
    if joined == "" then Unlabelled else joined
  }

  function ClusterLine(modality: string, exemplar: SearchResult): string {
    "- " + modality + "：参考《" + exemplar.title + "》（引用 " + IntToString(exemplar.citationCount) + " 次）"
    + "，设置与我们数据一致的预处理和模型超参数。"
  }

  function ExemplarEntry(item: SearchResult): seq<string> {
    [ClusterLine(ClusterKey(item), item)]
  }

  /** The lines `_analysis_plan_section` returns: one topic line per modality group,
      naming the group's first record. */
  function AnalysisLines(ranked: seq<SearchResult>): seq<string> {
    AnalysisHead + FlatMap(DedupBy(ranked, ClusterKey), ExemplarEntry) + AnalysisTail
  }

  /** `_analysis_plan_section`: fill the `modality_clusters` groups, then write one line
      per group in the order the groups were created. */
  method AnalysisPlanSection(ranked: seq<SearchResult>) returns (lines: seq<string>)
    ensures lines == AnalysisLines(ranked)
  {
    var clusters, order := ClusterByModality(ranked);
    ghost var exemplars := DedupBy(ranked, ClusterKey);
    ExemplarCount(ranked);
    var topics: seq<string> := [];
    var j := 0;
    while j < |order|
      invariant 0 <= j <= |order|
      invariant topics == FlatMap(exemplars[..j], ExemplarEntry)
    {
      var modality := order[j];
      ExemplarAt(ranked, j);
      var exemplar := clusters[modality][0];
      FlatMapSnoc(exemplars, ExemplarEntry, j);
      topics := topics + [ClusterLine(modality, exemplar)];
      j := j + 1;
    }
    assert exemplars[..j] == exemplars;
    lines := AnalysisHead + topics + AnalysisTail;
  }

  /** There are as many first-seen records as modality groups. */
  lemma ExemplarCount(ranked: seq<SearchResult>)
    ensures |DedupBy(ranked, ClusterKey)| == |Distinct(KeySeq(ranked, ClusterKey))|
  {
    DedupByHeads(ranked, ClusterKey, Id);
  }

  /** The `j`-th group exists, and its first record is the `j`-th first-seen record. */
  lemma ExemplarAt(ranked: seq<SearchResult>, j: int)
    requires 0 <= j < |Distinct(KeySeq(ranked, ClusterKey))|
    ensures var m := Distinct(KeySeq(ranked, ClusterKey))[j];
      var g := GroupBy(ranked, ClusterKey, Id);
      && j < |DedupBy(ranked, ClusterKey)|
      && m in g && g[m] != []
      && ExemplarEntry(DedupBy(ranked, ClusterKey)[j]) == [ClusterLine(m, g[m][0])]
  {
    DedupByHeads(ranked, ClusterKey, Id);
  }

  /** The `modality_clusters` loop of `_analysis_plan_section`: the groups, and the order
      in which they were created (the order the mapping yields them in). */
  method ClusterByModality(ranked: seq<SearchResult>)
    returns (clusters: map<string, seq<SearchResult>>, order: seq<string>)
    ensures clusters == GroupBy(ranked, ClusterKey, Id)
    ensures order == Distinct(KeySeq(ranked, ClusterKey))
  {
    clusters := map[];
    order := [];
    var i := 0;
    while i < |ranked|
      invariant 0 <= i <= |ranked|
      invariant clusters == GroupBy(ranked[..i], ClusterKey, Id)
      invariant order == Distinct(KeySeq(ranked[..i], ClusterKey))
    {
      var item := ranked[i];
      var key := ClusterKey(item);
      ClusterStep(ranked, i);
      if key in clusters {
        clusters := clusters[key := clusters[key] + [item]];
      } else {
        var empty: seq<SearchResult> := [];
        assert empty + [item] == [item];
        clusters := clusters[key := [item]];
        order := order + [key];
      }
      i := i + 1;
    }
    assert ranked[..i] == ranked;
  }

  /** One step of the grouping loop: a key is new exactly when it has no group yet. */
  lemma ClusterStep(ranked: seq<SearchResult>, i: nat)
    requires i < |ranked|
    ensures var s, x := ranked[..i], ranked[i];
      var g, order := GroupBy(s, ClusterKey, Id), Distinct(KeySeq(s, ClusterKey));
      && GroupBy(ranked[..i + 1], ClusterKey, Id)
         == g[ClusterKey(x) := (if ClusterKey(x) in g then g[ClusterKey(x)] else []) + [x]]
      && Distinct(KeySeq(ranked[..i + 1], ClusterKey))
         == (if ClusterKey(x) in g then order else order + [ClusterKey(x)])
  {
    var s, x := ranked[..i], ranked[i];
    assert ranked[..i + 1] == s + [x];
    GroupBySnoc(s, ClusterKey, Id, x);
    KeySeqSnoc(s, ClusterKey, x);
    DistinctSnoc(KeySeq(s, ClusterKey), ClusterKey(x));
    GroupBySpec(s, ClusterKey, Id);
    KeysIdOfKeySeq(s, ClusterKey, ClusterKey(x));
  }

  /** One topic line per distinct modality group, in the order the groups first occur
      in the ranking, each naming the first ranked record of its group. */
  lemma AnalysisLinesSpec(ranked: seq<SearchResult>)
    ensures var groups := DedupBy(ranked, ClusterKey);
      && |AnalysisLines(ranked)| == |AnalysisHead| + |groups| + |AnalysisTail|
      && (forall k :: k in Keys(groups, ClusterKey) <==> exists i :: 0 <= i < |ranked| && ClusterKey(ranked[i]) == k)
      && (forall i, j :: 0 <= i < j < |groups| ==> ClusterKey(groups[i]) != ClusterKey(groups[j]))
      && FirstSeenOrder(ranked, ClusterKey, groups)
      && forall i :: 0 <= i < |groups| ==>
           AnalysisLines(ranked)[|AnalysisHead| + i] == ClusterLine(ClusterKey(groups[i]), groups[i])
  {
    var groups := DedupBy(ranked, ClusterKey);
    FlatMapSingles(groups, ExemplarEntry);
    DedupByKeys(ranked, ClusterKey);
    DedupByDistinct(ranked, ClusterKey);
    DedupByFirstSeen(ranked, ClusterKey);
    forall k
      ensures k in Keys(groups, ClusterKey) <==> exists i :: 0 <= i < |ranked| && ClusterKey(ranked[i]) == k
    {
      KeysMember(ranked, ClusterKey, k);
    }
  }

  /** The lines `_build_final_plan` returns. */
  function FinalPlan(ranked: seq<SearchResult>): seq<string> {
    if ranked != [] then PlanPreamble + ReferenceLines(ranked) + DataNeeds + AnalysisLines(ranked)
    else PlanPreamble + [NoReferencesLine]
  }

  /** `_build_final_plan`: the preamble, then the three sections, or the placeholder. */
  method BuildFinalPlan(ranked: seq<SearchResult>) returns (lines: seq<string>)
    ensures lines == FinalPlan(ranked)
  {
    lines := PlanPreamble;
    if ranked != [] {
      var references := ReferenceSection(ranked);
      var analysis := AnalysisPlanSection(ranked);
      lines := lines + references + DataNeeds + analysis;
    } else {
      lines := lines + [NoReferencesLine];
    }
  }

  // ---------------------------------------------------------------- the planner run

  /** `IterationPlanner.run` without the two file writes: the log and the plan, both
      built from the ranked records. */
  method PlannerRun(p: Planner, results: seq<SearchResult>) returns (log: seq<string>, plan: seq<string>)
    ensures log == IterationLog(p, RankResults(results))
    ensures plan == FinalPlan(RankResults(results))
  {
    var ranked := RankResults(results);
    log := BuildIterationLog(p, ranked);
    plan := BuildFinalPlan(ranked);
  }

  /** Every round's anchor is one of the planner's input records. */
  lemma AnchorIsInput(p: Planner, results: seq<SearchResult>, idx: int)
    requires results != [] && 1 <= idx <= p.iterations
    ensures |TopRefs(p, RankResults(results))| > 0
    ensures Anchor(TopRefs(p, RankResults(results)), idx) in results
  {
    var ranked := RankResults(results);
    SortByPermutation(results, RankLe);
    AnchorSpec(p, ranked, idx);
    var a := Anchor(TopRefs(p, ranked), idx);
    assert a in multiset(ranked);
  }
}
