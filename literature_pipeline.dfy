/** `tools/literature_pipeline.py`: loading and year filtering of the crawler's
    articles, file names for summaries, keyword and innovation rules, the plan section
    and its marker-delimited replacement, and the paragraphs of the Word export. */
module LiteraturePipeline {
  import opened Wrappers
  import opened Failures
  import opened Text
  import opened Collections
  import opened Sorting
  import opened CitationCrawler
  import Summarizer

  /** `SummaryResult`: what local processing produced for one article. */
  datatype SummaryResult = SummaryResult(
    article: Article,
    source: string,
    localPath: Option<string>,
    summary: string,
    keywords: seq<string>)

  // ---------------------------------------------------------------- load_articles

  const OfflineNeedsCache := "Offline mode requires --cache metadata."

  /** The `from_year` handed to the live fetch: `--from-year` unless it is absent or 0
      (the source combines them with `or`), otherwise `max(years, 1)` years back. */
  function FetchFromYear(fromYear: Option<int>, years: int, currentYear: int): (y: int)
    ensures fromYear.Some? && fromYear.value != 0 ==> y == fromYear.value
    ensures fromYear.None? || fromYear.value == 0 ==>
              y < currentYear && currentYear - y == (if years < 1 then 1 else years)
  {
    if fromYear.Some? && fromYear.value != 0 then fromYear.value
    else currentYear - (if years < 1 then 1 else years)
  }

  /** The articles before truncation: the cache when one is given, otherwise what the
      live fetch returns for its year bound. */
  function SourceArticles(cache: Option<seq<CacheItem>>, fetch: int -> seq<Article>,
                          fromYear: Option<int>, years: int, currentYear: int): seq<Article>
  {
    if cache.Some? then CachedArticles(cache.value)
    else fetch(FetchFromYear(fromYear, years, currentYear))
  }

  /** `load_articles`: offline mode without a cache is an error; a non-zero `rows`
      slices the list the way Python's `articles[:rows]` does. */
  function LoadArticles(cache: Option<seq<CacheItem>>, offline: bool, fetch: int -> seq<Article>,
                        fromYear: Option<int>, years: int, currentYear: int, rows: int)
    : Result<seq<Article>, Failure>
  {
    if cache.None? && offline then Err(RuntimeError(OfflineNeedsCache))
    else
      var articles := SourceArticles(cache, fetch, fromYear, years, currentYear);
      Ok(if rows != 0 then SliceTo(articles, rows) else articles)
  }

  /** The guard fails exactly in offline mode without a cache; otherwise the result is
      a prefix of the source list, all of it when `rows` is 0, at most `rows` articles
      when `rows` is positive, and all but the last `-rows` when it is negative. */
  lemma LoadArticlesSpec(cache: Option<seq<CacheItem>>, offline: bool, fetch: int -> seq<Article>,
                         fromYear: Option<int>, years: int, currentYear: int, rows: int)
    ensures var r := LoadArticles(cache, offline, fetch, fromYear, years, currentYear, rows);
      var src := SourceArticles(cache, fetch, fromYear, years, currentYear);
      && (r.Err? <==> cache.None? && offline)
      && (r.Err? ==> r.error == RuntimeError(OfflineNeedsCache))
      && (r.Ok? ==> |r.value| <= |src| && r.value == src[..|r.value|])
      && (r.Ok? && rows == 0 ==> r.value == src)
      && (r.Ok? && rows > 0 ==> |r.value| == (if rows < |src| then rows else |src|))
      && (r.Ok? && rows < 0 ==> |r.value| == (if |src| + rows > 0 then |src| + rows else 0))
  {
  }

  // ---------------------------------------------------------------- filter_recent

  /** The lower year bound of `filter_recent`: `explicit_from_year` whenever it is not
      `None` (0 included), otherwise `years` back from the current year. */
  function MinYear(explicitFromYear: Option<int>, years: int, currentYear: int): (y: int)
    ensures explicitFromYear.Some? ==> y == explicitFromYear.value
    ensures explicitFromYear.None? ==> y + years == currentYear
  {
    if explicitFromYear.Some? then explicitFromYear.value else currentYear - years
  }

  /** An explicit bound of 0 is a bound for the filter but is ignored by the fetch. */
  lemma ZeroFromYear(years: int, currentYear: int)
    ensures MinYear(Some(0), years, currentYear) == 0
    ensures FetchFromYear(Some(0), years, currentYear) < currentYear
  {
  }

  /** Kept by `filter_recent`: a known year no earlier than `minYear`. */
  function Recent(minYear: int): Article -> bool {
    (a: Article) => a.year.Some? && a.year.value >= minYear
  }

  function YearOrZero(a: Article): int {
    if a.year.Some? then a.year.value else 0
  }

  /** The order of `sorted(..., key=(year or 0, -citation_count), reverse=True)`:
      later years first and, within a year, FEWER citations first, because the
      reversal also reverses the negated citation count. */
  predicate NewerFirst(a: Article, b: Article) {
    YearOrZero(a) > YearOrZero(b) || (YearOrZero(a) == YearOrZero(b) && a.citationCount <= b.citationCount)
  }

  lemma NewerFirstTotalPreorder()
    ensures TotalPreorder(NewerFirst)
  {
  }

  /** What `filter_recent` returns for the bound `minYear`. */
  function RecentArticles(articles: seq<Article>, minYear: int): seq<Article> {
    SortBy(Filter(articles, Recent(minYear)), NewerFirst)
  }

  /** `filter_recent`, with the current year as a parameter. */
  method FilterRecent(articles: seq<Article>, years: int, explicitFromYear: Option<int>, currentYear: int)
    returns (recent: seq<Article>)
    ensures recent == RecentArticles(articles, MinYear(explicitFromYear, years, currentYear))
  {
    var minYear;
    if explicitFromYear.Some? {
      minYear := explicitFromYear.value;
    } else {
      minYear := currentYear - years;
    }
    var filtered: seq<Article> := [];
    var i := 0;
    while i < |articles|
      invariant 0 <= i <= |articles|
      invariant filtered == Filter(articles[..i], Recent(minYear))
    {
      assert articles[..i + 1][..i] == articles[..i];
      var article := articles[i];
      if article.year.Some? && article.year.value >= minYear {
        filtered := filtered + [article];
      }
      i := i + 1;
    }
    assert articles[..i] == articles;
    recent := SortBy(filtered, NewerFirst);
  }

  /** `filter_recent` keeps every copy of each article with a known year no earlier
      than the bound and nothing else; it orders them by year descending and, within
      a year, by citation count ascending; articles with equal keys keep input order. */
  lemma RecentArticlesSpec(articles: seq<Article>, minYear: int)
    ensures var r := RecentArticles(articles, minYear);
      && (forall a :: multiset(r)[a] ==
            if a.year.Some? && a.year.value >= minYear then multiset(articles)[a] else 0)
      && (forall i, j :: 0 <= i < j < |r| ==>
            YearOrZero(r[i]) > YearOrZero(r[j])
            || (YearOrZero(r[i]) == YearOrZero(r[j]) && r[i].citationCount <= r[j].citationCount))
      && (forall y :: EquivTo(r, y, NewerFirst) == EquivTo(Filter(articles, Recent(minYear)), y, NewerFirst))
  {
    var f := Filter(articles, Recent(minYear));
    FilterSpec(articles, Recent(minYear));
    NewerFirstTotalPreorder();
    SortBySpec(f, NewerFirst);
  }

  /** Every article `filter_recent` returns has a known year within the window. */
  lemma RecentArticlesInWindow(articles: seq<Article>, minYear: int, i: int)
    requires 0 <= i < |RecentArticles(articles, minYear)|
    ensures var a := RecentArticles(articles, minYear)[i];
      a.year.Some? && a.year.value >= minYear
  {
    var r := RecentArticles(articles, minYear);
    RecentArticlesSpec(articles, minYear);
    assert r[i] in multiset(r);
  }

  // ---------------------------------------------------------------- safe_filename

  /** The class `[0-9A-Za-z一-龥_-]` of characters a file stem may keep. */
  predicate StemChar(c: char) {
    '0' <= c <= '9' || 'A' <= c <= 'Z' || 'a' <= c <= 'z' || '一' <= c <= '龥' || c == '_' || c == '-'
  }

  predicate NotStemChar(c: char) {
    !StemChar(c)
  }

  predicate IsUnderscore(c: char) {
    c == '_'
  }

  /** The stem of `safe_filename`: each maximal run of characters outside the class
      becomes one "_", "_" is stripped from both ends, and "article" stands in for
      an empty stem. */
  function SafeStem(title: string): string {
    var stem := TrimStart(TrimEnd(CollapseRuns(title, NotStemChar, "_"), IsUnderscore), IsUnderscore);
    if stem == [] then "article" else stem
  }

  /** `safe_filename`. */
  function SafeFilename(title: string, suffix: string): (r: string)
    ensures IsSuffix(suffix, r)
    ensures IsPrefix(SafeStem(title), r)
  {
    var r := SafeStem(title) + suffix;
    assert r[|r| - |suffix|..] == suffix && r[..|SafeStem(title)|] == SafeStem(title);
    r
  }

  /** A tidy stem: non-empty, only characters of the class, no "_" at either end. */
  predicate CleanStem(s: string) {
    && s != []
    && (forall i :: 0 <= i < |s| ==> StemChar(s[i]))
    && s[0] != '_' && s[|s| - 1] != '_'
  }

  /** Trimming "_" from a text of class characters and "_" leaves a clean stem, unless
      nothing is left. */
  lemma TrimmedStemClean(c: string)
    requires forall i :: 0 <= i < |c| ==> StemChar(c[i])
    ensures var s := TrimStart(TrimEnd(c, IsUnderscore), IsUnderscore);
      s != [] ==> CleanStem(s)
  {
    TrimBothKeeps(c, IsUnderscore, StemChar);
  }

  /** The stand-in stem is clean. */
  lemma ArticleClean()
    ensures CleanStem("article")
  {
    var a := "article";
    assert a == ['a', 'r', 't', 'i', 'c', 'l', 'e'];
    forall i | 0 <= i < |a|
      ensures 'a' <= a[i] <= 'z'
    {
    }
  }

  /** Every stem `safe_filename` produces is clean. */
  lemma SafeStemClean(title: string)
    ensures CleanStem(SafeStem(title))
  {
    var c := CollapseRuns(title, NotStemChar, "_");
    CollapseRunsClean(title, NotStemChar, "_");
    TrimmedStemClean(c);
    if TrimStart(TrimEnd(c, IsUnderscore), IsUnderscore) == [] {
      ArticleClean();
    }
  }

  /** A title that is already a clean stem is kept as it is. */
  lemma SafeStemKeepsClean(title: string)
    requires CleanStem(title)
    ensures SafeStem(title) == title
  {
    CollapseRunsNone(title, NotStemChar, "_");
  }

  /** Sanitising a stem again changes nothing. */
  lemma SafeStemIdempotent(title: string)
    ensures SafeStem(SafeStem(title)) == SafeStem(title)
  {
    SafeStemClean(title);
    SafeStemKeepsClean(SafeStem(title));
  }

  /** Collapsing runs into "_" in a text with only "_" and characters outside the class
      leaves only "_". */
  lemma {:induction false} CollapseToUnderscores(s: string)
    requires forall i :: 0 <= i < |s| ==> NotStemChar(s[i]) || s[i] == '_'
    ensures forall i :: 0 <= i < |CollapseRuns(s, NotStemChar, "_")| ==> CollapseRuns(s, NotStemChar, "_")[i] == '_'
    decreases |s|
  {
    if s != [] {
      if NotStemChar(s[0]) {
        var t := TrimStart(s[1..], NotStemChar);
        assert forall i :: 0 <= i < |t| ==> t[i] == s[|s| - |t| + i];
        CollapseToUnderscores(t);
      } else {
        CollapseToUnderscores(s[1..]);
      }
    }
  }

  /** A title with nothing but "_" and characters outside the class is filed as
      "article". */
  lemma SafeStemFallback(title: string)
    requires forall i :: 0 <= i < |title| ==> NotStemChar(title[i]) || title[i] == '_'
    ensures SafeStem(title) == "article"
  {
    CollapseToUnderscores(title);
  }

  // ---------------------------------------------------------------- keyword_hint

  const HintComplement := "补体-脑损伤互作"
  const HintPhospho := "TDP-43 磷酸化与神经退行性风险"
  const HintSepsis := "脓毒症相关炎症及脑功能损害"
  const HintDefault := "TDP-43 相关病理"

  /** `keyword_hint`: the lower-cased title is checked for complement, then for
      phosphorylation, then for sepsis. */
  function KeywordHint(a: Article): string {
    var t := Lower(a.title);
    if Contains(t, "complement") || Contains(t, "c5") then HintComplement
    else if Contains(t, "phosphorylated") || Contains(t, "phospho") then HintPhospho
    else if Contains(t, "sepsis") then HintSepsis
    else HintDefault
  }

  /** A title holding "phosphorylated" holds "phospho": the first test of the second
      rule never decides anything by itself. */
  lemma PhosphoSubsumes(t: string)
    requires Contains(t, "phosphorylated")
    ensures Contains(t, "phospho")
  {
    var i :| 0 <= i <= |t| - 14 && OccursAt(t, "phosphorylated", i);
    assert t[i..i + 7] == t[i..i + 14][..7] == "phospho";
    assert OccursAt(t, "phospho", i);
  }

  lemma HintsDistinct()
    ensures HintComplement != HintPhospho && HintComplement != HintSepsis && HintComplement != HintDefault
    ensures HintPhospho != HintSepsis && HintPhospho != HintDefault && HintSepsis != HintDefault
  {
    assert HintComplement[0] != HintPhospho[0] && HintComplement[0] != HintSepsis[0];
    assert HintComplement[0] != HintDefault[0] && HintSepsis[0] != HintPhospho[0];
    assert HintSepsis[0] != HintDefault[0] && |HintPhospho| != |HintDefault|;
  }

  /** Each hint is chosen exactly when its rule is the first that matches. */
  lemma KeywordHintPriority(a: Article)
    ensures var t, h := Lower(a.title), KeywordHint(a);
      var complement := Contains(t, "complement") || Contains(t, "c5");
      var phospho := Contains(t, "phospho");
      var sepsis := Contains(t, "sepsis");
      && (h == HintComplement <==> complement)
      && (h == HintPhospho <==> !complement && phospho)
      && (h == HintSepsis <==> !complement && !phospho && sepsis)
      && (h == HintDefault <==> !complement && !phospho && !sepsis)
  {
    HintsDistinct();
    var t := Lower(a.title);
    if Contains(t, "phosphorylated") {
      PhosphoSubsumes(t);
    }
  }

  /** The hint does not depend on letter case in the title. */
  lemma KeywordHintCaseInsensitive(a: Article)
    ensures KeywordHint(a.(title := Lower(a.title))) == KeywordHint(a)
  {
    LowerIdempotent(a.title);
  }

  // ---------------------------------------------------------------- infer_keywords

  /** Python's string order is a total order. */
  lemma StringOrderTotal()
    ensures TotalPreorder(LexLe)
  {
    forall a, b
      ensures LexLe(a, b) || LexLe(b, a)
    {
      LexLeTotal(a, b);
    }
    forall a, b, c | LexLe(a, b) && LexLe(b, c)
      ensures LexLe(a, c)
    {
      LexLeTransitive(a, b, c);
    }
  }

  /** The needle-to-label table of `infer_keywords`, in dictionary order. */
  const KeywordMap: seq<(string, string)> := [
    ("complement", "补体调控"), ("c5a", "补体C5a"), ("c3", "补体C3"), ("tdp-43", "TDP-43"),
    ("phosphory", "TDP-43磷酸化"), ("sepsis", "脓毒症"), ("encephalopathy", "脑功能障碍"),
    ("biomarker", "生物标志物"), ("mortality", "死亡率"), ("neurodegeneration", "神经退行"),
    ("neuroinflammation", "神经炎症"), ("machine learning", "机器学习"), ("deep learning", "深度学习")]

  /** The `tokens` set after scanning `mapping`: each label whose needle occurs in
      `text`, once, in the order labels are first added. */
  function Matched(text: string, mapping: seq<(string, string)>): seq<string>
    decreases |mapping|
  {
    if mapping == [] then []
    else
      var m := Matched(text, mapping[..|mapping| - 1]);
      var entry := mapping[|mapping| - 1];
      if Contains(text, entry.0) && entry.1 !in m then m + [entry.1] else m
  }

  /** Some needle of label `x` occurs in `text`. */
  predicate Labelled(text: string, mapping: seq<(string, string)>, x: string) {
    exists k :: 0 <= k < |mapping| && mapping[k].1 == x && Contains(text, mapping[k].0)
  }

  /** A label is matched exactly when one of its needles occurs in the text, and no
      label is matched twice. */
  lemma {:induction false} MatchedSpec(text: string, mapping: seq<(string, string)>)
    ensures forall x :: x in Matched(text, mapping) <==> Labelled(text, mapping, x)
    ensures forall i, j :: 0 <= i < j < |Matched(text, mapping)| ==> Matched(text, mapping)[i] != Matched(text, mapping)[j]
    decreases |mapping|
  {
    if mapping != [] {
      var init, entry := mapping[..|mapping| - 1], mapping[|mapping| - 1];
      MatchedSpec(text, init);
      forall x
        ensures x in Matched(text, mapping) <==> Labelled(text, mapping, x)
      {
        if Labelled(text, mapping, x) {
          var k :| 0 <= k < |mapping| && mapping[k].1 == x && Contains(text, mapping[k].0);
          if k < |init| {
            assert init[k] == mapping[k];
          }
        }
        if Labelled(text, init, x) {
          var k :| 0 <= k < |init| && init[k].1 == x && Contains(text, init[k].0);
          assert mapping[k] == init[k];
        }
      }
    }
  }

  /** The loop of `infer_keywords` over a table, then `sorted(tokens)`. */
  method KeywordsIn(text: string, mapping: seq<(string, string)>) returns (keywords: seq<string>)
    ensures keywords == SortBy(Matched(text, mapping), LexLe)
  {
    var tokens: seq<string> := [];
    var i := 0;
    while i < |mapping|
      invariant 0 <= i <= |mapping|
      invariant tokens == Matched(text, mapping[..i])
    {
      assert mapping[..i + 1][..i] == mapping[..i];
      var (needle, keyword) := mapping[i];
      if Contains(text, needle) && keyword !in tokens {
        tokens := tokens + [keyword];
      }
      i := i + 1;
    }
    assert mapping[..i] == mapping;
    keywords := SortBy(tokens, LexLe);
  }

  /** The text `infer_keywords` searches: title and summary, lower-cased. */
  function KeywordText(a: Article, summary: string): string {
    Lower(a.title + " " + summary)
  }

  /** `infer_keywords`. */
  method InferKeywords(a: Article, summary: string) returns (keywords: seq<string>)
    ensures keywords == SortBy(Matched(KeywordText(a, summary), KeywordMap), LexLe)
  {
    keywords := KeywordsIn(KeywordText(a, summary), KeywordMap);
  }

  /** The keywords come out in strictly increasing string order, and a label is among
      them exactly when one of its needles occurs in the text. */
  lemma KeywordsSpec(text: string, mapping: seq<(string, string)>)
    ensures var r := SortBy(Matched(text, mapping), LexLe);
      && (forall i, j :: 0 <= i < j < |r| ==> LexLe(r[i], r[j]) && r[i] != r[j])
      && (forall x :: x in r <==> Labelled(text, mapping, x))
  {
    var m := Matched(text, mapping);
    var r := SortBy(m, LexLe);
    MatchedSpec(text, mapping);
    StringOrderTotal();
    SortBySpec(m, LexLe);
    NoRepeatsPermutation(r, m);
    forall x
      ensures x in r <==> x in m
    {
      assert x in r <==> x in multiset(r);
      assert x in m <==> x in multiset(m);
    }
  }

  // ---------------------------------------------------------------- derive_innovations

  const IdeaComplement := "将 C3/C5a 动态纳入 O 型轨迹分析，并探索补体抑制剂对 TDP-43 轨迹重塑的干预试验。"
  const IdeaPhospho := "增设血清磷酸化 TDP-43 分型，与全长 TDP-43 及传统神经标志物进行分层比较。"
  const IdeaMortality := "在多变量模型中引入 90 天死亡率与 ICU 复合不良结局，评估 TDP-43 增量价值。"
  const IdeaDeepLearning := "利用深度学习多模态模型比较 TDP-43 与补体、神经丝蛋白组合对 SAE 预测的贡献。"
  const IdeaFallback := "依据标题信息未发现新的主题，建议人工审核补充创新点。"

  /** `keyword_pool`: every keyword of every result. */
  function KeywordPool(results: seq<SummaryResult>): set<string> {
    set i, kw | 0 <= i < |results| && kw in results[i].keywords :: kw
  }

  /** Rule `rule` (0 to 3) of `derive_innovations` fires for the pool. */
  predicate Fires(pool: set<string>, rule: int) {
    if rule == 0 then "补体调控" in pool || "补体C5a" in pool || "补体C3" in pool
    else if rule == 1 then "TDP-43磷酸化" in pool
    else if rule == 2 then "死亡率" in pool
    else rule == 3 && "生物标志物" in pool && "深度学习" !in pool
  }

  function FiresIn(pool: set<string>): int -> bool {
    rule => Fires(pool, rule)
  }

  /** The idea of rule `rule`. */
  function Idea(rule: int): string {
    if rule == 0 then IdeaComplement
    else if rule == 1 then IdeaPhospho
    else if rule == 2 then IdeaMortality
    else IdeaDeepLearning
  }

  /** The position of an idea in the fixed rule order; the fallback comes last. */
  function IdeaRank(idea: string): int {
    if idea == IdeaComplement then 0
    else if idea == IdeaPhospho then 1
    else if idea == IdeaMortality then 2
    else if idea == IdeaDeepLearning then 3
    else 4
  }

  /** The five texts differ (in their second-to-last character). */
  lemma IdeasDistinct()
    ensures forall rule :: 0 <= rule < 4 ==> IdeaRank(Idea(rule)) == rule
    ensures IdeaRank(IdeaFallback) == 4
  {
    var c, p, m := IdeaComplement, IdeaPhospho, IdeaMortality;
    var d, f := IdeaDeepLearning, IdeaFallback;
    assert c[|c| - 2] != p[|p| - 2] && c[|c| - 2] != m[|m| - 2] && c[|c| - 2] != d[|d| - 2];
    assert p[|p| - 2] != m[|m| - 2] && p[|p| - 2] != d[|d| - 2] && m[|m| - 2] != d[|d| - 2];
    assert f[|f| - 2] != c[|c| - 2] && f[|f| - 2] != p[|p| - 2];
    assert f[|f| - 2] != m[|m| - 2] && f[|f| - 2] != d[|d| - 2];
  }

  /** The ideas of the rules before `rule` that fire, in rule order. */
  function FiredIdeas(pool: set<string>, rule: nat): seq<string>
    decreases rule
  {
    if rule == 0 then []
    else FiredIdeas(pool, rule - 1) + (if Fires(pool, rule - 1) then [Idea(rule - 1)] else [])
  }

  /** The ideas for a pool: those of the rules that fire, in rule order, or the
      fallback alone when none fires. */
  function InnovationsFor(pool: set<string>): seq<string> {
    var fired := FiredIdeas(pool, 4);
    if fired == [] then [IdeaFallback] else fired
  }

  /** `derive_innovations`. */
  method DeriveInnovations(results: seq<SummaryResult>) returns (innovations: seq<string>)
    ensures innovations == InnovationsFor(KeywordPool(results))
  {
    var pool := KeywordPool(results);
    innovations := [];
    if "补体调控" in pool || "补体C5a" in pool || "补体C3" in pool {
      innovations := innovations + [IdeaComplement];
    }
    assert innovations == FiredIdeas(pool, 1);
    if "TDP-43磷酸化" in pool {
      innovations := innovations + [IdeaPhospho];
    }
    assert innovations == FiredIdeas(pool, 2);
    if "死亡率" in pool {
      innovations := innovations + [IdeaMortality];
    }
    assert innovations == FiredIdeas(pool, 3);
    if "生物标志物" in pool && "深度学习" !in pool {
      innovations := innovations + [IdeaDeepLearning];
    }
    assert innovations == FiredIdeas(pool, 4);
    if innovations == [] {
      innovations := innovations + [IdeaFallback];
    }
  }

  /** Each rule's idea is among the fired ideas exactly when the rule comes before
      `rule` and fires. */
  lemma {:induction false} FiredIdeasMembers(pool: set<string>, rule: nat)
    requires rule <= 4
    ensures forall k :: 0 <= k < 4 ==> (Idea(k) in FiredIdeas(pool, rule) <==> k < rule && Fires(pool, k))
    decreases rule
  {
    if rule > 0 {
      FiredIdeasMembers(pool, rule - 1);
      IdeasDistinct();
      var prev := FiredIdeas(pool, rule - 1);
      var r := FiredIdeas(pool, rule);
      forall k | 0 <= k < 4
        ensures Idea(k) in r <==> k < rule && Fires(pool, k)
      {
        if Idea(k) in r && Idea(k) !in prev {
          assert Idea(k) == Idea(rule - 1);
          assert IdeaRank(Idea(k)) == k;
        }
      }
    }
  }

  /** At most `rule` fired ideas, each ranked below `rule`, in increasing rank. */
  lemma {:induction false} FiredIdeasRanks(pool: set<string>, rule: nat)
    requires rule <= 4
    ensures var r := FiredIdeas(pool, rule);
      && |r| <= rule
      && (forall i :: 0 <= i < |r| ==> IdeaRank(r[i]) < rule)
      && (forall i, j :: 0 <= i < j < |r| ==> IdeaRank(r[i]) < IdeaRank(r[j]))
    decreases rule
  {
    if rule > 0 {
      FiredIdeasRanks(pool, rule - 1);
      IdeasDistinct();
      assert IdeaRank(Idea(rule - 1)) == rule - 1;
    }
  }

  /** No idea has fired exactly when no rule before `rule` fires. */
  lemma {:induction false} FiredIdeasEmpty(pool: set<string>, rule: nat)
    ensures FiredIdeas(pool, rule) == [] <==> forall k :: 0 <= k < rule ==> !Fires(pool, k)
    decreases rule
  {
    if rule > 0 {
      FiredIdeasEmpty(pool, rule - 1);
    }
  }

  /** The ideas of the rules before `rule` that fire: at most `rule` of them, in rule
      order, each rule's idea present exactly when it fires. */
  lemma FiredIdeasSpec(pool: set<string>, rule: nat)
    requires rule <= 4
    ensures var r := FiredIdeas(pool, rule);
      && |r| <= rule
      && (forall k :: 0 <= k < 4 ==> (Idea(k) in r <==> k < rule && Fires(pool, k)))
      && (forall i :: 0 <= i < |r| ==> IdeaRank(r[i]) < rule)
      && (forall i, j :: 0 <= i < j < |r| ==> IdeaRank(r[i]) < IdeaRank(r[j]))
      && (r == [] <==> forall k :: 0 <= k < rule ==> !Fires(pool, k))
  {
    FiredIdeasMembers(pool, rule);
    FiredIdeasRanks(pool, rule);
    FiredIdeasEmpty(pool, rule);
  }

  /** Between one and four ideas, in rule order, each rule's idea present exactly when
      the rule fires, and the fallback exactly when no rule fires. */
  lemma InnovationsSpec(pool: set<string>)
    ensures var r := InnovationsFor(pool);
      && 1 <= |r| <= 4
      && (forall rule :: 0 <= rule < 4 ==> (Idea(rule) in r <==> Fires(pool, rule)))
      && (r == [IdeaFallback] <==> forall rule :: 0 <= rule < 4 ==> !Fires(pool, rule))
      && (IdeaFallback in r <==> r == [IdeaFallback])
      && (forall i, j :: 0 <= i < j < |r| ==> IdeaRank(r[i]) < IdeaRank(r[j]))
  {
    FiredIdeasSpec(pool, 4);
    IdeasDistinct();
    var f := FiredIdeas(pool, 4);
    if f != [] {
      assert IdeaRank(f[0]) < 4;
    }
  }

  /** The fourth rule fires exactly for a pool with "生物标志物" and without "深度学习". */
  lemma DeepLearningRule(pool: set<string>)
    ensures IdeaDeepLearning in InnovationsFor(pool) <==> "生物标志物" in pool && "深度学习" !in pool
  {
    InnovationsSpec(pool);
    assert Idea(3) == IdeaDeepLearning;
  }

  // ---------------------------------------------------------------- render_iteration_section

  const SectionHead: seq<string> := [
    "## 9. 近五年文献驱动的迭代更新",
    "本节内容由 `tools/literature_pipeline.py` 自动生成，覆盖最近 5 年内与血清 TDP-43/脓毒症脑损伤相关的高引用研究。",
    "",
    "### 9.1 摘要与获取状态",
    "| 标题 | 年份 | 文本来源 | 本地文件 | 关键词 | 摘要要点 |",
    "| --- | --- | --- | --- | --- | --- |"]

  const IdeasHead: seq<string> := ["", "### 9.2 创新点更新"]

  const SectionTail: seq<string> := [
    "",
    "### 9.3 后续行动",
    "- 对于仍需人工补充的文献，指定责任人于 2 周内完成原文下载与深度笔记。",
    "- 结合补体轴与 TDP-43 双标志物轨迹，验证深度学习模型在外部中心的泛化性能。",
    "- 依据最新证据修订随访 CRF 表单，新增磷酸化 TDP-43 与补体并行采样栏位。"]

  function LocalCell(path: Option<string>): string {
    if path.Some? then path.value else "-"
  }

  /** `", ".join(keywords) if keywords else "-"`, then `keywords or "-"`. */
  function KeywordsCell(keywords: seq<string>): string {
    var joined := if keywords != [] then Join(", ", keywords) else "-";
    if joined == "" then "-" else joined
  }

  /** The summary with "|" turned into "／" and each newline into "<br>". */
  function SummaryCell(summary: string): string {
    ReplaceAll(ReplaceAll(summary, "|", "／"), "\n", "<br>")
  }

  function RowCells(r: SummaryResult): seq<string> {
    [ NoBar(r.article.title),
      YearCell(r.article.year),
      r.source,
      LocalCell(r.localPath),
      KeywordsCell(r.keywords),
      SummaryCell(r.summary) ]
  }

  /** The table row of one result. */
  function TableRow(r: SummaryResult): string {
    "| " + Join(" | ", RowCells(r)) + " |"
  }

  /** `f"{idx}. {idea}"`. */
  function IdeaLine(idx: int, idea: string): string {
    IntToString(idx) + ". " + idea
  }

  /** The innovations, numbered from 1. */
  function IdeaLines(ideas: seq<string>): seq<string>
    decreases |ideas|
  {
    if ideas == [] then [] else IdeaLines(ideas[..|ideas| - 1]) + [IdeaLine(|ideas|, ideas[|ideas| - 1])]
  }

  /** The lines `render_iteration_section` joins. */
  function SectionLines(results: seq<SummaryResult>, innovations: seq<string>): seq<string> {
    SectionHead + Map(results, TableRow) + IdeasHead + IdeaLines(innovations) + SectionTail
  }

  /** `render_iteration_section`. */
  method RenderIterationSection(results: seq<SummaryResult>, innovations: seq<string>)
    returns (text: string)
    ensures text == Join("\n", SectionLines(results, innovations))
  {
    var rows: seq<string> := [];
    var i := 0;
    while i < |results|
      invariant 0 <= i <= |results|
      invariant rows == Map(results[..i], TableRow)
    {
      MapSnoc(results, TableRow, i);
      rows := rows + [TableRow(results[i])];
      i := i + 1;
    }
    assert results[..i] == results;
    var ideas: seq<string> := [];
    var idx := 1;
    while idx <= |innovations|
      invariant 1 <= idx <= |innovations| + 1
      invariant ideas == IdeaLines(innovations[..idx - 1])
    {
      assert innovations[..idx][..idx - 1] == innovations[..idx - 1];
      ideas := ideas + [IdeaLine(idx, innovations[idx - 1])];
      idx := idx + 1;
    }
    assert innovations[..idx - 1] == innovations;
    text := Join("\n", SectionHead + rows + IdeasHead + ideas + SectionTail);
  }

  /** Line `k` of the numbered list is the `k`-th innovation, numbered `k + 1`. */
  lemma {:induction false} IdeaLinesSpec(ideas: seq<string>)
    ensures |IdeaLines(ideas)| == |ideas|
    ensures forall k :: 0 <= k < |ideas| ==> IdeaLines(ideas)[k] == IdeaLine(k + 1, ideas[k])
    decreases |ideas|
  {
    if ideas != [] {
      var init := ideas[..|ideas| - 1];
      IdeaLinesSpec(init);
      forall k | 0 <= k < |init|
        ensures init[k] == ideas[k]
      {
      }
    }
  }

  /** Where each part sits in a five-part concatenation. */
  lemma FivePartsAt<T>(a: seq<T>, b: seq<T>, c: seq<T>, d: seq<T>, e: seq<T>)
    ensures var s := a + b + c + d + e;
      && |s| == |a| + |b| + |c| + |d| + |e|
      && s[..|a|] == a
      && (forall i :: 0 <= i < |b| ==> s[|a| + i] == b[i])
      && (forall k :: 0 <= k < |d| ==> s[|a| + |b| + |c| + k] == d[k])
      && s[|s| - |e|..] == e
  {
    var s := a + b + c + d + e;
    assert s == (a + b + c + d) + e;
  }

  /** The fixed parts have six, two and five lines. */
  lemma SectionPartSizes()
    ensures |SectionHead| == 6 && |IdeasHead| == 2 && |SectionTail| == 5
  {
  }

  /** The layout of the section around any fixed head, middle and tail. */
  lemma LayoutSpec(head: seq<string>, results: seq<SummaryResult>, mid: seq<string>, innovations: seq<string>, tail: seq<string>)
    ensures var ls, h, m := head + Map(results, TableRow) + mid + IdeaLines(innovations) + tail, |head|, |mid|;
      && |ls| == h + |results| + m + |innovations| + |tail|
      && ls[..h] == head
      && (forall i :: 0 <= i < |results| ==> ls[h + i] == TableRow(results[i]))
      && (forall k :: 0 <= k < |innovations| ==>
            ls[h + |results| + m + k] == IdeaLine(k + 1, innovations[k]))
      && ls[|ls| - |tail|..] == tail
  {
    var rows, ideas := Map(results, TableRow), IdeaLines(innovations);
    IdeaLinesSpec(innovations);
    FivePartsAt(head, rows, mid, ideas, tail);
    var ls := head + rows + mid + ideas + tail;
    forall i | 0 <= i < |results|
      ensures ls[|head| + i] == TableRow(results[i])
    {
      assert ls[|head| + i] == rows[i];
    }
    forall k | 0 <= k < |innovations|
      ensures ls[|head| + |results| + |mid| + k] == IdeaLine(k + 1, innovations[k])
    {
      assert ls[|head| + |rows| + |mid| + k] == ideas[k];
    }
  }

  /** The fixed head, then one table row per result in order, the two lines that open
      the innovations, the innovations numbered from 1 in order, and the fixed tail. */
  lemma SectionLinesSpec(results: seq<SummaryResult>, innovations: seq<string>)
    ensures var ls, h, m := SectionLines(results, innovations), |SectionHead|, |IdeasHead|;
      && |ls| == h + |results| + m + |innovations| + |SectionTail|
      && ls[..h] == SectionHead
      && (forall i :: 0 <= i < |results| ==> ls[h + i] == TableRow(results[i]))
      && (forall k :: 0 <= k < |innovations| ==>
            ls[h + |results| + m + k] == IdeaLine(k + 1, innovations[k]))
      && ls[|ls| - |SectionTail|..] == SectionTail
  {
    LayoutSpec(SectionHead, results, IdeasHead, innovations, SectionTail);
  }

  /** A summary cell holds no "|" and no newline. */
  lemma SummaryCellClean(summary: string)
    ensures '|' !in SummaryCell(summary) && '\n' !in SummaryCell(summary)
  {
    var bars := ReplaceAll(summary, "|", "／");
    ReplaceCharRemoves(summary, '|', "／");
    ReplaceKeepsAbsent(bars, "\n", "<br>", '|');
    ReplaceCharRemoves(bars, '\n', "<br>");
  }

  /** A summary without "|" or newlines is shown as it is. */
  lemma SummaryCellKeepsPlain(summary: string)
    requires '|' !in summary && '\n' !in summary
    ensures SummaryCell(summary) == summary
  {
    ReplaceAbsentChar(summary, '|', "／");
    ReplaceAbsentChar(summary, '\n', "<br>");
  }

  /** Six cells: the title and summary cells hold no "|", the summary cell no newline;
      the year cell is "-" exactly for a missing or zero year; a missing local file and
      an empty keyword list show "-"; the keyword cell is never empty. */
  lemma RowCellsSpec(r: SummaryResult)
    ensures var cells := RowCells(r);
      && |cells| == 6
      && '|' !in cells[0] && '|' !in cells[5] && '\n' !in cells[5]
      && (cells[1] == "-" <==> r.article.year.None? || r.article.year.value == 0)
      && (r.localPath.None? ==> cells[3] == "-")
      && (r.keywords == [] ==> cells[4] == "-")
      && (r.keywords != [] && Join(", ", r.keywords) != "" ==> cells[4] == Join(", ", r.keywords))
      && cells[4] != ""
  {
    ReplaceCharRemoves(r.article.title, '|', "／");
    SummaryCellClean(r.summary);
    if r.article.year.Some? {
      IntToStringNotDash(r.article.year.value);
    }
  }

  // ---------------------------------------------------------------- update_plan

  const PlanStart := "<!-- " + "LITERATURE_" + "ITERATION_START" + " -->"
  const PlanEnd := "<!-- " + "LITERATURE_" + "ITERATION_END" + " -->"
  const MissingMarkers := "Plan file缺少自动化占位符，请确保包含 LITERATURE_ITERATION_START/END 标记。"

  /** Some occurrence of `start` is followed, later, by an occurrence of `end`. */
  ghost predicate HasSpan(content: string, start: string, end: string) {
    exists i, j :: OccursAt(content, start, i) && OccursAt(content, end, j) && i + |start| <= j
  }

  /** The span that a non-greedy `start.*?end` (with DOTALL) matches first: the first
      `start` and the first `end` that begins after it. */
  function FirstSpan(content: string, start: string, end: string): (r: Option<(nat, nat)>)
    ensures r.None? <==> !HasSpan(content, start, end)
    ensures r.Some? ==> var (i, j) := r.value;
      && OccursAt(content, start, i) && OccursAt(content, end, j) && i + |start| <= j
      && (forall k :: 0 <= k < i ==> !OccursAt(content, start, k))
      && (forall k :: i + |start| <= k < j ==> !OccursAt(content, end, k))
  {
    match Find(content, start)
    case None => None
    case Some(i) =>
      match FindFrom(content, end, i + |start|)
      case None =>
        assert !HasSpan(content, start, end) by {
          forall a, b | OccursAt(content, start, a) && OccursAt(content, end, b)
            ensures a + |start| > b
          {
            assert !(a < i);
          }
        }
        None
      case Some(j) => Some((i, j))
  }

  /** The plan has a start marker followed, later, by an end marker. */
  ghost predicate HasMarkedSpan(content: string) {
    HasSpan(content, PlanStart, PlanEnd)
  }

  /** The span of the plan that `update_plan` replaces. */
  function MarkerSpan(content: string): Option<(nat, nat)> {
    FirstSpan(content, PlanStart, PlanEnd)
  }

  /** The text that replaces the span. */
  function Replacement(section: string): string {
    PlanStart + "\n" + section + "\n" + PlanEnd
  }

  /** The new plan text of `update_plan`, with the replacement inserted literally; an
      error when the plan has no marked span. */
  function UpdatePlan(content: string, section: string): Result<string, Failure> {
    match MarkerSpan(content)
    case None => Err(RuntimeError(MissingMarkers))
    case Some((i, j)) => Ok(content[..i] + Replacement(section) + content[j + |PlanEnd|..])
  }

  /** `update_plan` including its write: nothing is written in a dry run, and the
      marker check comes first either way. */
  function UpdatePlanWrite(content: string, section: string, dryRun: bool): Result<Option<string>, Failure> {
    match UpdatePlan(content, section)
    case Err(e) => Err(e)
    case Ok(text) => Ok(if dryRun then None else Some(text))
  }

  /** The update fails exactly when no start marker is followed by an end marker;
      otherwise the text before the first start marker and after the end marker that
      closes it is kept, and the section sits between the two markers. */
  lemma UpdatePlanSpec(content: string, section: string)
    ensures var r := UpdatePlan(content, section);
      && (r.Err? <==> !HasMarkedSpan(content))
      && (r.Err? ==> r.error == RuntimeError(MissingMarkers))
      && (r.Ok? ==> exists i, j ::
            && 0 <= i && i + |PlanStart| <= j && j + |PlanEnd| <= |content|
            && MarkerSpan(content) == Some((i, j))
            && r.value == content[..i] + PlanStart + "\n" + section + "\n" + PlanEnd + content[j + |PlanEnd|..])
  {
    var r := UpdatePlan(content, section);
    if r.Ok? {
      var (i, j) := MarkerSpan(content).value;
      assert r.value == content[..i] + PlanStart + "\n" + section + "\n" + PlanEnd + content[j + |PlanEnd|..];
    }
  }

  /** A dry run writes nothing, and fails just like a real run. */
  lemma DryRunWritesNothing(content: string, section: string)
    ensures UpdatePlanWrite(content, section, true).Ok? ==> UpdatePlanWrite(content, section, true).value.None?
    ensures UpdatePlanWrite(content, section, true).Err? <==> UpdatePlanWrite(content, section, false).Err?
  {
  }

  /** The shape of the end marker the proofs rely on. */
  lemma MarkerShape()
    ensures PlanEnd != [] && PlanEnd[0] == '<' && '\n' !in PlanEnd
    ensures '\\' !in PlanStart && '\\' !in PlanEnd
  {
    assert '\n' !in "<!-- " && '\n' !in "LITERATURE_" && '\n' !in "ITERATION_END" && '\n' !in " -->";
    assert '\\' !in "<!-- " && '\\' !in "LITERATURE_" && '\\' !in "ITERATION_START" && '\\' !in " -->";
    assert '\\' !in "ITERATION_END";
  }

  /** Between a start marker and an end marker without line breaks that enclose a
      section on lines of its own, there is no end marker, as long as the section holds
      none. */
  lemma GlueHasNoEnd(end: string, section: string, rest: string, p: int)
    requires end != [] && '\n' !in end
    requires !Contains(section, end)
    requires 0 <= p < |section| + 2
    ensures !OccursAt("\n" + section + "\n" + end + rest, end, p)
  {
    var t := "\n" + section + "\n" + end + rest;
    var n := |section| + 1;
    assert p + |end| <= |t|;
    var w := t[p..p + |end|];
    if p == 0 || p == n {
      assert w[0] == '\n' && end[0] in end;
    } else if p + |end| <= n {
      assert w == section[p - 1..p - 1 + |end|];
      assert !OccursAt(section, end, p - 1);
    } else {
      assert w[n - p] == '\n';
      assert end[n - p] in end;
    }
  }

  /** Occurrences of a pattern that end before `to` are the same in two texts that
      agree up to `to`. */
  lemma SamePrefixOccurrences(a: string, b: string, pat: string, to: nat, i: nat)
    requires i + |pat| == to <= |a| && to <= |b| && a[..to] == b[..to]
    requires forall k :: 0 <= k < i ==> !OccursAt(a, pat, k)
    ensures forall k :: 0 <= k < i ==> !OccursAt(b, pat, k)
  {
    forall k | 0 <= k < i
      ensures !OccursAt(b, pat, k)
    {
      assert !OccursAt(a, pat, k);
      assert a[k..k + |pat|] == b[k..k + |pat|] by {
        forall t | k <= t < k + |pat|
          ensures a[t] == b[t]
        {
          assert a[..to][t] == b[..to][t];
        }
      }
    }
  }

  /** An occurrence inside a suffix is an occurrence in the whole text. */
  lemma OccursShift(s: string, pat: string, off: nat, p: nat)
    requires off <= |s|
    ensures OccursAt(s, pat, off + p) <==> OccursAt(s[off..], pat, p)
  {
    if off + p + |pat| <= |s| {
      assert s[off + p..off + p + |pat|] == s[off..][p..p + |pat|];
    }
  }

  /** In a text that continues, from `base`, with a section on a line of its own and
      the end marker, the first end marker from `base` on is that one. */
  lemma GlueThenEnd(end: string, next: string, base: nat, section: string, suffix: string)
    requires end != [] && '\n' !in end
    requires base <= |next| && next[base..] == "\n" + section + "\n" + end + suffix
    requires !Contains(section, end)
    ensures OccursAt(next, end, base + |section| + 2)
    ensures forall k :: base <= k < base + |section| + 2 ==> !OccursAt(next, end, k)
  {
    var glue := "\n" + section + "\n";
    forall k | base <= k < base + |glue|
      ensures !OccursAt(next, end, k)
    {
      GlueHasNoEnd(end, section, suffix, k - base);
      OccursShift(next, end, base, k - base);
    }
    OccursShift(next, end, base, |glue|);
    assert next[base..][|glue|..|glue| + |end|] == end;
  }

  /** Splicing a section between a start and an end marker into the place of a span
      that starts at the first start marker keeps that start first, and makes the
      spliced end marker the first one after it. */
  lemma SpliceFacts(content: string, start: string, end: string, section: string, i: nat, j: nat, next: string)
    requires end != [] && '\n' !in end && !Contains(section, end)
    requires OccursAt(content, start, i) && i + |start| <= j && j + |end| <= |content|
    requires forall k :: 0 <= k < i ==> !OccursAt(content, start, k)
    requires next == content[..i] + (start + "\n" + section + "\n" + end) + content[j + |end|..]
    ensures i + |start| + |section| + 2 + |end| <= |next|
    ensures OccursAt(next, start, i) && OccursAt(next, end, i + |start| + |section| + 2)
    ensures forall k :: 0 <= k < i ==> !OccursAt(next, start, k)
    ensures forall k :: i + |start| <= k < i + |start| + |section| + 2 ==> !OccursAt(next, end, k)
    ensures next[..i] == content[..i]
    ensures next[i + |start| + |section| + 2 + |end|..] == content[j + |end|..]
  {
    var suffix := content[j + |end|..];
    var base := i + |start|;
    SpliceParts(content[..i], start, "\n", section, "\n", end, suffix);
    assert content[..base] == content[..i] + content[i..base];
    SamePrefixOccurrences(content, next, start, base, i);
    GlueThenEnd(end, next, base, section, suffix);
    assert next[i..base] == next[..base][i..];
  }

  /** The first span is pinned down by its four defining facts. */
  lemma FirstSpanAt(t: string, start: string, end: string, i: nat, q: nat)
    requires OccursAt(t, start, i) && OccursAt(t, end, q) && i + |start| <= q
    requires forall k :: 0 <= k < i ==> !OccursAt(t, start, k)
    requires forall k :: i + |start| <= k < q ==> !OccursAt(t, end, k)
    ensures FirstSpan(t, start, end) == Some((i, q))
  {
    assert HasSpan(t, start, end);
    var (i2, q2) := FirstSpan(t, start, end).value;
    assert !(i2 < i) && !(i < i2);
    assert !(q2 < q) && !(q < q2);
  }

  /** Splicing a section on lines of its own between `start` and `end` into the place
      of the first span gives a text whose first span is the spliced one, with the
      same text around it. */
  lemma SpliceStable(content: string, start: string, end: string, section: string, i: nat, j: nat, next: string, q: nat)
    requires FirstSpan(content, start, end) == Some((i, j))
    requires end != [] && '\n' !in end && !Contains(section, end)
    requires next == content[..i] + (start + "\n" + section + "\n" + end) + content[j + |end|..]
    requires q == i + |start| + |section| + 2
    ensures q + |end| <= |next|
    ensures FirstSpan(next, start, end) == Some((i, q))
    ensures next[..i] == content[..i]
    ensures next[q + |end|..] == content[j + |end|..]
  {
    SpliceFacts(content, start, end, section, i, j, next);
    FirstSpanAt(next, start, end, i, q);
  }

  /** Running the update again with the same section finds the span it wrote and
      rewrites it with the same text: the plan is stable, as long as the section does
      not itself hold the end marker. */
  lemma UpdatePlanStable(content: string, section: string)
    requires UpdatePlan(content, section).Ok?
    requires !Contains(section, PlanEnd)
    ensures UpdatePlan(UpdatePlan(content, section).value, section) == UpdatePlan(content, section)
  {
    var (i, j) := MarkerSpan(content).value;
    var next := UpdatePlan(content, section).value;
    var q := i + |PlanStart| + |section| + 2;
    MarkerShape();
    SpliceStable(content, PlanStart, PlanEnd, section, i, j, next, q);
    assert UpdatePlan(next, section) == Ok(next[..i] + Replacement(section) + next[q + |PlanEnd|..]);
  }

  /** The pieces of a text spliced around a replacement. */
  lemma SpliceParts<T>(pre: seq<T>, s: seq<T>, a: seq<T>, x: seq<T>, b: seq<T>, e: seq<T>, post: seq<T>)
    ensures var t := pre + (s + a + x + b + e) + post;
      && |t| == |pre| + |s| + |a| + |x| + |b| + |e| + |post|
      && t[..|pre|] == pre
      && t[..|pre| + |s|] == pre + s
      && t[|pre| + |s|..] == a + x + b + e + post
      && t[|pre| + |s| + |a| + |x| + |b| + |e|..] == post
  {
  }

  // ---------------------------------------------------------------- the replacement as a template

  const BadEscape := "bad escape"

  /** The one-character escapes `re.sub` expands in a replacement template. */
  function TemplateEscape(c: char): Option<char> {
    if c == 'a' then Some(7 as char)
    else if c == 'b' then Some(8 as char)
    else if c == 'f' then Some(12 as char)
    else if c == 'n' then Some('\n')
    else if c == 'r' then Some('\r')
    else if c == 't' then Some('\t')
    else if c == 'v' then Some(11 as char)
    else if c == '\\' then Some('\\')
    else None
  }

  const BadGroup := "invalid group reference"
  const OctalRange := "octal escape value outside of range 0-0o377"

  predicate AsciiLetter(c: char) {
    'a' <= c <= 'z' || 'A' <= c <= 'Z'
  }

  predicate IsOctal(c: char) {
    '0' <= c <= '7'
  }

  function OctalValue(c: char): nat
    requires IsOctal(c)
  {
    (c as int) - ('0' as int)
  }

  /** A character read from an escape, and how many template characters it took. */
  datatype Decoded = Decoded(code: char, width: nat)

  /** A backslash followed by a digit, at the head of `t`. With no groups in the pattern,
      `\0` and up to two more octal digits, or three octal digits, are the character with
      that code (above 0o377 is an error); any other digit is a reference to a group the
      pattern does not have. */
  function DigitEscape(t: string): (r: Result<Decoded, Failure>)
    requires |t| >= 2 && t[0] == '\\' && '0' <= t[1] <= '9'
    ensures r.Ok? ==> 2 <= r.value.width <= |t|
  {
    if t[1] == '0' then
      if |t| > 2 && IsOctal(t[2]) then
        if |t| > 3 && IsOctal(t[3]) then Ok(Decoded((8 * OctalValue(t[2]) + OctalValue(t[3])) as char, 4))
        else Ok(Decoded(OctalValue(t[2]) as char, 3))
      else Ok(Decoded(0 as char, 2))
    else if |t| >= 4 && IsOctal(t[1]) && IsOctal(t[2]) && IsOctal(t[3]) then
      var v := 64 * OctalValue(t[1]) + 8 * OctalValue(t[2]) + OctalValue(t[3]);
      if v > 0xff then Err(RegexError(OctalRange)) else Ok(Decoded(v as char, 4))
    else Err(RegexError(BadGroup))
  }

  function PrependOk(p: string, r: Result<string, Failure>): Result<string, Failure> {
    if r.Ok? then Ok(p + r.value) else r
  }

  /** How `re.sub` reads a string replacement when the pattern has no groups: known
      one-letter escapes become their character, a backslash before a digit is read by
      `DigitEscape`, a backslash before another ASCII letter (or at the very end) is an
      error, and any other backslash stays with the character after it. */
  function ExpandTemplate(t: string): Result<string, Failure>
    decreases |t|
  {
    if t == [] then Ok([])
    else if t[0] != '\\' then PrependOk([t[0]], ExpandTemplate(t[1..]))
    else if |t| == 1 then Err(RegexError(BadEscape))
    else if TemplateEscape(t[1]).Some? then PrependOk([TemplateEscape(t[1]).value], ExpandTemplate(t[2..]))
    else if '0' <= t[1] <= '9' then
      match DigitEscape(t)
      case Err(e) => Err(e)
      case Ok(d) => PrependOk([d.code], ExpandTemplate(t[d.width..]))
    else if AsciiLetter(t[1]) then Err(RegexError(BadEscape))
    else PrependOk(t[..2], ExpandTemplate(t[2..]))
  }

  lemma DigitNotEscape(d: char)
    requires '0' <= d <= '9'
    ensures TemplateEscape(d).None?
  {
  }

  /** `\0` not followed by an octal digit is the NUL character. */
  lemma NulEscape(t: string)
    requires t == [] || !IsOctal(t[0])
    ensures ExpandTemplate("\\0" + t) == PrependOk([0 as char], ExpandTemplate(t))
  {
    var s := "\\0" + t;
    DigitNotEscape('0');
    assert s[1] == '0' && s[2..] == t;
  }

  /** Three octal digits after a backslash are one character, up to 0o377. */
  lemma OctalEscape(a: char, b: char, c: char, t: string)
    requires IsOctal(a) && IsOctal(b) && IsOctal(c) && a != '0'
    ensures var v := 64 * OctalValue(a) + 8 * OctalValue(b) + OctalValue(c);
      && (v <= 0xff ==> ExpandTemplate(['\\', a, b, c] + t) == PrependOk([v as char], ExpandTemplate(t)))
      && (v > 0xff ==> ExpandTemplate(['\\', a, b, c] + t) == Err(RegexError(OctalRange)))
  {
    var s := ['\\', a, b, c] + t;
    DigitNotEscape(a);
    assert s[1] == a && s[2] == b && s[3] == c && s[4..] == t;
  }

  /** Any other backslash before a digit from 1 to 9 names a group the pattern does not
      have, and the substitution fails. */
  lemma GroupReferenceFails(t: string)
    requires |t| >= 2 && t[0] == '\\' && '1' <= t[1] <= '9'
    requires !(|t| >= 4 && IsOctal(t[1]) && IsOctal(t[2]) && IsOctal(t[3]))
    ensures ExpandTemplate(t) == Err(RegexError(BadGroup))
  {
    DigitNotEscape(t[1]);
    assert DigitEscape(t) == Err(RegexError(BadGroup));
  }

  /** `update_plan` as written: the replacement goes through `re.sub` as a template. */
  function UpdatePlanAsWritten(content: string, section: string): Result<string, Failure> {
    match MarkerSpan(content)
    case None => Err(RuntimeError(MissingMarkers))
    case Some((i, j)) =>
      match ExpandTemplate(Replacement(section))
      case Err(e) => Err(e)
      case Ok(rep) => Ok(content[..i] + rep + content[j + |PlanEnd|..])
  }

  /** Text without backslashes passes through the template unchanged. */
  lemma {:induction false} ExpandPlain(t: string)
    requires '\\' !in t
    ensures ExpandTemplate(t) == Ok(t)
    decreases |t|
  {
    if t != [] {
      ExpandPlain(t[1..]);
      assert [t[0]] + t[1..] == t;
    }
  }

  /** A prefix without backslashes passes through the template unchanged. */
  lemma {:induction false} ExpandPlainPrefix(a: string, t: string)
    requires '\\' !in a
    ensures ExpandTemplate(a + t) == PrependOk(a, ExpandTemplate(t))
    decreases |a|
  {
    if a != [] {
      assert (a + t)[1..] == a[1..] + t;
      ExpandPlainPrefix(a[1..], t);
      var r := ExpandTemplate(t);
      if r.Ok? {
        assert [a[0]] + (a[1..] + r.value) == a + r.value;
      }
    } else {
      assert a + t == t;
      var r := ExpandTemplate(t);
      if r.Ok? {
        assert a + r.value == r.value;
      }
    }
  }

  /** The replacement split after the start marker's line. */
  lemma ReplacementSplit(section: string)
    ensures Replacement(section) == (PlanStart + "\n") + (section + ("\n" + PlanEnd))
  {
  }

  /** Without a backslash in the section the template reading is harmless: the update
      as written and the literal update agree. */
  lemma AsWrittenAgreesWithoutBackslash(content: string, section: string)
    requires '\\' !in section
    ensures UpdatePlanAsWritten(content, section) == UpdatePlan(content, section)
  {
    MarkerShape();
    var r := Replacement(section);
    ReplacementSplit(section);
    assert '\\' !in PlanStart + "\n" && '\\' !in section + ("\n" + PlanEnd);
    ExpandPlain(r);
  }

  /** One `\n` between two texts without backslashes becomes a line break. */
  lemma ExpandOneEscape(a: string, b: string)
    requires '\\' !in a && '\\' !in b
    ensures ExpandTemplate(a + ("\\n" + b)) == Ok(a + ("\n" + b))
  {
    var t := "\\n" + b;
    ExpandPlainPrefix(a, t);
    assert t[0] == '\\' && t[1] == 'n' && t[2..] == b;
    ExpandPlain(b);
  }

  /** A section holding the two characters `\n` (a Windows path in a summary, say)
      gets a line break in their place. */
  lemma AsWrittenRewritesBackslash(content: string)
    requires HasMarkedSpan(content)
    ensures UpdatePlanAsWritten(content, "C:\\new").Ok?
    ensures UpdatePlanAsWritten(content, "C:\\new") != UpdatePlan(content, "C:\\new")
  {
    MarkerShape();
    var rest := "\n" + PlanEnd;
    var a := PlanStart + "\n" + "C:";
    ReplacementSplit("C:\\new");
    assert "C:\\new" == "C:" + "\\n" + "ew";
    Regroup(PlanStart + "\n", "C:", "\\n", "ew", rest);
    assert '\\' !in a && '\\' !in "ew" + rest;
    ExpandOneEscape(a, "ew" + rest);
    var (i, j) := MarkerSpan(content).value;
    var suffix := content[j + |PlanEnd|..];
    assert |UpdatePlanAsWritten(content, "C:\\new").value| == i + |a| + 1 + |"ew" + rest| + |suffix|;
  }

  /** Regrouping a concatenation of five pieces around the middle one. */
  lemma Regroup<T>(p: seq<T>, x: seq<T>, y: seq<T>, z: seq<T>, rest: seq<T>)
    ensures p + (x + y + z + rest) == (p + x) + (y + (z + rest))
  {
  }

  /** A section holding `\d` (a regular expression quoted in a summary, say) makes the
      update fail although the plan has its markers. */
  lemma AsWrittenRejectsEscape(content: string)
    requires HasMarkedSpan(content)
    ensures UpdatePlanAsWritten(content, "\\d").Err?
    ensures UpdatePlan(content, "\\d").Ok?
  {
    MarkerShape();
    var t := "\\d" + ("\n" + PlanEnd);
    ReplacementSplit("\\d");
    assert '\\' !in PlanStart + "\n";
    ExpandPlainPrefix(PlanStart + "\n", t);
    assert t[0] == '\\' && t[1] == 'd';
    assert ExpandTemplate(t).Err?;
    assert ExpandTemplate(Replacement("\\d")).Err?;
  }

  // ---------------------------------------------------------------- export_to_docx

  const EmptyParagraph := "<w:p/>"

  predicate IsHash(c: char) {
    c == '#'
  }

  /** `re.sub(r"^#+\s*", "", line)`: a leading run of "#" and the white space after it
      are dropped; a line that does not start with "#" is kept. */
  function DropHeading(s: string): string {
    if s != [] && s[0] == '#' then TrimStart(TrimStart(s, IsHash), IsSpace) else s
  }

  /** `replace("* ", "• ")`, then `replace("- ", "• ")`. */
  function Bullets(s: string): string {
    ReplaceAll(ReplaceAll(s, "* ", "• "), "- ", "• ")
  }

  /** `html.escape` of one character, quotes included. */
  function HtmlEscapeChar(c: char): string {
    if c == '&' then "&amp;"
    else if c == '<' then "&lt;"
    else if c == '>' then "&gt;"
    else if c == '"' then "&quot;"
    else if c == '\'' then "&#x27;"
    else [c]
  }

  /** `html.escape(s)`: "&" is replaced first, so no entity it writes is escaped again,
      and it acts character by character. */
  function HtmlEscape(s: string): string
    decreases |s|
  {
    if s == [] then [] else HtmlEscapeChar(s[0]) + HtmlEscape(s[1..])
  }

  /** The five entities `HtmlEscape` writes, back to their characters. */
  function HtmlUnescape(t: string): string
    decreases |t|
  {
    if t == [] then []
    else if IsPrefix("&amp;", t) then "&" + HtmlUnescape(t[5..])
    else if IsPrefix("&lt;", t) then "<" + HtmlUnescape(t[4..])
    else if IsPrefix("&gt;", t) then ">" + HtmlUnescape(t[4..])
    else if IsPrefix("&quot;", t) then "\"" + HtmlUnescape(t[6..])
    else if IsPrefix("&#x27;", t) then "'" + HtmlUnescape(t[6..])
    else [t[0]] + HtmlUnescape(t[1..])
  }

  /** The paragraph element one Markdown line becomes: an empty paragraph for a line
      that is blank once trailing white space is gone, otherwise one run holding the
      line without its heading marks, with bullets, escaped. */
  function DocxParagraph(line: string): string {
    var stripped := RStrip(line);
    if stripped == [] then EmptyParagraph
    else Summarizer.ParagraphOpen + HtmlEscape(Bullets(DropHeading(stripped))) + Summarizer.ParagraphClose
  }

  const DocumentHead := "<?xml version=\"1.0\" encoding=\"UTF-8\" standalone=\"yes\"?>\n"
    + "<w:document xmlns:w=\"http://schemas.openxmlformats.org/wordprocessingml/2006/main\">\n"
    + "  <w:body>\n    "
  const DocumentTail := "\n    <w:sectPr>\n"
    + "      <w:pgSz w:w=\"11906\" w:h=\"16838\"/>\n"
    + "      <w:pgMar w:top=\"1440\" w:right=\"1440\" w:bottom=\"1440\" w:left=\"1440\"/>\n"
    + "    </w:sectPr>\n  </w:body>\n</w:document>\n"

  /** `word/document.xml` of the export. */
  function ExportDocument(paragraphs: seq<string>): string {
    DocumentHead + Join("\n    ", paragraphs) + DocumentTail
  }

  /** `export_to_docx` up to the archive it writes: nothing in a dry run, otherwise
      the document text with one paragraph per line of the Markdown. */
  method ExportToDocx(markdown: string, dryRun: bool) returns (document: Option<string>)
    ensures document.None? <==> dryRun
    ensures !dryRun ==> document == Some(ExportDocument(Map(SplitLines(markdown), DocxParagraph)))
  {
    if dryRun {
      return None;
    }
    var lines := SplitLines(markdown);
    var paragraphs: seq<string> := [];
    var i := 0;
    while i < |lines|
      invariant 0 <= i <= |lines|
      invariant paragraphs == Map(lines[..i], DocxParagraph)
    {
      MapSnoc(lines, DocxParagraph, i);
      var stripped := RStrip(lines[i]);
      if stripped == [] {
        paragraphs := paragraphs + [EmptyParagraph];
      } else {
        var plain := DropHeading(stripped);
        plain := Bullets(plain);
        plain := HtmlEscape(plain);
        paragraphs := paragraphs + [Summarizer.ParagraphOpen + plain + Summarizer.ParagraphClose];
      }
      i := i + 1;
    }
    assert lines[..i] == lines;
    document := Some(ExportDocument(paragraphs));
  }

  /** From a line that starts with "#" what goes is the maximal run of "#" at its start
      and the white space after it; what stays is the rest of the line and does not
      start with white space. */
  lemma DropHeadingCuts(s: string)
    requires s != [] && s[0] == '#'
    ensures IsSuffix(DropHeading(s), s)
    ensures HeadingCut(s, |s| - |TrimStart(s, IsHash)|, |s| - |DropHeading(s)|)
    ensures DropHeading(s) != [] ==> !IsSpace(DropHeading(s)[0])
  {
    TrimStartTwice(s, IsHash, IsSpace, TrimStart(s, IsHash), DropHeading(s));
    assert IsHash(s[0]);
  }

  /** The first `cut` characters of `s` are a maximal non-empty run of "#", its first
      `k`, and white space. */
  predicate HeadingCut(s: string, k: int, cut: int) {
    && 0 < k <= cut <= |s|
    && (forall i :: 0 <= i < k ==> IsHash(s[i]))
    && (k < |s| ==> !IsHash(s[k]))
    && (forall i :: k <= i < cut ==> IsSpace(s[i]))
  }

  /** After the bullet rewrite no "* " and no "- " is left. */
  lemma BulletsSpec(s: string)
    ensures LacksPair(Bullets(s), '*', ' ') && LacksPair(Bullets(s), '-', ' ')
  {
    var bullet := "• ";
    assert bullet[0] == '•' && bullet[1] == ' ' && |bullet| == 2;
    assert LacksPair(bullet, '*', ' ') && LacksPair(bullet, '-', ' ');
    assert "* " == ['*', ' '] && "- " == ['-', ' '];
    var t := ReplaceAll(s, "* ", bullet);
    ReplaceLacksPair(s, "* ", bullet, '*', ' ');
    ReplaceLacksPair(t, "- ", bullet, '*', ' ');
    ReplaceLacksPair(t, "- ", bullet, '-', ' ');
  }

  /** Escaped text holds no markup brackets and no quotes. */
  lemma {:induction false} HtmlEscapeClean(s: string)
    ensures '<' !in HtmlEscape(s) && '>' !in HtmlEscape(s)
    ensures '"' !in HtmlEscape(s) && '\'' !in HtmlEscape(s)
    decreases |s|
  {
    if s != [] {
      HtmlEscapeClean(s[1..]);
      HtmlEscapeCharClean(s[0]);
    }
  }

  lemma HtmlEscapeCharClean(c: char)
    ensures '<' !in HtmlEscapeChar(c) && '>' !in HtmlEscapeChar(c)
    ensures '"' !in HtmlEscapeChar(c) && '\'' !in HtmlEscapeChar(c)
  {
  }

  lemma HtmlUnescapeAmp(rest: string)
    ensures HtmlUnescape("&amp;" + rest) == "&" + HtmlUnescape(rest)
  {
    var t := "&amp;" + rest;
    assert IsPrefix("&amp;", t) && t[5..] == rest;
  }

  lemma HtmlUnescapeLt(rest: string)
    ensures HtmlUnescape("&lt;" + rest) == "<" + HtmlUnescape(rest)
  {
    var t := "&lt;" + rest;
    assert t[1] == 'l' && !IsPrefix("&amp;", t);
    assert IsPrefix("&lt;", t) && t[4..] == rest;
  }

  lemma HtmlUnescapeGt(rest: string)
    ensures HtmlUnescape("&gt;" + rest) == ">" + HtmlUnescape(rest)
  {
    var t := "&gt;" + rest;
    assert t[1] == 'g' && !IsPrefix("&amp;", t) && !IsPrefix("&lt;", t);
    assert IsPrefix("&gt;", t) && t[4..] == rest;
  }

  lemma HtmlUnescapeQuot(rest: string)
    ensures HtmlUnescape("&quot;" + rest) == "\"" + HtmlUnescape(rest)
  {
    var t := "&quot;" + rest;
    assert t[1] == 'q' && !IsPrefix("&amp;", t) && !IsPrefix("&lt;", t) && !IsPrefix("&gt;", t);
    assert IsPrefix("&quot;", t) && t[6..] == rest;
  }

  lemma HtmlUnescapeApos(rest: string)
    ensures HtmlUnescape("&#x27;" + rest) == "'" + HtmlUnescape(rest)
  {
    var t := "&#x27;" + rest;
    assert t[1] == '#' && !IsPrefix("&amp;", t) && !IsPrefix("&lt;", t);
    assert !IsPrefix("&gt;", t) && !IsPrefix("&quot;", t);
    assert IsPrefix("&#x27;", t) && t[6..] == rest;
  }

  lemma HtmlUnescapePlain(c: char, rest: string)
    requires c != '&'
    ensures HtmlUnescape([c] + rest) == [c] + HtmlUnescape(rest)
  {
    var t := [c] + rest;
    assert t[0] == c && t[1..] == rest;
    assert !IsPrefix("&amp;", t) && !IsPrefix("&lt;", t) && !IsPrefix("&gt;", t);
    assert !IsPrefix("&quot;", t) && !IsPrefix("&#x27;", t);
  }

  /** Reading back one escaped character gives that character. */
  lemma HtmlUnescapeAfterChar(c: char, rest: string)
    ensures HtmlUnescape(HtmlEscapeChar(c) + rest) == [c] + HtmlUnescape(rest)
  {
    if c == '&' {
      HtmlUnescapeAmp(rest);
    } else if c == '<' {
      HtmlUnescapeLt(rest);
    } else if c == '>' {
      HtmlUnescapeGt(rest);
    } else if c == '"' {
      HtmlUnescapeQuot(rest);
    } else if c == '\'' {
      HtmlUnescapeApos(rest);
    } else {
      HtmlUnescapePlain(c, rest);
    }
  }

  /** Unescaping undoes the escape. */
  lemma {:induction false} HtmlEscapeRoundTrip(s: string)
    ensures HtmlUnescape(HtmlEscape(s)) == s
    decreases |s|
  {
    if s != [] {
      HtmlEscapeRoundTrip(s[1..]);
      HtmlUnescapeAfterChar(s[0], HtmlEscape(s[1..]));
      assert s == [s[0]] + s[1..];
    }
  }

  /** Read the text back out of an exported paragraph element. */
  function ExportedText(x: string): Option<string> {
    if x == EmptyParagraph then Some("")
    else if IsPrefix(Summarizer.ParagraphOpen, x) && IsSuffix(Summarizer.ParagraphClose, x)
            && |Summarizer.ParagraphOpen| + |Summarizer.ParagraphClose| <= |x|
    then Some(HtmlUnescape(x[|Summarizer.ParagraphOpen|..|x| - |Summarizer.ParagraphClose|]))
    else None
  }

  /** A blank line becomes the empty paragraph and any other line a run whose text
      reads back as the line without trailing white space and heading marks, with
      bullets; that text holds no markup brackets or quotes once escaped. */
  lemma DocxParagraphSpec(line: string)
    ensures DocxParagraph(line) == EmptyParagraph <==> RStrip(line) == []
    ensures RStrip(line) != [] ==>
      ExportedText(DocxParagraph(line)) == Some(Bullets(DropHeading(RStrip(line))))
  {
    var stripped := RStrip(line);
    if stripped != [] {
      var x := DocxParagraph(line);
      var plain := Bullets(DropHeading(stripped));
      var e := HtmlEscape(plain);
      var o, c := Summarizer.ParagraphOpen, Summarizer.ParagraphClose;
      assert |o| + |c| > |EmptyParagraph|;
      assert x[..|o|] == o;
      assert x[|x| - |c|..] == c;
      assert x[|o|..|x| - |c|] == e;
      HtmlEscapeRoundTrip(plain);
    }
  }
}
