/** `tools/sci_citation_crawler.py`: file names and extensions for downloads, the tag
    stripping of abstracts, the cache loader, the Markdown and CSV tables, the year
    window and cache filter of `main`, and the retrieval mode chosen per article. */
module CitationCrawler {
  import opened Wrappers
  import opened Text
  import opened Collections
  import opened Sorting

  /** `Article`: Crossref metadata of one article. Its `fulltext_links` only feed the
      download, whose outcome is an input of this model. */
  datatype Article = Article(
    title: string,
    doi: string,
    year: Option<int>,
    journal: string,
    citationCount: int,
    authors: string,
    rawAbstract: Option<string>)

  // ---------------------------------------------------------------- sanitise_filename

  /** The class `[a-zA-Z0-9._-]`. */
  predicate FilenameChar(c: char) {
    'a' <= c <= 'z' || 'A' <= c <= 'Z' || '0' <= c <= '9' || c == '.' || c == '_' || c == '-'
  }

  function SafeChar(c: char): char {
    if FilenameChar(c) then c else '_'
  }

  const MaxStemLength := 200

  /** `sanitise_filename`: "article" for an empty value; otherwise every character
      outside the class becomes "_", one for one, and the stem is cut to 200. */
  function SanitiseFilename(value: string): (r: string)
    ensures r != []
    ensures forall i :: 0 <= i < |r| ==> FilenameChar(r[i])
    ensures value == [] ==> r == "article"
    ensures value != [] ==> |r| == (if |value| < MaxStemLength then |value| else MaxStemLength)
    ensures value != [] ==> forall i :: 0 <= i < |r| ==> r[i] == SafeChar(value[i])
  {
    if value == [] then "article"
    else
      var stem := seq(|value|, i requires 0 <= i < |value| => SafeChar(value[i]));
      SliceTo(stem, MaxStemLength)
  }

  /** A name that is already safe and short enough is kept as it is. */
  lemma SanitiseKeepsSafeNames(value: string)
    requires value != [] && |value| <= MaxStemLength
    requires forall i :: 0 <= i < |value| ==> FilenameChar(value[i])
    ensures SanitiseFilename(value) == value
  {
  }

  /** Sanitising twice is sanitising once. */
  lemma SanitiseIdempotent(value: string)
    ensures SanitiseFilename(SanitiseFilename(value)) == SanitiseFilename(value)
  {
    SanitiseKeepsSafeNames(SanitiseFilename(value));
  }

  // ---------------------------------------------------------------- guess_extension

  /** The explicit branches of `guess_extension`, checked in priority order on the
      lower-cased content type and URL; `None` where the source falls back on
      `mimetypes`. */
  function GuessExtension(contentType: string, url: string): Option<string> {
    var ct, u := Lower(contentType), Lower(url);
    if Contains(ct, "pdf") || IsSuffix(".pdf", u) then Some(".pdf")
    else if Contains(ct, "msword") || IsSuffix(".doc", u) then Some(".doc")
    else if Contains(ct, "wordprocessingml") || IsSuffix(".docx", u) then Some(".docx")
    else if Contains(ct, "html") || IsSuffix(".html", u) || IsSuffix(".htm", u) then Some(".html")
    else None
  }

  /** Letter case in the content type or the URL does not change the extension. */
  lemma GuessExtensionCaseInsensitive(contentType: string, url: string)
    ensures GuessExtension(Lower(contentType), Lower(url)) == GuessExtension(contentType, url)
  {
    LowerIdempotent(contentType);
    LowerIdempotent(url);
  }

  /** A PDF content type wins over anything the URL says. */
  lemma PdfContentTypeFirst(contentType: string, url: string)
    requires Contains(Lower(contentType), "pdf")
    ensures GuessExtension(contentType, url) == Some(".pdf")
  {
  }

  /** Without a hint in the content type, a URL ending in ".docx" gives ".docx", not
      the ".doc" that is checked before it. */
  lemma DocxUrl(contentType: string, url: string)
    requires !Contains(Lower(contentType), "pdf") && !Contains(Lower(contentType), "msword")
    requires IsSuffix(".docx", Lower(url))
    ensures GuessExtension(contentType, url) == Some(".docx")
  {
    var u := Lower(url);
    assert u[|u| - 1] == 'x';
  }

  // ---------------------------------------------------------------- strip_html_tags

  /** `strip_html_tags` without `html.unescape`: each tag becomes a space, each run of
      whitespace one space, and the ends are stripped. */
  function StripHtmlTags(value: string): string {
    if value == [] then "" else Strip(CollapseRuns(RemoveTags(value, " "), IsSpace, " "))
  }

  /** The text `strip_html_tags` returns has no whitespace at either end and no two
      whitespace characters in a row. */
  lemma StripHtmlTagsTidy(value: string)
    ensures Tidy(StripHtmlTags(value), IsSpace)
  {
    if value != [] {
      var c := CollapseRuns(RemoveTags(value, " "), IsSpace, " ");
      CollapseRunsSingle(RemoveTags(value, " "), IsSpace, ' ');
      TrimTidy(c, IsSpace);
    }
  }

  /** `get_abstract_text`: nothing for a missing or empty abstract. */
  function AbstractText(a: Article): Option<string> {
    if a.rawAbstract.None? || a.rawAbstract.value == "" then None else Some(StripHtmlTags(a.rawAbstract.value))
  }

  /** The abstract text is truthy. */
  predicate HasAbstract(a: Article) {
    AbstractText(a).Some? && AbstractText(a).value != ""
  }

  // ---------------------------------------------------------------- the cache

  /** One entry of the JSON cache, each key possibly absent (a JSON `null` reads as
      absent for `year` and `abstract`). */
  datatype CacheItem = CacheItem(
    title: Option<string>,
    doi: Option<string>,
    year: Option<int>,
    journal: Option<string>,
    citationCount: Option<int>,
    authors: Option<string>,
    rawAbstract: Option<string>)

  /** The `Article` that `load_cached_articles` builds from one entry. */
  function ArticleFromCache(item: CacheItem): Article {
    Article(
      item.title.GetOr("Unnamed Article"),
      item.doi.GetOr(""),
      item.year,
      item.journal.GetOr("Unknown Journal"),
      item.citationCount.GetOr(0),
      item.authors.GetOr(""),
      item.rawAbstract)
  }

  /** The entry `dump_articles_to_cache` writes for an article. */
  function CacheEntry(a: Article): CacheItem {
    CacheItem(Some(a.title), Some(a.doi), a.year, Some(a.journal), Some(a.citationCount),
      Some(a.authors), a.rawAbstract)
  }

  /** What the crawler writes to its cache it reads back unchanged. */
  lemma CacheRoundTrip(a: Article)
    ensures ArticleFromCache(CacheEntry(a)) == a
  {
  }

  /** Missing keys take their defaults. */
  lemma CacheDefaults()
    ensures var a := ArticleFromCache(CacheItem(None, None, None, None, None, None, None));
      a == Article("Unnamed Article", "", None, "Unknown Journal", 0, "", None)
  {
  }

  /** `sorted(..., key=citation_count, reverse=True)`: more citations first. */
  predicate MoreCited(a: Article, b: Article) {
    a.citationCount >= b.citationCount
  }

  lemma MoreCitedTotalPreorder()
    ensures TotalPreorder(MoreCited)
  {
  }

  /** The articles of the cache in citation order. */
  function CachedArticles(raw: seq<CacheItem>): seq<Article> {
    SortBy(Map(raw, ArticleFromCache), MoreCited)
  }

  /** `load_cached_articles` on the parsed cache. */
  method LoadCachedArticles(raw: seq<CacheItem>) returns (articles: seq<Article>)
    ensures articles == CachedArticles(raw)
    ensures multiset(articles) == multiset(Map(raw, ArticleFromCache))
    ensures forall i, j :: 0 <= i < j < |articles| ==> articles[i].citationCount >= articles[j].citationCount
  {
    var loaded: seq<Article> := [];
    var i := 0;
    while i < |raw|
      invariant 0 <= i <= |raw|
      invariant loaded == Map(raw[..i], ArticleFromCache)
    {
      MapSnoc(raw, ArticleFromCache, i);
      loaded := loaded + [ArticleFromCache(raw[i])];
      i := i + 1;
    }
    assert raw[..i] == raw;
    articles := SortBy(loaded, MoreCited);
    MoreCitedTotalPreorder();
    SortBySpec(loaded, MoreCited);
  }

  /** Articles with equal citation counts keep their cache order. */
  lemma CachedArticlesStable(raw: seq<CacheItem>, y: Article)
    ensures EquivTo(CachedArticles(raw), y, MoreCited) == EquivTo(Map(raw, ArticleFromCache), y, MoreCited)
  {
    MoreCitedTotalPreorder();
    SortByStable(Map(raw, ArticleFromCache), y, MoreCited);
  }

  // ---------------------------------------------------------------- to_markdown

  const MarkdownHeader := "| 标题 | 期刊 | 年份 | 引用次数 | DOI | 作者 |\n"
  const MarkdownSeparator := "| --- | --- | --- | --- | --- | --- |\n"

  /** A cell with every "|" turned into "／". */
  function NoBar(s: string): string {
    ReplaceAll(s, "|", "／")
  }

  /** `article.year or "-"`: a missing year and the year 0 both read "-". */
  function YearCell(year: Option<int>): string {
    if year.None? || year.value == 0 then "-" else IntToString(year.value)
  }

  function DoiCell(doi: string): string {
    if doi == "" then "-" else "[" + doi + "](https://doi.org/" + doi + ")"
  }

  function MarkdownCells(a: Article): seq<string> {
    [ NoBar(a.title),
      NoBar(a.journal),
      YearCell(a.year),
      IntToString(a.citationCount),
      DoiCell(a.doi),
      NoBar(if a.authors == "" then "-" else a.authors) ]
  }

  function MarkdownRow(a: Article): string {
    "| " + Join(" | ", MarkdownCells(a)) + " |"
  }

  /** `to_markdown`: the header, the separator, then the rows joined by newlines. */
  method ToMarkdown(articles: seq<Article>) returns (text: string)
    ensures text == MarkdownHeader + MarkdownSeparator + Join("\n", Map(articles, MarkdownRow))
  {
    var rows: seq<string> := [];
    var i := 0;
    while i < |articles|
      invariant 0 <= i <= |articles|
      invariant rows == Map(articles[..i], MarkdownRow)
    {
      MapSnoc(articles, MarkdownRow, i);
      rows := rows + [MarkdownRow(articles[i])];
      i := i + 1;
    }
    assert articles[..i] == articles;
    text := MarkdownHeader + MarkdownSeparator + Join("\n", rows);
  }

  /** The title, journal and author cells hold no column bar, and the year cell is "-"
      exactly for a missing or zero year. */
  lemma MarkdownCellsSpec(a: Article)
    ensures var cells := MarkdownCells(a);
      && |cells| == 6
      && '|' !in cells[0] && '|' !in cells[1] && '|' !in cells[5]
      && (cells[2] == "-" <==> a.year.None? || a.year.value == 0)
      && (cells[4] == "-" <==> a.doi == "")
  {
    ReplaceCharRemoves(a.title, '|', "／");
    ReplaceCharRemoves(a.journal, '|', "／");
    ReplaceCharRemoves(if a.authors == "" then "-" else a.authors, '|', "／");
    if a.year.Some? {
      IntToStringNotDash(a.year.value);
    }
  }

  /** Text without line breaks stays without them once its bars are replaced. */
  lemma NoBarKeepsLines(s: string)
    requires '\n' !in s
    ensures '\n' !in NoBar(s)
  {
    ReplaceKeepsAbsent(s, "|", "／", '\n');
  }

  /** With no line break in the article fields, every row is one line. */
  lemma MarkdownRowOneLine(a: Article)
    requires '\n' !in a.title && '\n' !in a.journal && '\n' !in a.doi && '\n' !in a.authors
    ensures '\n' !in MarkdownRow(a)
  {
    NoBarKeepsLines(a.title);
    NoBarKeepsLines(a.journal);
    NoBarKeepsLines(if a.authors == "" then "-" else a.authors);
    var cells := MarkdownCells(a);
    forall i | 0 <= i < |cells|
      ensures '\n' !in cells[i]
    {
    }
    JoinLacks(" | ", cells, '\n');
  }

  /** With no line break in the article fields, the table body splits back into one
      row per article, in order. */
  lemma MarkdownTableRows(articles: seq<Article>)
    requires articles != []
    requires forall a :: a in articles ==>
               '\n' !in a.title && '\n' !in a.journal && '\n' !in a.doi && '\n' !in a.authors
    ensures var rows := Map(articles, MarkdownRow);
      Split(Join("\n", rows), "\n") == rows && |rows| == |articles|
  {
    var rows := Map(articles, MarkdownRow);
    forall i | 0 <= i < |rows|
      ensures '\n' !in rows[i]
    {
      MarkdownRowOneLine(articles[i]);
    }
    SplitJoinChar(rows, '\n');
  }

  // ---------------------------------------------------------------- to_csv

  /** A value handed to `json.dumps`. */
  datatype JsonValue = JString(s: string) | JInt(n: int) | JNull

  const CsvHeader := "title,journal," + "year,citation_count," + "doi,authors"

  function CsvFields(a: Article): seq<JsonValue> {
    [ JString(a.title),
      JString(a.journal),
      if a.year.Some? then JInt(a.year.value) else JNull,
      JInt(a.citationCount),
      JString(a.doi),
      JString(a.authors) ]
  }

  /** One CSV line: the six fields, each encoded by `dumps`, joined by commas. */
  function CsvLine(a: Article, dumps: JsonValue -> string): string {
    Join(",", Map(CsvFields(a), dumps))
  }

  function CsvLineOf(dumps: JsonValue -> string): Article -> string {
    a => CsvLine(a, dumps)
  }

  /** `to_csv`, with `json.dumps` as the encoder `dumps`. */
  method ToCsv(articles: seq<Article>, dumps: JsonValue -> string) returns (text: string)
    ensures text == Join("\n", [CsvHeader] + Map(articles, CsvLineOf(dumps)))
  {
    var lines := [CsvHeader];
    var i := 0;
    while i < |articles|
      invariant 0 <= i <= |articles|
      invariant lines == [CsvHeader] + Map(articles[..i], CsvLineOf(dumps))
    {
      MapSnoc(articles, CsvLineOf(dumps), i);
      lines := lines + [CsvLine(articles[i], dumps)];
      i := i + 1;
    }
    assert articles[..i] == articles;
    text := Join("\n", lines);
  }

  /** A line of encoded fields is one line. */
  lemma CsvLineOneLine(a: Article, dumps: JsonValue -> string)
    requires forall v :: '\n' !in dumps(v)
    ensures '\n' !in CsvLine(a, dumps)
  {
    JoinLacks(",", Map(CsvFields(a), dumps), '\n');
  }

  lemma CsvHeaderOneLine()
    ensures '\n' !in CsvHeader
  {
    assert '\n' !in "title,journal,";
    assert '\n' !in "year,citation_count,";
    assert '\n' !in "doi,authors";
  }

  /** `json.dumps` escapes line breaks, so the CSV text has the header line and then
      exactly one line per article, each with that article's six fields. */
  lemma CsvOneLinePerArticle(articles: seq<Article>, dumps: JsonValue -> string)
    requires forall v :: '\n' !in dumps(v)
    ensures var lines := Split(Join("\n", [CsvHeader] + Map(articles, CsvLineOf(dumps))), "\n");
      && |lines| == 1 + |articles|
      && lines[0] == CsvHeader
      && forall i :: 0 <= i < |articles| ==> lines[i + 1] == CsvLine(articles[i], dumps)
  {
    var rows := Map(articles, CsvLineOf(dumps));
    var all := [CsvHeader] + rows;
    CsvHeaderOneLine();
    forall i | 0 <= i < |rows|
      ensures '\n' !in rows[i]
    {
      CsvLineOneLine(articles[i], dumps);
    }
    assert forall i :: 0 <= i < |all| ==> '\n' !in all[i] by {
      forall i | 0 <= i < |all|
        ensures '\n' !in all[i]
      {
        if i > 0 {
          assert all[i] == rows[i - 1];
        }
      }
    }
    SplitJoinChar(all, '\n');
    forall i | 0 <= i < |articles|
      ensures all[i + 1] == CsvLine(articles[i], dumps)
    {
      assert all[i + 1] == rows[i];
    }
  }

  // ---------------------------------------------------------------- main

  /** The lower bound of the publication window: `--from-year` when given, otherwise
      the `max(1, recent_years)` years that end with the current one. */
  function FromYear(fromYear: Option<int>, recentYears: int, currentYear: int): (y: int)
    ensures fromYear.Some? ==> y == fromYear.value
    ensures fromYear.None? ==> y <= currentYear
    ensures fromYear.None? ==> currentYear - y + 1 == (if recentYears < 1 then 1 else recentYears)
  {
    if fromYear.Some? then fromYear.value
    else
      var recent := if 1 < recentYears then recentYears else 1;
      currentYear - recent + 1
  }

  /** Kept by the cache filter: no year, or a year inside the window. */
  function InWindow(fromYear: int): Article -> bool {
    (a: Article) => a.year.None? || a.year.value >= fromYear
  }

  /** The cache filter of `main`; a window starting at year 0 is falsy and filters
      nothing. */
  function CacheWindow(articles: seq<Article>, fromYear: int): seq<Article> {
    if fromYear != 0 then Filter(articles, InWindow(fromYear)) else articles
  }

  /** The cache filter keeps exactly the articles without a year or inside the window,
      every copy of them, and keeps the citation order of the loaded cache. */
  lemma CacheWindowSpec(raw: seq<CacheItem>, fromYear: int)
    requires fromYear != 0
    ensures var kept := CacheWindow(CachedArticles(raw), fromYear);
      && (forall a :: multiset(kept)[a] ==
            if a.year.None? || a.year.value >= fromYear then multiset(CachedArticles(raw))[a] else 0)
      && (forall i, j :: 0 <= i < j < |kept| ==> kept[i].citationCount >= kept[j].citationCount)
  {
    var loaded := CachedArticles(raw);
    MoreCitedTotalPreorder();
    SortBySorted(Map(raw, ArticleFromCache), MoreCited);
    FilterSpec(loaded, InWindow(fromYear));
    FilterSorted(loaded, InWindow(fromYear), MoreCited);
  }

  const NoArticlesMessage := "No articles found for the provided query."

  /** The article list of `main`: the filtered cache when one is given, otherwise the
      fetched list (a failed fetch ends the program with its message); an empty list
      ends it too; the rest is cut to `rows`. */
  function SelectArticles(cache: Option<seq<CacheItem>>, fetched: Result<seq<Article>, string>,
                          fromYear: int, rows: int): Result<seq<Article>, string>
  {
    var found :=
      if cache.Some? then Ok(CacheWindow(CachedArticles(cache.value), fromYear)) else fetched;
    if found.Err? then found
    else if found.value == [] then Err(NoArticlesMessage)
    else Ok(SliceTo(found.value, rows))
  }

  /** `main` stops exactly when nothing was found (or the fetch failed); otherwise it
      goes on with at most `rows` articles. */
  lemma SelectArticlesStops(cache: Option<seq<CacheItem>>, fetched: Result<seq<Article>, string>,
                            fromYear: int, rows: int)
    ensures var r := SelectArticles(cache, fetched, fromYear, rows);
      && (cache.Some? ==> (r == Err(NoArticlesMessage) <==> CacheWindow(CachedArticles(cache.value), fromYear) == []))
      && (cache.Some? ==> r.Err? ==> r == Err(NoArticlesMessage))
      && (cache.None? && fetched.Ok? ==> (r == Err(NoArticlesMessage) <==> fetched.value == []))
      && (cache.None? && fetched.Err? ==> r == fetched)
      && (r.Ok? && rows >= 0 ==> |r.value| <= rows)
  {
  }

  /** Articles from the cache all lie inside the window. */
  lemma SelectedInWindow(raw: seq<CacheItem>, fetched: Result<seq<Article>, string>, fromYear: int, rows: int)
    requires fromYear != 0
    ensures var r := SelectArticles(Some(raw), fetched, fromYear, rows);
      r.Ok? ==> forall a :: a in r.value ==> a.year.None? || a.year.value >= fromYear
  {
    var r := SelectArticles(Some(raw), fetched, fromYear, rows);
    var kept := Filter(CachedArticles(raw), InWindow(fromYear));
    FilterSpec(CachedArticles(raw), InWindow(fromYear));
    if r.Ok? {
      assert r.value == SliceTo(kept, rows);
      forall a | a in r.value
        ensures a.year.None? || a.year.value >= fromYear
      {
        var k :| 0 <= k < |r.value| && r.value[k] == a;
        assert a == kept[k];
        assert InWindow(fromYear)(kept[k]);
      }
    }
  }

  // ---------------------------------------------------------------- retrieval mode

  /** The outcome of `download_fulltext`: the saved file, or the error text. */
  datatype Download = Download(path: Option<string>, error: string)

  datatype RetrievalRecord = RetrievalRecord(
    mode: string,
    note: string,
    path: Option<string>,
    abstractText: Option<string>)

  /** The record `main` appends for one article. */
  function Retrieve(a: Article, dryRun: bool, attemptFulltext: bool, download: Download): RetrievalRecord {
    var text := AbstractText(a);
    if dryRun then
      RetrievalRecord(if HasAbstract(a) then "abstract" else "metadata", "Dry-run: skipped downloads.",
        None, if HasAbstract(a) then text else None)
    else if attemptFulltext && download.path.Some? then
      RetrievalRecord("fulltext", "Downloaded full text via Crossref link.", download.path, None)
    else
      var note := if attemptFulltext then download.error else "";
      if HasAbstract(a) then
        RetrievalRecord("abstract", if note != "" then note else "Used Crossref abstract.", None, text)
      else
        RetrievalRecord("metadata", if note != "" then note else "No abstract or accessible full text available.", None, None)
  }

  /** The mode is one of three; full text only from a download actually attempted and
      saved, never in a dry run; the abstract mode exactly when there is no full text
      and the abstract text is non-empty, and only then is the text kept; a failed
      download's error becomes the note. */
  lemma RetrieveSpec(a: Article, dryRun: bool, attemptFulltext: bool, download: Download)
    ensures var r := Retrieve(a, dryRun, attemptFulltext, download);
      && (r.mode == "fulltext" || r.mode == "abstract" || r.mode == "metadata")
      && (r.mode == "fulltext" <==> !dryRun && attemptFulltext && download.path.Some?)
      && (r.mode == "abstract" <==> r.mode != "fulltext" && HasAbstract(a))
      && (r.abstractText.Some? <==> r.mode == "abstract")
      && (r.path.Some? <==> r.mode == "fulltext")
      && (!dryRun && attemptFulltext && download.path.None? && download.error != "" ==> r.note == download.error)
  {
    var r := Retrieve(a, dryRun, attemptFulltext, download);
    assert "fulltext"[0] != "abstract"[0] && "fulltext"[0] != "metadata"[0] && "abstract"[0] != "metadata"[0];
  }

  function RecordOf(dryRun: bool, attemptFulltext: bool, download: Article -> Download)
    : Article -> RetrievalRecord
  {
    a => Retrieve(a, dryRun, attemptFulltext, download(a))
  }

  /** The record loop of `main`: one record per article, in order, each the decision
      for that article; a Word report asks for the full text too. */
  method RetrievalRecords(articles: seq<Article>, dryRun: bool, attemptFulltextFlag: bool,
                          wordOutput: bool, download: Article -> Download)
    returns (records: seq<RetrievalRecord>)
    ensures records == Map(articles, RecordOf(dryRun, attemptFulltextFlag || wordOutput, download))
    ensures |records| == |articles|
    ensures forall i :: 0 <= i < |articles| ==>
              records[i] == Retrieve(articles[i], dryRun, attemptFulltextFlag || wordOutput, download(articles[i]))
  {
    var attemptFulltext := attemptFulltextFlag || wordOutput;
    records := [];
    var i := 0;
    while i < |articles|
      invariant 0 <= i <= |articles|
      invariant records == Map(articles[..i], RecordOf(dryRun, attemptFulltext, download))
    {
      MapSnoc(articles, RecordOf(dryRun, attemptFulltext, download), i);
      var article := articles[i];
      records := records + [Retrieve(article, dryRun, attemptFulltext, download(article))];
      i := i + 1;
    }
    assert articles[..i] == articles;
  }
}
