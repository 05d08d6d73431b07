# Literature retrieval pipeline, modelled in Dafny

This project models the deterministic core of a literature-retrieval toolkit and proves
properties of it. The toolkit has two halves:

- **The `pipeline` package.** It reads a configuration, asks each configured source
  client (PubMed, Google Scholar) for the records of every query, and merges them into
  an aggregate deduplicated by record id, with a raw list per (query, source) pair. It
  writes a history row per pair and Markdown and Word summaries. It then ranks the
  records and writes a multi-round iteration log and a final research plan.
- **Three tools.**
  - `tools/sci_citation_crawler.py` exports Crossref metadata to Markdown and CSV. It
    also filters the cache by year and decides how each article's text was obtained.
  - `tools/literature_pipeline.py` filters recent articles and derives keywords and
    innovation ideas. It renders a plan section, splices it between two markers of a
    plan file, and converts the plan to Word paragraphs.
  - `tools/plan_optimizer.py` parses a search engine's HTML result page. It builds the
    prompt for a language model, writes fixed suggestions when offline, and names the
    output file.

One module per source file:

- `Records`: the record and its id.
- `Config`: the configuration and `iter_sources`.
- `PubMed`, `GoogleScholar` and `Clients`: the source clients.
- `Search`: the runner.
- `Run`: `build_clients` and `execute_pipeline`.
- `Summarizer`, `Iteration`: the summary and planning writers.
- `CitationCrawler`, `LiteraturePipeline`, `PlanOptimizer`: the three tools.

Shared helpers sit in `Text` (Python string operations), `Collections` (sequence
helpers), `Sorting` (Python's stable `sorted`), `Failures` (the exceptions raised)
and `Wrappers` (`Option` and `Result`).

Code that fills lists, sets and dictionaries in loops is modelled as methods with
loops. Each such method is proved equal to a specification function, and the
properties are proved about that function:

- `SearchRunner.run`, `iter_sources` and `build_clients`;
- the history loop;
- the summary line builders and the log and plan builders;
- `filter_recent`, `infer_keywords` and `derive_innovations`;
- `render_iteration_section` and `export_to_docx`;
- `load_cached_articles`, `to_markdown`, `to_csv` and the retrieval-record loop;
- the result parser and the heading extraction.

Pure code (ids, clients, sort keys, file names, the plan splice, the prompt) is
modelled as functions with lemmas.

The `SearchResult` dataclass of `pipeline/search.py` has no `citation_count` field. The
PubMed client passes one, however, and the ranking reads it. The model's record carries
the field with default 0, and the code as written is recorded under Findings.

The order of `filter_recent` is modelled as the code has it. `reverse=True` over the
key `(year, -citation_count)` puts fewer citations first within a year.

## Model

| member | source | states |
|---|---|---|
| Records.UniqueIdShape | pipeline/search.py:29-32 | with a DOI the id is the DOI lower-cased character by character; without one it starts with the lower-cased title and ends with "::" and the source |
| Records.DoiCaseInsensitive | pipeline/search.py:30-31 | two records whose DOIs differ only in letter case have the same id |
| Records.FromStub | pipeline/pubmed.py:32-46 | a missing `title` raises KeyError("title"), then a missing `year` KeyError("year"); otherwise a record with the entry's title and year, the client's source and the given citation count |
| Records.FromStubDefaults | pipeline/pubmed.py:33-45 | an entry with only title and year gets empty strings and lists, access type "unknown" |
| Records.FromStubs | pipeline/pubmed.py:30-46 | the entries convert in order, one record per entry, exactly when every entry has a title and a year; any error is a KeyError |
| Records.FromStubsFirstError | pipeline/pubmed.py:31-46 | a failed conversion reports the error of the first entry that fails |
| PubMed.Search | pipeline/pubmed.py:22-46 | RuntimeError unless offline; no entries for an unknown query name; otherwise one record per stub entry, in order, with source "pubmed", the entry's citations or 0, access type default "unknown" |
| PubMed.SearchAsWritten | pipeline/pubmed.py:32-46 | against the dataclass as declared, no call with a stub entry returns records |
| PubMed.AsWrittenRejectsCompleteEntry | pipeline/search.py:12-27 | a complete stub entry yields a record in the corrected client and a TypeError as written |
| GoogleScholar.Search | pipeline/google_scholar.py:20-43 | RuntimeError unless offline; one record per stub entry, in order, with source "google_scholar" and citation count 0 |
| Clients.ClientSearch | pipeline/search.py:62-68 | a client either fails with RuntimeError or KeyError, or returns records that all carry its own source name |
| Config.QueryFromMapping | pipeline/config.py:42-48 | `name` is required before `keywords` (KeyError); the lists default to empty |
| Config.QueriesFromMapping | pipeline/config.py:41-50 | the queries are built in order, one per item, exactly when every item has name and keywords |
| Config.FromMappingSpec | pipeline/config.py:36-58 | accepted exactly when `output_root` is present and every query is complete; `offline_mode` defaults to false, `iterations` to 1 and is not clamped; missing `queries` gives none |
| Config.BadQueryReportedFirst | pipeline/config.py:41-52 | an incomplete query is reported even when `output_root` is missing too |
| Config.QueriesFromMappingErrors | pipeline/config.py:42-48 | the only errors of the query list are KeyError("name") and KeyError("keywords") |
| Config.AllSourcesMember | pipeline/config.py:60-66 | a source is named exactly when some query lists it |
| Config.IterSources | pipeline/config.py:60-66 | the loop yields the distinct named sources in first-seen order |
| Config.DistinctSourcesSpec | pipeline/config.py:60-66 | every named source comes out, none twice, in the order of first occurrence |
| Search.ExpectedSnoc | pipeline/search.py:53-58 | one record appends to its pair's raw list and reaches the aggregate exactly when its id is new |
| Search.QueryFails | pipeline/search.py:47-52 | a failure inside query `i` is the failure of the whole run |
| Search.QueryDone | pipeline/search.py:47-58 | a successful query extends the records met by its own records |
| Search.SourceFails | pipeline/search.py:48-52 | a missing client or failing call at a source ends the query with that error |
| Search.SourceDone | pipeline/search.py:48-58 | a source with a client whose call succeeds adds its records, filed under (query, source) |
| Search.FileRecord | pipeline/search.py:53-58 | the body of the innermost loop updates the aggregate, the raw lists and the seen ids as the specification of the run says |
| Search.FileRecords | pipeline/search.py:52-58 | the innermost loop files every record of one call |
| Search.RunQuery | pipeline/search.py:48-58 | the middle loop: the run's outcome on a failure, otherwise the state after the query's records |
| Search.Run | pipeline/search.py:42-59 | `run` returns exactly the outcome specified over the records met in query, source and client order, or the first error |
| Search.AggregateFirstSeen | pipeline/search.py:54-58 | no two aggregate records share an id, and the aggregate is the first record of each id in the order met |
| Search.DoiVariantsCollapse | pipeline/search.py:54-58 | no two aggregate records have DOIs that differ only in letter case |
| Search.PerQueryGroups | pipeline/search.py:44-53 | `per_query` has a key exactly for the pairs that yielded a record, and each list holds that pair's records in order |
| Search.AggregateIdsMatchPerQuery | pipeline/search.py:52-58 | the aggregate's ids are the ids of all raw lists, and the aggregate is no longer than the raw total, which equals the records met |
| Search.SourceHitsClients | pipeline/search.py:48-51 | a query succeeds only if each of its sources has a client; with every client present, a failure is a client's own |
| Search.QueryHitsClients | pipeline/search.py:47-51 | the same over a list of queries |
| Search.NoClientErrorIffMissing | pipeline/search.py:47-51 | a run succeeds only if every named source has a client, and with all present it never raises the no-client error |
| Run.ClientFor | pipeline/run.py:21-26 | "pubmed" gives the PubMed client, "google_scholar" the Google Scholar client, and any other name none |
| Run.ClientsForSpec | pipeline/run.py:19-27 | the mapping is built exactly when every source is supported, maps each source to its own client and nothing else, and otherwise fails on the first unsupported source |
| Run.BuildClients | pipeline/run.py:18-27 | the loop over `iter_sources` builds that mapping |
| Run.BuiltClientsCoverSources | pipeline/run.py:41-43 | clients from `build_clients` cover every named source, so the runner never raises its no-client error |
| Run.UnsupportedIsNotNoClient | pipeline/run.py:26 | the unsupported-source error differs from the runner's no-client error |
| Run.ExpectedKeyOrder | pipeline/run.py:45 | the pair order lists each `per_query` key once |
| Run.ExpectedKeyMember | pipeline/run.py:45 | a pair is a `per_query` key exactly when it is in the pair order |
| Run.HistoryRows | pipeline/run.py:45-47 | one history row per `per_query` key, in key order, each with the length of its list |
| Run.HistoryCountsAllRecords | pipeline/run.py:45-47 | the history counts add up to the number of records the clients returned |
| Run.PipelineNeverLacksClient | pipeline/run.py:41-43 | a pipeline run never stops with the no-client error |
| Run.FromMappingErrors | pipeline/run.py:35 | a configuration that cannot be loaded fails with KeyError |
| Run.ExecutePipeline | pipeline/run.py:30-58 | fails exactly when loading, client building or a search fails; otherwise returns the aggregate, history counts summing to the records met, and a Markdown summary of 4 + 10 lines per record |
| Run.HitsIgnoreOutputRoot | pipeline/run.py:36-43 | overriding `output_root` does not change the search results |
| Summarizer.MarkdownBlockFields | pipeline/summarizer.py:29-41 | ten lines per record; after its label each line reads back as one field: title, source, journal, study type, sample size and findings as given, the year parses back to the record's year, an empty DOI shows as "N/A" and any other as itself, and the modalities line is empty for none and otherwise splits at "、" back into the modalities (when none holds "、"); the last line is empty |
| Summarizer.DocxBlockFields | pipeline/summarizer.py:72-84 | ten paragraphs per record, the first being the title itself and the rest reading back as in the Markdown block: verbatim fields, the year, "N/A" for an empty DOI, the modalities split at "、" |
| Summarizer.MarkdownLines | pipeline/summarizer.py:22-42 | four header lines, then ten lines per record in order; line 4 + 10i + k is line k of record i's block |
| Summarizer.DocxParagraphs | pipeline/summarizer.py:65-85 | four header paragraphs, then ten per record in order |
| Summarizer.EscapeRoundTrip | pipeline/summarizer.py:54 | unescaping the escaped text gives the text back |
| Summarizer.EscapeNoBrackets | pipeline/summarizer.py:54 | escaped text holds no `<` and no `>` |
| Summarizer.ParagraphXml | pipeline/summarizer.py:51-63 | the paragraph is `<w:p/>` exactly for empty text |
| Summarizer.ParagraphRoundTrip | pipeline/summarizer.py:51-63 | the text can be read back out of its paragraph element |
| Summarizer.BodyAppend | pipeline/summarizer.py:87 | the body of a concatenation is the concatenation of the bodies |
| Summarizer.BodyRoundTrip | pipeline/summarizer.py:51-87 | reading the joined paragraph elements back, element by element, gives exactly the paragraphs in order |
| Summarizer.DocumentRoundTrip | pipeline/summarizer.py:87-102 | the paragraphs can be read back, in order and unchanged, from between the document's fixed opening and its section properties |
| Sorting.SortByPermutation | pipeline/iteration.py:40-48 | sorting is a permutation of its input |
| Sorting.SortBySorted | pipeline/iteration.py:40-48 | the result is sorted for any total preorder |
| Sorting.SortByStable | pipeline/iteration.py:40-48 | elements with equal keys keep their input order |
| Sorting.SortBySpec | pipeline/iteration.py:40-48 | a sorted permutation in which ties keep input order |
| Iteration.NewPlanner | pipeline/iteration.py:24-28 | at least one round; `iterations` is kept when it is at least 1, otherwise 1 |
| Iteration.RankLeTotalPreorder | pipeline/iteration.py:42-47 | the rank key orders every pair of records consistently |
| Iteration.RankResultsSpec | pipeline/iteration.py:39-48 | a permutation ordered by citations descending, year descending, lower-cased journal, lower-cased title, ties in input order |
| Iteration.ModalFocusSpec | pipeline/iteration.py:183-189 | no modality gives "多模态策略"; a first modality counted once while another modality exists gives "补强X特色"; otherwise "X与临床协同" |
| Iteration.AnchorSpec | pipeline/iteration.py:63-69 | round idx anchors on ranked record (idx - 1) mod min(iterations + 3, n), so rounds repeat with the pool's period |
| Iteration.RoundBlock | pipeline/iteration.py:71-87 | five lines per round |
| Iteration.BuildIterationLog | pipeline/iteration.py:50-90 | the loop builds the header and then the rounds' lines |
| Iteration.IterationLogEmpty | pipeline/iteration.py:59-60 | with no records, the five header lines and the placeholder |
| Iteration.IterationLogRounds | pipeline/iteration.py:62-90 | with records, 5 + 5·iterations lines; line 5·idx is round idx's heading with the focus label of its anchor, and the next line is the anchor's reference |
| Iteration.NewPlannerLogLength | pipeline/iteration.py:62-68 | a planner's log for records has at least one round |
| Iteration.ReferenceSection | pipeline/iteration.py:116-126 | the loop writes the reference lines |
| Iteration.ReferenceLinesSpec | pipeline/iteration.py:116-126 | min(10, n) entries, entry i for ranked record i, plus three fixed lines |
| Iteration.ClusterKey | pipeline/iteration.py:142 | the group key is never empty, and "未标注" for a record without modalities |
| Iteration.AnalysisPlanSection | pipeline/iteration.py:139-181 | the loop writes the analysis lines |
| Iteration.ExemplarCount | pipeline/iteration.py:140-143 | there are as many first-seen records as modality groups |
| Iteration.ExemplarAt | pipeline/iteration.py:164-165 | the j-th group's first record is the j-th first-seen record of a new key |
| Iteration.ClusterByModality | pipeline/iteration.py:140-143 | the groups hold each key's records in order, and the keys come in first-seen order |
| Iteration.AnalysisLinesSpec | pipeline/iteration.py:163-171 | one topic line per distinct group key, in first-seen order, naming the group's first record |
| Iteration.BuildFinalPlan | pipeline/iteration.py:92-114 | the preamble, then the three sections, or the placeholder when there are no records |
| Iteration.PlannerRun | pipeline/iteration.py:30-37 | the log and the plan are built from the ranked records |
| Iteration.AnchorIsInput | pipeline/iteration.py:63-69 | every round's anchor is one of the input records |
| CitationCrawler.SanitiseFilename | tools/sci_citation_crawler.py:79-85 | never empty and only `[a-zA-Z0-9._-]`; "article" for empty input; otherwise each character mapped one for one and cut to 200 |
| CitationCrawler.SanitiseKeepsSafeNames | tools/sci_citation_crawler.py:79-85 | a safe name of at most 200 characters is kept |
| CitationCrawler.SanitiseIdempotent | tools/sci_citation_crawler.py:79-85 | sanitising twice is sanitising once |
| CitationCrawler.GuessExtensionCaseInsensitive | tools/sci_citation_crawler.py:91-100 | letter case in the content type and URL does not change the extension |
| CitationCrawler.PdfContentTypeFirst | tools/sci_citation_crawler.py:93-94 | a PDF content type gives ".pdf" whatever the URL |
| CitationCrawler.DocxUrl | tools/sci_citation_crawler.py:95-98 | a URL ending in ".docx" gives ".docx" when the content type says neither pdf nor msword |
| CitationCrawler.StripHtmlTagsTidy | tools/sci_citation_crawler.py:70-76 | the stripped text has no whitespace at the ends and no two whitespace characters in a row |
| CitationCrawler.CacheRoundTrip | tools/sci_citation_crawler.py:312-324 | an article written to the cache is read back unchanged |
| CitationCrawler.CacheDefaults | tools/sci_citation_crawler.py:314-323 | missing keys read as "Unnamed Article", "", no year, "Unknown Journal", 0 and "" |
| CitationCrawler.MoreCitedTotalPreorder | tools/sci_citation_crawler.py:326 | the citation order compares every pair of articles consistently |
| CitationCrawler.LoadCachedArticles | tools/sci_citation_crawler.py:303-326 | the loaded articles are a permutation of the cache entries, by citation count descending |
| CitationCrawler.CachedArticlesStable | tools/sci_citation_crawler.py:326 | articles with equal citation counts keep their cache order |
| CitationCrawler.ToMarkdown | tools/sci_citation_crawler.py:329-347 | header, separator, then one row per article joined by line breaks |
| CitationCrawler.MarkdownCellsSpec | tools/sci_citation_crawler.py:336-345 | six cells; no "\|" in title, journal or authors; the year cell is "-" exactly for a missing or zero year; the DOI cell "-" exactly for an empty DOI |
| CitationCrawler.NoBarKeepsLines | tools/sci_citation_crawler.py:339-344 | replacing the column bar adds no line break |
| CitationCrawler.MarkdownRowOneLine | tools/sci_citation_crawler.py:338-345 | with line-free fields every row is one line |
| CitationCrawler.MarkdownTableRows | tools/sci_citation_crawler.py:347 | the table body splits back into one row per article, in order |
| CitationCrawler.ToCsv | tools/sci_citation_crawler.py:350-367 | the header line, then one line per article, joined by line breaks |
| CitationCrawler.CsvLineOneLine | tools/sci_citation_crawler.py:355-365 | with an encoder that escapes line breaks, a CSV line is one line |
| CitationCrawler.CsvHeaderOneLine | tools/sci_citation_crawler.py:353 | the CSV header is one line |
| CitationCrawler.CsvOneLinePerArticle | tools/sci_citation_crawler.py:350-367 | the CSV text splits into the header and exactly one line per article holding that article's fields |
| CitationCrawler.FromYear | tools/sci_citation_crawler.py:470-474 | `--from-year` when given; otherwise a window of max(1, recent_years) years ending with the current year |
| CitationCrawler.CacheWindowSpec | tools/sci_citation_crawler.py:483-488 | the filter keeps every copy of exactly the articles with no year or a year inside the window, in citation order |
| CitationCrawler.SelectArticlesStops | tools/sci_citation_crawler.py:480-513 | stops with "No articles found…" exactly when the list is empty, passes a fetch failure on, and otherwise keeps at most `rows` articles |
| CitationCrawler.SelectedInWindow | tools/sci_citation_crawler.py:483-488 | every article taken from the cache lies inside the window |
| CitationCrawler.RetrieveSpec | tools/sci_citation_crawler.py:517-561 | one of three modes; full text exactly for a saved download outside a dry run; abstract exactly otherwise with a non-empty abstract; abstract text kept only then; a failed download's error becomes the note |
| CitationCrawler.RetrievalRecords | tools/sci_citation_crawler.py:516-561 | one record per article, in order, each the decision for that article, with a Word report forcing the full-text attempt |
| LiteraturePipeline.FetchFromYear | tools/literature_pipeline.py:169 | a non-zero `--from-year` is used; otherwise max(years, 1) years before the current year |
| LiteraturePipeline.LoadArticlesSpec | tools/literature_pipeline.py:161-174 | offline without a cache is a RuntimeError; otherwise a prefix of the source list, all of it for `rows` 0, at most `rows` for positive, all but the last −rows for negative |
| LiteraturePipeline.MinYear | tools/literature_pipeline.py:184-188 | an explicit bound is used (0 included); otherwise `years` before the current year |
| LiteraturePipeline.ZeroFromYear | tools/literature_pipeline.py:169 | an explicit bound of 0 is a bound for the filter but ignored by the fetch |
| LiteraturePipeline.NewerFirstTotalPreorder | tools/literature_pipeline.py:195 | the reversed key compares every pair of articles consistently |
| LiteraturePipeline.FilterRecent | tools/literature_pipeline.py:177-195 | the loop keeps the recent articles and sorts them |
| LiteraturePipeline.RecentArticlesSpec | tools/literature_pipeline.py:184-195 | every copy of exactly the articles with a known year at or after the bound; year descending, then citations ascending, ties in input order |
| LiteraturePipeline.RecentArticlesInWindow | tools/literature_pipeline.py:190-194 | every kept article has a known year inside the window |
| LiteraturePipeline.SafeFilename | tools/literature_pipeline.py:198-202 | the name is the stem followed by the suffix |
| LiteraturePipeline.SafeStemClean | tools/literature_pipeline.py:199-201 | the stem is non-empty, of class characters and "_" only, with no "_" at either end |
| LiteraturePipeline.SafeStemKeepsClean | tools/literature_pipeline.py:199-201 | a title that is already a clean stem is kept |
| LiteraturePipeline.SafeStemIdempotent | tools/literature_pipeline.py:199-202 | making a stem safe twice is doing it once |
| LiteraturePipeline.SafeStemFallback | tools/literature_pipeline.py:199-201 | a title of only "_" and characters outside the class becomes "article" |
| LiteraturePipeline.PhosphoSubsumes | tools/literature_pipeline.py:363 | "phosphorylated" in a title implies "phospho", so the first test never decides alone |
| LiteraturePipeline.KeywordHintPriority | tools/literature_pipeline.py:359-367 | each hint is chosen exactly when its rule is the first to match: complement or c5, then phospho, then sepsis, else the default |
| LiteraturePipeline.KeywordHintCaseInsensitive | tools/literature_pipeline.py:360 | letter case in the title does not change the hint |
| LiteraturePipeline.MatchedSpec | tools/literature_pipeline.py:390-392 | a label is collected exactly when one of its needles occurs, and never twice |
| LiteraturePipeline.KeywordsIn | tools/literature_pipeline.py:390-393 | the scan over the table, then the sort |
| LiteraturePipeline.InferKeywords | tools/literature_pipeline.py:370-393 | the keywords of the lower-cased title and summary |
| LiteraturePipeline.KeywordsSpec | tools/literature_pipeline.py:390-393 | strictly increasing string order, and a label is present exactly when one of its needles occurs |
| LiteraturePipeline.DeriveInnovations | tools/literature_pipeline.py:433-456 | the rule checks build the ideas for the keyword pool |
| LiteraturePipeline.FiredIdeasSpec | tools/literature_pipeline.py:438-453 | at most one idea per rule, in rule order, each present exactly when its rule fires |
| LiteraturePipeline.InnovationsSpec | tools/literature_pipeline.py:433-456 | one to four ideas in rule order, each exactly when its rule fires, and the fallback alone exactly when none fires |
| LiteraturePipeline.DeepLearningRule | tools/literature_pipeline.py:450-453 | the fourth idea appears exactly for a pool with "生物标志物" and without "深度学习" |
| LiteraturePipeline.RenderIterationSection | tools/literature_pipeline.py:459-488 | the loop builds the section lines and joins them |
| LiteraturePipeline.IdeaLinesSpec | tools/literature_pipeline.py:481-482 | the k-th innovation is numbered k + 1 |
| LiteraturePipeline.SectionLinesSpec | tools/literature_pipeline.py:465-487 | the fixed head, one table row per result in order, the ideas numbered from 1 in order, the fixed tail |
| LiteraturePipeline.SummaryCellClean | tools/literature_pipeline.py:475 | a summary cell holds no "\|" and no line break |
| LiteraturePipeline.SummaryCellKeepsPlain | tools/literature_pipeline.py:475 | a summary without "\|" or line breaks is shown as it is |
| LiteraturePipeline.RowCellsSpec | tools/literature_pipeline.py:472-478 | six cells; no "\|" in title or summary; the year cell "-" exactly for a missing or zero year; "-" for no local file and no keywords; the keyword cell never empty |
| LiteraturePipeline.FirstSpan | tools/literature_pipeline.py:497-501 | no span exactly when no start marker is followed by an end marker; otherwise the first start marker and the first end marker after it |
| LiteraturePipeline.UpdatePlanSpec | tools/literature_pipeline.py:491-506 | RuntimeError exactly without a marked span; otherwise the text before the first span and after it is kept and the section sits between the markers on lines of its own |
| LiteraturePipeline.DryRunWritesNothing | tools/literature_pipeline.py:507-510 | a dry run writes nothing and fails exactly when a real run fails |
| LiteraturePipeline.UpdatePlanStable | tools/literature_pipeline.py:497-506 | updating again with the same section changes nothing, if the section holds no end marker |
| LiteraturePipeline.AsWrittenAgreesWithoutBackslash | tools/literature_pipeline.py:505-506 | without a backslash in the section, the update as written equals the literal update |
| LiteraturePipeline.AsWrittenRewritesBackslash | tools/literature_pipeline.py:505-506 | the section `C:\new` is changed by the update as written |
| LiteraturePipeline.AsWrittenRejectsEscape | tools/literature_pipeline.py:505-506 | the section `\d` makes the update as written fail although the plan has its markers |
| LiteraturePipeline.NulEscape | tools/literature_pipeline.py:497-506 | in the template, `\0` not followed by an octal digit becomes the NUL character |
| LiteraturePipeline.OctalEscape | tools/literature_pipeline.py:497-506 | three octal digits after a backslash become the character with that code, and a code above 0o377 is an error |
| LiteraturePipeline.GroupReferenceFails | tools/literature_pipeline.py:497-506 | any other backslash before a digit from 1 to 9 refers to a group the pattern does not have, and the substitution fails |
| LiteraturePipeline.ExportToDocx | tools/literature_pipeline.py:513-544 | nothing in a dry run; otherwise the document with one paragraph per Markdown line |
| LiteraturePipeline.DropHeadingCuts | tools/literature_pipeline.py:527 | from a line starting with "#" exactly the leading "#" run and the white space after it go |
| LiteraturePipeline.BulletsSpec | tools/literature_pipeline.py:528-529 | no "* " and no "- " is left |
| LiteraturePipeline.HtmlEscapeClean | tools/literature_pipeline.py:530 | escaped text holds no `<`, `>`, `"` or `'` |
| LiteraturePipeline.HtmlEscapeRoundTrip | tools/literature_pipeline.py:530 | unescaping undoes the escape |
| LiteraturePipeline.DocxParagraphSpec | tools/literature_pipeline.py:520-533 | a line blank after right-stripping becomes `<w:p/>`; any other becomes a run whose text reads back as the right-stripped line without its heading marks and with bullets |
| PlanOptimizer.ParseResults | tools/plan_optimizer.py:74-102 | the loop over the result blocks returns the parsed hits, stopping at the limit |
| PlanOptimizer.ParsedResultsSpec | tools/plan_optimizer.py:99-101 | at most `max_results` hits (one when the limit is below one); a prefix of all parsed hits in page order; when fewer than the limit come back, they are all the parsed hits |
| PlanOptimizer.FilterMapNone | tools/plan_optimizer.py:75-82 | a page none of whose blocks parses gives no hit |
| PlanOptimizer.ParseBlockNone | tools/plan_optimizer.py:76-82 | a block is skipped exactly when it lacks "result__title", `result__a">` or `href="` |
| PlanOptimizer.ParseBlockUrl | tools/plan_optimizer.py:87 | the link is the text after the first `href="` up to the next quote or the end, and holds no quote |
| PlanOptimizer.ParsedUrl | tools/plan_optimizer.py:87 | the link is the text before the first quote after the marker |
| PlanOptimizer.ParseBlockTrimmed | tools/plan_optimizer.py:84-98 | title and snippet have no white space at their ends; the snippet is empty without its marker |
| PlanOptimizer.SnippetTrimmed | tools/plan_optimizer.py:89-98 | the snippet is trimmed, and empty when the block has no snippet marker |
| PlanOptimizer.AnchorRoundTrip | tools/plan_optimizer.py:84-98 | plain anchor text without tags or surrounding space comes back unchanged as title or snippet |
| PlanOptimizer.UrlRoundTrip | tools/plan_optimizer.py:87 | a link without quotes comes back unchanged |
| PlanOptimizer.ParseBlockRoundTrip | tools/plan_optimizer.py:76-99 | a block whose title anchor and link hold plain text parses to exactly that title and link |
| PlanOptimizer.BulletLinesCount | tools/plan_optimizer.py:116-117 | three lines per hit, hit k at lines 3k to 3k + 2 |
| PlanOptimizer.BulletsNonEmpty | tools/plan_optimizer.py:116-118 | with hits the joined bullets are never empty, so the fallback is not used |
| PlanOptimizer.BulletPointsSpec | tools/plan_optimizer.py:116-118 | no hits give the single fallback bullet; with line-free fields, the list splits into three lines per hit, in order |
| PlanOptimizer.BuildPromptSpec | tools/plan_optimizer.py:113-136 | when no line of the plan or the objective is spaces and tabs only and no hit field holds a line break, dedenting changes nothing: the prompt starts with the intro and the plan verbatim, and the bullet list (the fallback bullet when there are no hits) sits between the results and objective headings |
| PlanOptimizer.DedentSpec | tools/plan_optimizer.py:136 | dedenting keeps the lines, empties the whitespace-only ones, and leaves a text without them unchanged |
| PlanOptimizer.ExtractHeadings | tools/plan_optimizer.py:160-164 | the loop collects the headings of the plan's lines |
| PlanOptimizer.HeadingsAsFilter | tools/plan_optimizer.py:161-164 | the headings are the heading lines, in order, each cleaned |
| PlanOptimizer.HeadingOfClean | tools/plan_optimizer.py:162-164 | a heading starts with neither "#" nor a space and has no white space at its ends |
| PlanOptimizer.HeadingsClean | tools/plan_optimizer.py:160-164 | every extracted heading is clean |
| PlanOptimizer.PreviewSpec | tools/plan_optimizer.py:166 | no headings give "(未检测到标题)"; one heading shows as itself unless empty; otherwise the first five joined by "、", which split back into those five |
| PlanOptimizer.GenerateOfflineOutput | tools/plan_optimizer.py:157-176 | the dedented fixed suggestions around the heading preview and the objective |
| PlanOptimizer.BasenameSpec | tools/plan_optimizer.py:187 | the base name is the part of the path after its last "/" and holds no "/" |
| PlanOptimizer.SplitExtSpec | tools/plan_optimizer.py:187 | the root is a prefix of the name; what it drops is empty or one extension, dropped exactly when the name's last "." follows a non-dot character |
| PlanOptimizer.OutputFileNameSpec | tools/plan_optimizer.py:187-188 | the file name is the plan's root name followed by "_optimized.md" and holds no "/" |
| PlanOptimizer.BasenameJoin | tools/plan_optimizer.py:188 | joining a directory and a plain name gives a path whose base name is that name |
| PlanOptimizer.OutputPathBasename | tools/plan_optimizer.py:185-188 | the destination's base name is the output file name, in whichever directory is chosen |

## Left out

- Network access is not modelled:
  - the Crossref, doi.org and search-engine requests;
  - `download_pdf`, `fetch_crossref_abstract`, `fetch_articles` and `download_fulltext`;
  - the POST in `fetch_duckduckgo_results`.
  
  Their results are parameters: a fetch function, a download outcome, the page text.
- The language-model calls (`call_gpt`, the OpenAI branch of `summarise_payload`) are not modelled, for the same reason.
- File and process effects are not modelled:
  - reading the configuration, plan and stub files;
  - `_write`, the Markdown file and the Word zip archives;
  - `write_summary_files`, `dump_articles_to_cache`, `write_output`;
  - `OutputManager` in `pipeline/downloader.py`;
  - `os.makedirs`;
  - logging and console output.
  
  The working directory and the current year are parameters, not clock or OS reads.
- `pipeline/downloader.py` and `tools/cleanup_workspace.py` are not part of this model.
- Library parsers are not modelled. `yaml.safe_load` / `json.loads` of the configuration and the JSON stub and cache files are taken as already parsed into datatypes.
- Records.FromStub, PubMed.Search, GoogleScholar.Search, Config.QueryFromMapping, Config.FromMappingSpec: the type coercions of the source are not modelled, nor their errors. Stub and configuration values arrive already typed (`Option<int>`, `Option<bool>`, sequences). So the model does not capture `int(record["year"])` and `int(record.get("citations", 0))` converting a text such as "2021" or raising `ValueError`/`TypeError` (pipeline/pubmed.py:35,45, pipeline/google_scholar.py:33). It likewise leaves out `tuple(...)` of a non-list value (pipeline/config.py:45-47, pipeline/pubmed.py:34,40) and `bool(...)` / `int(...)` of `offline_mode` and `iterations` (pipeline/config.py:55-57).
- PlanOptimizer.Basename, PlanOptimizer.SplitExtRoot, PlanOptimizer.PathJoin: paths are POSIX paths, as `posixpath` treats them: "/" is the only separator, and there are no drive letters and no `\` separators. `os.path` on Windows is not modelled.
- `json.dumps` is the parameter `dumps` of `CitationCrawler.ToCsv`. Only its escaping of line breaks is assumed.
- Text processing is approximated:
  - `html.unescape` in `strip_html_tags` is not modelled; only the tag and whitespace steps are.
  - `str.lower` is modelled for ASCII letters only.
  - `\s` and `str.isspace` are modelled by a fixed character set.
  - Strings are sequences of characters, with no encoding.
- The `mimetypes` fallback of `guess_extension` is not modelled. `CitationCrawler.GuessExtension` returns `None` where it would apply.
- `PlanOptimizer.Dedent`: `textwrap.dedent` is modelled only for texts whose first line is not indented. Both templates it is applied to start that way, so no common margin exists and only whitespace-only lines change.
- `PlanOptimizer.ParseResults`: a `max_results` below 1 still returns one hit, as the code does. The check comes after the append.
- Entry points and wiring are not modelled: `parse_args`, `main` and `run` of the three tools, `run_pipeline` of the literature tool, `IterationPlanner.run`'s file writes, and the argument parsing of `pipeline/run.py`.
  - The pieces they call are modelled.
  - `Run.ExecutePipeline` returns what would be written.
  - `Iteration.PlannerRun` returns the two line lists.
- `load_text_payload`, `summarise_payload`, `heuristic_summary`, `clean_crossref_abstract`, `extract_text_from_pdf` and `write_word_report` are not modelled. They depend on PDF extraction, network or model output, or `python-docx`; each summary result is an input of the later steps.
- `LiteraturePipeline.ExpandTemplate`: it models `re.sub`'s template for the update's pattern, which has no groups. It covers the one-letter escapes, `\0` with up to two more octal digits, three-digit octal escapes (and their range error), a digit escape as a reference to a missing group (an error), and the bad-escape error. `\g<…>` references are not modelled: every `\g` is read as a bad escape, though `\g<0>` would insert the whole match.
- `SearchRunner.run` and the clients are generators in the source. Here an error ends the whole call, and the records yielded before it are not observable.

## Findings

| source | as written | input that shows it | evidently intended | confidence | as-written member | corrected member |
|---|---|---|---|---|---|---|
| pipeline/search.py:12-27 | `SearchResult` declares no `citation_count`, yet `PubMedClient.search` passes `citation_count=` and the ranking reads `item.citation_count` | any offline PubMed stub entry with a title and a year: the constructor raises TypeError for an unexpected keyword | a `citation_count: int = 0` field, which the Google Scholar client leaves at its default | high, not executed | PubMed.SearchAsWritten, PubMed.AsWrittenRejectsCompleteEntry | PubMed.Search |
| tools/literature_pipeline.py:505-506 | the replacement text is passed to `pattern.sub` as a template, so backslashes in the section are read as escapes | a section holding `\d` fails with "bad escape"; one holding `C:\new` gets a line break for `\n` | the section inserted literally between the markers | high, not executed | LiteraturePipeline.UpdatePlanAsWritten, LiteraturePipeline.AsWrittenRejectsEscape, LiteraturePipeline.AsWrittenRewritesBackslash | LiteraturePipeline.UpdatePlan, LiteraturePipeline.UpdatePlanSpec, LiteraturePipeline.UpdatePlanStable |
