/** The research-plan optimiser (tools/plan_optimizer.py): the parser for the result
    blocks of DuckDuckGo's HTML page, the prompt with its bullet list of hits, the
    heading preview of the offline output, and the name of the file it writes. */
module PlanOptimizer {
  import opened Wrappers
  import opened Text
  import opened Collections

  /** One hit of the web search: the tool's own `SearchResult` record. */
  datatype WebResult = WebResult(title: string, url: string, snippet: string)

  // ---------------------------------------------------------------- result page parser

  const ResultBody := "<div class=\"result__body\">"
  const TitleClass := "result__title"
  const TitleMarker := "result__a\">"
  const HrefMarker := "href=\""
  const SnippetMarker := "result__snippet\">"
  const AnchorClose := "</a>"
  /** Written in two pieces so that the verifier sees its first character. */
  const SnippetSpan := "<span class=" + "\"result__snippet js-result-snippet\">"
  const SpanClose := "</span>"

  /** Remove the bold tags the search engine puts around matched words. */
  function Unbold(s: string): string {
    ReplaceAll(ReplaceAll(s, "<b>", ""), "</b>", "")
  }

  /** The text of an anchor whose opening marker ends at `at`: up to the first `</a>`. */
  function AnchorText(block: string, at: nat): string
    requires at <= |block|
  {
    Before(block[at..], AnchorClose)
  }

  function CleanSnippet(raw: string): string {
    Strip(ReplaceAll(ReplaceAll(Unbold(raw), SnippetSpan, ""), SpanClose, ""))
  }

  /** The snippet of a block, or "" when it has no snippet anchor. */
  function SnippetOf(block: string): string {
    match Find(block, SnippetMarker)
    case None => ""
    case Some(k) => CleanSnippet(AnchorText(block, k + |SnippetMarker|))
  }

  /** The title: the anchor text after the first title marker, unbolded and trimmed. */
  function TitleOf(block: string, t: nat): string
    requires t + |TitleMarker| <= |block|
  {
    Strip(Unbold(AnchorText(block, t + |TitleMarker|)))
  }

  /** The link: the text after the first `href="` up to the next quote. */
  function UrlOf(block: string, u: nat): string
    requires u + |HrefMarker| <= |block|
  {
    Before(block[u + |HrefMarker|..], "\"")
  }

  /** One block of the page: a hit when it has a result title, a title anchor and a link. */
  function ParseBlock(block: string): Option<WebResult> {
    var t, u := Find(block, TitleMarker), Find(block, HrefMarker);
    if Find(block, TitleClass).None? || t.None? || u.None? then None
    else Some(WebResult(TitleOf(block, t.value), UrlOf(block, u.value), SnippetOf(block)))
  }

  function Present<U>(o: Option<U>): seq<U> {
    match o
    case Some(x) => [x]
    case None => []
  }

  /** The values of the elements that `parse` accepts, in order. */
  function FilterMap<T, U>(s: seq<T>, parse: T -> Option<U>): (r: seq<U>)
    ensures |r| <= |s|
    decreases |s|
  {
    if s == [] then [] else FilterMap(s[..|s| - 1], parse) + Present(parse(s[|s| - 1]))
  }

  /** The first `cap` accepted values, or all of them when there are fewer. */
  function TakeAccepted<T, U>(s: seq<T>, parse: T -> Option<U>, cap: nat): seq<U> {
    var h := FilterMap(s, parse);
    h[..if |h| < cap then |h| else cap]
  }

  /** The loop stops once it holds `maxResults` hits; it checks only after an append,
      so a limit below one still lets the first hit through. */
  function Cap(maxResults: int): nat {
    if maxResults < 1 then 1 else maxResults
  }

  /** What the parser returns for a page. */
  function ParsedResults(text: string, maxResults: int): seq<WebResult> {
    TakeAccepted(Split(text, ResultBody), ParseBlock, Cap(maxResults))
  }

  lemma {:induction false} FilterMapAppend<T, U>(a: seq<T>, b: seq<T>, parse: T -> Option<U>)
    ensures FilterMap(a + b, parse) == FilterMap(a, parse) + FilterMap(b, parse)
    decreases |b|
  {
    if b == [] {
      assert a + b == a;
    } else {
      var init := b[..|b| - 1];
      assert (a + b)[..|a + b| - 1] == a + init;
      FilterMapAppend(a, init, parse);
    }
  }

  lemma FilterMapSnoc<T, U>(s: seq<T>, parse: T -> Option<U>, n: nat)
    requires n < |s|
    ensures FilterMap(s[..n + 1], parse) == FilterMap(s[..n], parse) + Present(parse(s[n]))
  {
    assert s[..n + 1][..n] == s[..n];
  }

  /** Stopping with `cap` values from the first `n` elements gives the first `cap`. */
  lemma StopAtCap<T, U>(s: seq<T>, parse: T -> Option<U>, cap: nat, n: nat)
    requires n <= |s|
    requires |FilterMap(s[..n], parse)| == cap
    ensures TakeAccepted(s, parse, cap) == FilterMap(s[..n], parse)
  {
    var a, b := s[..n], s[n..];
    assert s == a + b;
    FilterMapAppend(a, b, parse);
    var h := FilterMap(a, parse);
    assert (h + FilterMap(b, parse))[..|h|] == h;
  }

  /** Running out of elements below the limit gives all accepted values. */
  lemma StopAtEnd<T, U>(s: seq<T>, parse: T -> Option<U>, cap: nat)
    requires |FilterMap(s, parse)| < cap
    ensures TakeAccepted(s, parse, cap) == FilterMap(s, parse)
  {
  }

  /** Parse the blocks of a result page one by one, stopping at `maxResults` hits. */
  method ParseResults(text: string, maxResults: int) returns (results: seq<WebResult>)
    ensures results == ParsedResults(text, maxResults)
  {
    var blocks := Split(text, ResultBody);
    results := [];
    var i := 0;
    while i < |blocks|
      invariant 0 <= i <= |blocks|
      invariant results == FilterMap(blocks[..i], ParseBlock)
      invariant |results| < Cap(maxResults)
    {
      var hit := ParseBlock(blocks[i]);
      FilterMapSnoc(blocks, ParseBlock, i);
      i := i + 1;
      if hit.Some? {
        results := results + [hit.value];
        if |results| >= maxResults {
          StopAtCap(blocks, ParseBlock, Cap(maxResults), i);
          return;
        }
      }
    }
    assert blocks[..i] == blocks;
    StopAtEnd(blocks, ParseBlock, Cap(maxResults));
  }

  /** The accepted values are exactly the present parses, in element order. */
  lemma {:induction false} FilterMapAsFlatMap<T, U>(s: seq<T>, parse: T -> Option<U>)
    ensures FilterMap(s, parse) == FlatMap(Map(s, parse), Present)
    decreases |s|
  {
    if s != [] {
      var init := s[..|s| - 1];
      var m := Map(s, parse);
      assert m[..|m| - 1] == Map(init, parse);
      FilterMapAsFlatMap(init, parse);
    }
  }

  /** The parser returns at most `maxResults` hits (one when the limit is below one),
      takes them in order from the start of the page's hits, and only stops early at
      the limit. */
  lemma ParsedResultsSpec(text: string, maxResults: int)
    ensures var r := ParsedResults(text, maxResults);
      var hits := FilterMap(Split(text, ResultBody), ParseBlock);
      && (maxResults >= 1 ==> |r| <= maxResults)
      && |r| <= 1 + (if maxResults < 0 then 0 else maxResults)
      && IsPrefixSeq(r, hits)
      && (|r| < Cap(maxResults) ==> r == hits)
  {
  }

  predicate IsPrefixSeq<T(==)>(a: seq<T>, b: seq<T>) {
    |a| <= |b| && b[..|a|] == a
  }

  /** Elements none of which is accepted yield nothing: a page none of whose blocks
      parses gives no hit. */
  lemma {:induction false} FilterMapNone<T, U>(s: seq<T>, parse: T -> Option<U>)
    requires forall k :: 0 <= k < |s| ==> parse(s[k]).None?
    ensures FilterMap(s, parse) == []
    decreases |s|
  {
    if s != [] {
      FilterMapNone(s[..|s| - 1], parse);
    }
  }

  /** A block is skipped exactly when it lacks the result title class, the title
      anchor marker or the link attribute. */
  lemma ParseBlockNone(block: string)
    ensures ParseBlock(block).None? <==>
      !Contains(block, TitleClass) || !Contains(block, TitleMarker) || !Contains(block, HrefMarker)
  {
  }

  /** The text before the first quote holds none and is followed by one or by the end. */
  lemma BeforeQuote(rest: string)
    ensures var url := Before(rest, "\"");
      && IsPrefix(url, rest)
      && (|url| == |rest| || rest[|url|] == '"')
      && '"' !in url
  {
    var url := Before(rest, "\"");
    BeforeLacks(rest, "\"");
    forall k | 0 <= k < |url|
      ensures url[k] != '"'
    {
      assert url[k..k + 1] == [url[k]];
      assert !OccursAt(url, "\"", k);
    }
    if Contains(rest, "\"") {
      assert OccursAt(rest, "\"", |url|);
    }
  }

  /** The link of a parsed block is the text after the first `href="` up to the next
      quote, or to the end of the block when no quote follows; it holds no quote. */
  lemma ParseBlockUrl(block: string, u: nat)
    requires ParseBlock(block).Some?
    requires Find(block, HrefMarker) == Some(u)
    ensures IsPrefix(ParseBlock(block).value.url, block[u + |HrefMarker|..])
    ensures var url, rest := ParseBlock(block).value.url, block[u + |HrefMarker|..];
      |url| == |rest| || rest[|url|] == '"'
    ensures '"' !in ParseBlock(block).value.url
  {
    ParsedUrl(block, u);
    BeforeQuote(block[u + |HrefMarker|..]);
  }

  lemma ParsedUrl(block: string, u: nat)
    requires ParseBlock(block).Some?
    requires Find(block, HrefMarker) == Some(u)
    ensures ParseBlock(block).value.url == Before(block[u + |HrefMarker|..], "\"")
  {
    var t := Find(block, TitleMarker);
    assert t.Some?;
    assert ParseBlock(block) == Some(WebResult(TitleOf(block, t.value), UrlOf(block, u), SnippetOf(block)));
  }

  /** The title and the snippet of a parsed block are trimmed, and the snippet is
      empty when the block has no snippet anchor. */
  lemma ParseBlockTrimmed(block: string)
    requires ParseBlock(block).Some?
    ensures var r := ParseBlock(block).value;
      && (r.title != [] ==> !IsSpace(r.title[0]) && !IsSpace(r.title[|r.title| - 1]))
      && (r.snippet != [] ==> !IsSpace(r.snippet[0]) && !IsSpace(r.snippet[|r.snippet| - 1]))
      && (!Contains(block, SnippetMarker) ==> r.snippet == "")
  {
    var r := ParseBlock(block).value;
    var t := Find(block, TitleMarker).value;
    assert r.title == TitleOf(block, t);
    StripEnds(Unbold(AnchorText(block, t + |TitleMarker|)));
    assert r.snippet == SnippetOf(block);
    SnippetTrimmed(block);
  }

  lemma SnippetTrimmed(block: string)
    ensures var s := SnippetOf(block); s != [] ==> !IsSpace(s[0]) && !IsSpace(s[|s| - 1])
    ensures !Contains(block, SnippetMarker) ==> SnippetOf(block) == ""
  {
    match Find(block, SnippetMarker)
    case None =>
    case Some(k) =>
      StripEnds(ReplaceAll(ReplaceAll(Unbold(AnchorText(block, k + |SnippetMarker|)), SnippetSpan, ""), SpanClose, ""));
  }

  /** A plain anchor text (no tag, no surrounding space) comes back unchanged. */
  lemma AnchorRoundTrip(x: string, rest: string)
    requires '<' !in x
    requires x != [] ==> !IsSpace(x[0]) && !IsSpace(x[|x| - 1])
    ensures Strip(Unbold(Before(x + AnchorClose + rest, AnchorClose))) == x
    ensures CleanSnippet(Before(x + AnchorClose + rest, AnchorClose)) == x
  {
    FindAfterLacking(x, AnchorClose, rest);
    assert (x + AnchorClose + rest)[..|x|] == x;
    ReplaceAbsentHead(x, "<b>", "");
    ReplaceAbsentHead(x, "</b>", "");
    assert SnippetSpan[0] == '<' && SpanClose[0] == '<';
    ReplaceAbsentHead(x, SnippetSpan, "");
    ReplaceAbsentHead(x, SpanClose, "");
    StripClean(x);
  }

  /** A link without quotes comes back unchanged. */
  lemma UrlRoundTrip(u: string, rest: string)
    requires '"' !in u
    ensures Before(u + "\"" + rest, "\"") == u
  {
    FindAfterLacking(u, "\"", rest);
    assert (u + "\"" + rest)[..|u|] == u;
  }

  /** A block whose title anchor and link hold plain text parses back to that text. */
  lemma ParseBlockRoundTrip(block: string, t: nat, u: nat, title: string, url: string,
                            tail1: string, tail2: string)
    requires Contains(block, TitleClass)
    requires Find(block, TitleMarker) == Some(t) && Find(block, HrefMarker) == Some(u)
    requires '<' !in title && '"' !in url
    requires title != [] ==> !IsSpace(title[0]) && !IsSpace(title[|title| - 1])
    requires block[t + |TitleMarker|..] == title + AnchorClose + tail1
    requires block[u + |HrefMarker|..] == url + "\"" + tail2
    ensures ParseBlock(block) == Some(WebResult(title, url, SnippetOf(block)))
  {
    AnchorRoundTrip(title, tail1);
    UrlRoundTrip(url, tail2);
  }

  // ---------------------------------------------------------------- prompt

  const NoResultsBullet := "- (无外部检索结果, 请聚焦内部优化)"

  /** The three lines of one hit's bullet. */
  function BulletLines(r: WebResult): seq<string> {
    ["- " + r.title, "  链接: " + r.url, "  摘要: " + r.snippet]
  }

  function Bullet(r: WebResult): string {
    "- " + r.title + "\n  链接: " + r.url + "\n  摘要: " + r.snippet
  }

  /** The bullet list of the hits, or the single fallback bullet when the join is empty. */
  function BulletPoints(results: seq<WebResult>): string {
    var joined := Join("\n", Map(results, Bullet));
    if joined == [] then NoResultsBullet else joined
  }

  lemma BulletJoin(r: WebResult)
    ensures Bullet(r) == Join("\n", BulletLines(r))
  {
    var a, b, c := "- " + r.title, "  链接: " + r.url, "  摘要: " + r.snippet;
    assert BulletLines(r) == [a, b, c];
    assert [a, b, c][..2] == [a, b] && [a, b][..1] == [a];
    assert Join("\n", [a, b]) == a + "\n" + b;
    assert Join("\n", [a, b, c]) == a + "\n" + b + "\n" + c;
    assert "\n  链接: " == "\n" + "  链接: " && "\n  摘要: " == "\n" + "  摘要: ";
    assert Bullet(r) == a + "\n" + b + "\n" + c;
  }

  lemma {:induction false} JoinNested(results: seq<WebResult>)
    requires results != []
    ensures Join("\n", Map(results, Bullet)) == Join("\n", FlatMap(results, BulletLines))
    decreases |results|
  {
    var init, x := results[..|results| - 1], results[|results| - 1];
    BulletJoin(x);
    var m := Map(results, Bullet);
    assert m == Map(init, Bullet) + [Bullet(x)];
    if init == [] {
      assert FlatMap(results, BulletLines) == BulletLines(x);
    } else {
      JoinNested(init);
      JoinAppend("\n", Map(init, Bullet), Bullet(x));
      JoinConcat("\n", FlatMap(init, BulletLines), BulletLines(x));
    }
  }

  lemma {:induction false} BulletLinesCount(results: seq<WebResult>)
    ensures |FlatMap(results, BulletLines)| == 3 * |results|
    ensures forall k :: 0 <= k < |results| ==>
      FlatMap(results, BulletLines)[3 * k..3 * k + 3] == BulletLines(results[k])
    decreases |results|
  {
    if results != [] {
      var init := results[..|results| - 1];
      BulletLinesCount(init);
      var f := FlatMap(results, BulletLines);
      forall k | 0 <= k < |init|
        ensures f[3 * k..3 * k + 3] == BulletLines(results[k])
      {
        assert f[3 * k..3 * k + 3] == FlatMap(init, BulletLines)[3 * k..3 * k + 3];
      }
    }
  }

  lemma {:induction false} BulletLinesLack(results: seq<WebResult>)
    requires forall k :: 0 <= k < |results| ==>
      '\n' !in results[k].title && '\n' !in results[k].url && '\n' !in results[k].snippet
    ensures forall i :: 0 <= i < |FlatMap(results, BulletLines)| ==> '\n' !in FlatMap(results, BulletLines)[i]
    decreases |results|
  {
    if results != [] {
      var init, x := results[..|results| - 1], results[|results| - 1];
      BulletLinesLack(init);
      assert '\n' !in "- " && '\n' !in "  链接: " && '\n' !in "  摘要: ";
      var l := BulletLines(x);
      assert forall i :: 0 <= i < |l| ==> '\n' !in l[i];
    }
  }

  lemma BulletsNonEmpty(results: seq<WebResult>)
    requires results != []
    ensures Join("\n", Map(results, Bullet)) != []
  {
    var m := Map(results, Bullet);
    if |m| == 1 {
      assert m[0] == Bullet(results[0]);
      assert |m[0]| >= 2;
    } else {
      JoinLong("\n", m);
    }
  }

  /** With no hits the list is the single fallback bullet; otherwise, when the fields
      hold no line break, its lines are three per hit in hit order: the title, the
      link and the snippet. */
  lemma BulletPointsSpec(results: seq<WebResult>)
    ensures results == [] ==> BulletPoints(results) == NoResultsBullet
    ensures results != [] && (forall k :: 0 <= k < |results| ==>
        '\n' !in results[k].title && '\n' !in results[k].url && '\n' !in results[k].snippet)
      ==> var lines := Split(BulletPoints(results), "\n");
        && |lines| == 3 * |results|
        && forall k :: 0 <= k < |results| ==> lines[3 * k..3 * k + 3] == BulletLines(results[k])
  {
    if results != [] && (forall k :: 0 <= k < |results| ==>
        '\n' !in results[k].title && '\n' !in results[k].url && '\n' !in results[k].snippet) {
      BulletsNonEmpty(results);
      JoinNested(results);
      BulletLinesLack(results);
      BulletLinesCount(results);
      SplitJoinChar(FlatMap(results, BulletLines), '\n');
    }
  }

  /** A line of only spaces and tabs: `^[ \t]+$` in multi-line mode. */
  predicate WhitespaceOnly(line: string) {
    line != [] && forall i :: 0 <= i < |line| ==> line[i] == ' ' || line[i] == '\t'
  }

  function BlankLine(line: string): string {
    if WhitespaceOnly(line) then "" else line
  }

  /** `textwrap.dedent` for a text whose first line is not indented: no margin is
      common to all lines, so only the whitespace-only lines change, to empty lines. */
  function Dedent(text: string): string {
    Join("\n", Map(Split(text, "\n"), BlankLine))
  }

  /** Dedenting keeps the line structure, empties the whitespace-only lines and
      leaves a text without such lines unchanged. */
  lemma DedentSpec(text: string)
    ensures Split(Dedent(text), "\n") == Map(Split(text, "\n"), BlankLine)
    ensures (forall k :: 0 <= k < |Split(text, "\n")| ==> !WhitespaceOnly(Split(text, "\n")[k]))
      ==> Dedent(text) == text
  {
    var parts := Split(text, "\n");
    SplitCharLacks(text, '\n');
    var m := Map(parts, BlankLine);
    SplitJoinChar(m, '\n');
    if forall k :: 0 <= k < |parts| ==> !WhitespaceOnly(parts[k]) {
      assert m == parts;
      JoinSplitChar(text, '\n');
    }
  }

  const IntroLine := "你是一名科研规划顾问, 需要基于当前博士研究计划进行优化, " + "避免与公开研究雷同。"
  const PlanHeading := "### 当前计划"
  const ResultsHeading := "### 外部检索摘要"
  const ObjectiveHeading := "### 优化目标"
  const AskLine := "请结合外部信息与既有工作, 输出: "
  const AskOne := "1. 三条关键优化建议 (每条≤80字)。"
  const AskTwo := "2. 一份在原结构基础上的修订版计划" + "(如无必要可保持部分章节)。"
  const AskThree := "3. 标记需要进一步查证的内容并给出参考方向。"

  const PromptIntro := IntroLine + "\n\n" + PlanHeading + "\n"
  const PromptResults := "\n\n" + ResultsHeading + "\n"
  const PromptObjective := "\n\n" + ObjectiveHeading + "\n"
  const PromptAsk := "\n\n" + AskLine + "\n" + AskOne + "\n" + AskTwo + "\n" + AskThree + "\n"

  /** The prompt before dedenting: plan, bullet list and objective in their sections. */
  function PromptTemplate(planText: string, results: seq<WebResult>, objective: string): string {
    PromptIntro + planText + PromptResults + BulletPoints(results) + PromptObjective + objective + PromptAsk
  }

  /** The prompt sent to the model. */
  function BuildPrompt(planText: string, results: seq<WebResult>, objective: string): string {
    Dedent(PromptTemplate(planText, results, objective))
  }

  /** No line of the text is made of spaces and tabs only, so `Dedent` keeps it. */
  predicate KeepsLines(text: string) {
    forall k :: 0 <= k < |Split(text, "\n")| ==> !WhitespaceOnly(Split(text, "\n")[k])
  }

  /** Splitting at a character splits the two sides of one occurrence separately. */
  lemma SplitAround(a: string, b: string, c: char)
    ensures Split(a + [c] + b, [c]) == Split(a, [c]) + Split(b, [c])
  {
    var pa, pb := Split(a, [c]), Split(b, [c]);
    SplitCharLacks(a, c);
    SplitCharLacks(b, c);
    JoinSplitChar(a, c);
    JoinSplitChar(b, c);
    JoinConcat([c], pa, pb);
    SplitJoinChar(pa + pb, c);
  }

  lemma KeepsLinesJoin(a: string, b: string)
    requires KeepsLines(a) && KeepsLines(b)
    ensures KeepsLines(a + "\n" + b)
  {
    SplitAround(a, b, '\n');
  }

  /** One line that does not start with a space or a tab. */
  lemma KeepsLine(l: string)
    requires '\n' !in l
    requires l == [] || (l[0] != ' ' && l[0] != '\t')
    ensures KeepsLines(l)
  {
    FindAbsentChar(l, '\n');
    assert Split(l, "\n") == [l];
  }

  lemma {:induction false} BulletLinesKept(results: seq<WebResult>)
    ensures forall i :: 0 <= i < |FlatMap(results, BulletLines)| ==>
              !WhitespaceOnly(FlatMap(results, BulletLines)[i])
    decreases |results|
  {
    if results != [] {
      var init, x := results[..|results| - 1], results[|results| - 1];
      BulletLinesKept(init);
      var l := BulletLines(x);
      assert l[0][0] == '-' && l[1][2] == '链' && l[2][2] == '摘';
    }
  }

  /** The bullet list keeps its lines when no hit field holds a line break. */
  lemma BulletPointsKept(results: seq<WebResult>)
    requires forall k :: 0 <= k < |results| ==>
      '\n' !in results[k].title && '\n' !in results[k].url && '\n' !in results[k].snippet
    ensures KeepsLines(BulletPoints(results))
  {
    if results == [] {
      KeepsLine(NoResultsBullet);
    } else {
      BulletsNonEmpty(results);
      JoinNested(results);
      BulletLinesLack(results);
      BulletLinesKept(results);
      SplitJoinChar(FlatMap(results, BulletLines), '\n');
    }
  }

  /** A heading between two texts, set off by a blank line, adds no line of spaces only. */
  lemma KeepsSection(a: string, h: string, b: string)
    requires KeepsLines(a) && KeepsLines(h) && KeepsLines(b)
    ensures KeepsLines(a + ("\n\n" + h + "\n") + b)
  {
    assert KeepsLines("") by { KeepsLine(""); }
    KeepsLinesJoin(a, "");
    KeepsLinesJoin(a + "\n" + "", h);
    KeepsLinesJoin(a + "\n" + "" + "\n" + h, b);
    assert a + ("\n\n" + h + "\n") + b == a + "\n" + "" + "\n" + h + "\n" + b;
  }

  lemma KeepsAsk(x: string)
    requires KeepsLines(x)
    ensures KeepsLines(x + PromptAsk)
  {
    var y := x + ("\n\n" + AskLine + "\n") + AskOne;
    assert KeepsLines(y) by {
      assert KeepsLines(AskLine) by { KeepsLine(AskLine); }
      assert KeepsLines(AskOne) by { KeepsLine(AskOne); }
      KeepsSection(x, AskLine, AskOne);
    }
    var z := y + "\n" + AskTwo;
    assert KeepsLines(z) by {
      assert KeepsLines(AskTwo) by { KeepsLine(AskTwo); }
      KeepsLinesJoin(y, AskTwo);
    }
    var w := z + "\n" + AskThree;
    assert KeepsLines(w) by {
      assert KeepsLines(AskThree) by { KeepsLine(AskThree); }
      KeepsLinesJoin(z, AskThree);
    }
    assert KeepsLines(w + "\n" + "") by {
      assert KeepsLines("") by { KeepsLine(""); }
      KeepsLinesJoin(w, "");
    }
    AskShape(x);
  }

  lemma AskShape(x: string)
    ensures x + PromptAsk
      == x + ("\n\n" + AskLine + "\n") + AskOne + "\n" + AskTwo + "\n" + AskThree + "\n" + ""
  {
    Regroup4(x, AskLine, AskOne, AskTwo, AskThree);
  }

  lemma Regroup4(x: string, a: string, b: string, c: string, d: string)
    ensures x + ("\n\n" + a + "\n" + b + "\n" + c + "\n" + d + "\n")
      == x + ("\n\n" + a + "\n") + b + "\n" + c + "\n" + d + "\n" + ""
  {
  }

  /** The template keeps its lines when the plan, the bullet list and the objective do. */
  lemma TemplateKept(planText: string, bullets: string, objective: string)
    requires KeepsLines(planText) && KeepsLines(bullets) && KeepsLines(objective)
    ensures KeepsLines(PromptIntro + planText + PromptResults + bullets + PromptObjective + objective + PromptAsk)
  {
    assert KeepsLines(IntroLine) by { KeepsLine(IntroLine); }
    assert KeepsLines(PlanHeading) by { KeepsLine(PlanHeading); }
    assert KeepsLines(ResultsHeading) by { KeepsLine(ResultsHeading); }
    assert KeepsLines(ObjectiveHeading) by { KeepsLine(ObjectiveHeading); }
    KeepsSection(IntroLine, PlanHeading, planText);
    assert PromptIntro + planText == IntroLine + ("\n\n" + PlanHeading + "\n") + planText;
    var x1 := PromptIntro + planText;
    KeepsSection(x1, ResultsHeading, bullets);
    var x2 := x1 + PromptResults + bullets;
    KeepsSection(x2, ObjectiveHeading, objective);
    KeepsAsk(x2 + PromptObjective + objective);
  }

  /** When neither the plan nor the objective has a line of spaces and tabs only, and no
      hit field holds a line break, dedenting changes nothing: the prompt is the plan,
      the bullet list (the fallback bullet when there are no hits) and the objective, each
      under its heading. */
  lemma BuildPromptSpec(planText: string, results: seq<WebResult>, objective: string)
    requires KeepsLines(planText) && KeepsLines(objective)
    requires forall k :: 0 <= k < |results| ==>
      '\n' !in results[k].title && '\n' !in results[k].url && '\n' !in results[k].snippet
    ensures BuildPrompt(planText, results, objective) == PromptTemplate(planText, results, objective)
    ensures IsPrefix(PromptIntro + planText, BuildPrompt(planText, results, objective))
    ensures OccursAt(BuildPrompt(planText, results, objective),
                     PromptResults + BulletPoints(results) + PromptObjective, |PromptIntro| + |planText|)
    ensures results == [] ==>
              OccursAt(BuildPrompt(planText, results, objective), NoResultsBullet,
                       |PromptIntro| + |planText| + |PromptResults|)
  {
    var bullets := BulletPoints(results);
    var template := PromptTemplate(planText, results, objective);
    assert KeepsLines(template) by {
      BulletPointsKept(results);
      TemplateKept(planText, bullets, objective);
    }
    DedentSpec(template);
    TemplateParts(planText, bullets, objective);
    if results == [] {
      BulletPointsSpec(results);
    }
  }

  /** Where the plan and the bullet list sit in the template. */
  lemma TemplateParts(planText: string, bullets: string, objective: string)
    ensures var t := PromptIntro + planText + PromptResults + bullets + PromptObjective + objective + PromptAsk;
      && IsPrefix(PromptIntro + planText, t)
      && OccursAt(t, PromptResults + bullets + PromptObjective, |PromptIntro| + |planText|)
      && OccursAt(t, bullets, |PromptIntro| + |planText| + |PromptResults|)
  {
    var t := PromptIntro + planText + PromptResults + bullets + PromptObjective + objective + PromptAsk;
    var x1 := PromptIntro + planText;
    var mid := PromptResults + bullets + PromptObjective;
    assert t == x1 + mid + (objective + PromptAsk);
    assert t[..|x1|] == x1;
    assert t[|x1|..|x1| + |mid|] == mid;
    assert t[|x1| + |PromptResults|..|x1| + |PromptResults| + |bullets|] == bullets;
  }

  // ---------------------------------------------------------------- offline output

  const NoHeadings := "(未检测到标题)"
  const PreviewSeparator := "、"

  predicate IsHeadingMark(c: char) {
    c == '#' || c == ' '
  }

  /** A line whose stripped form starts with `#`. */
  predicate IsHeadingLine(line: string) {
    var s := Strip(line);
    s != [] && s[0] == '#'
  }

  /** The stripped line without its leading `#` and space characters. */
  function HeadingOf(line: string): string {
    TrimStart(Strip(line), IsHeadingMark)
  }

  /** The headings of the lines, in line order. */
  function HeadingsOf(lines: seq<string>): (r: seq<string>)
    ensures |r| <= |lines|
    decreases |lines|
  {
    if lines == [] then [] else HeadingsOf(lines[..|lines| - 1]) + HeadingPart(lines[|lines| - 1])
  }

  /** What one line contributes: its heading, if it is a heading line. */
  function HeadingPart(line: string): seq<string> {
    if IsHeadingLine(line) then [HeadingOf(line)] else []
  }

  lemma HeadingsSnoc(lines: seq<string>, n: nat)
    requires n < |lines|
    ensures HeadingsOf(lines[..n + 1]) == HeadingsOf(lines[..n]) + HeadingPart(lines[n])
  {
    assert lines[..n + 1][..n] == lines[..n];
  }

  /** Collect the headings of a plan, line by line. */
  method ExtractHeadings(planText: string) returns (headings: seq<string>)
    ensures headings == HeadingsOf(SplitLines(planText))
  {
    var lines := SplitLines(planText);
    headings := [];
    for i := 0 to |lines|
      invariant headings == HeadingsOf(lines[..i])
    {
      HeadingsSnoc(lines, i);
      var stripped := Strip(lines[i]);
      if stripped != [] && stripped[0] == '#' {
        assert HeadingPart(lines[i]) == [HeadingOf(lines[i])];
        headings := headings + [TrimStart(stripped, IsHeadingMark)];
      } else {
        assert HeadingPart(lines[i]) == [];
      }
    }
    assert lines[..|lines|] == lines;
  }

  /** The headings are the heading lines, filtered in order and then cleaned. */
  lemma {:induction false} HeadingsAsFilter(lines: seq<string>)
    ensures HeadingsOf(lines) == Map(Filter(lines, IsHeadingLine), HeadingOf)
    decreases |lines|
  {
    if lines != [] {
      var init := lines[..|lines| - 1];
      HeadingsAsFilter(init);
      var f := Filter(lines, IsHeadingLine);
      if IsHeadingLine(lines[|lines| - 1]) {
        assert f[..|f| - 1] == Filter(init, IsHeadingLine);
      }
    }
  }

  /** A heading starts with neither `#` nor a space and does not end in whitespace. */
  predicate CleanHeading(h: string) {
    h != [] ==> !IsHeadingMark(h[0]) && !IsSpace(h[|h| - 1])
  }

  lemma HeadingOfClean(line: string)
    ensures CleanHeading(HeadingOf(line))
  {
    var s := Strip(line);
    var h := TrimStart(s, IsHeadingMark);
    StripEnds(line);
    if h != [] {
      assert h[|h| - 1] == s[|s| - 1];
    }
  }

  predicate AllClean(headings: seq<string>) {
    forall k :: 0 <= k < |headings| ==> CleanHeading(headings[k])
  }

  lemma AllCleanAppend(a: seq<string>, b: seq<string>)
    requires AllClean(a) && AllClean(b)
    ensures AllClean(a + b)
  {
    forall k | 0 <= k < |a + b|
      ensures CleanHeading((a + b)[k])
    {
      if k < |a| {
        assert (a + b)[k] == a[k];
      } else {
        assert (a + b)[k] == b[k - |a|];
      }
    }
  }

  lemma HeadingPartClean(line: string)
    ensures AllClean(HeadingPart(line))
  {
    if IsHeadingLine(line) {
      HeadingOfClean(line);
      assert HeadingPart(line) == [HeadingOf(line)];
    }
  }

  /** Every heading is clean. */
  lemma {:induction false} HeadingsClean(lines: seq<string>)
    ensures AllClean(HeadingsOf(lines))
    decreases |lines|
  {
    if lines != [] {
      var init, last := lines[..|lines| - 1], lines[|lines| - 1];
      HeadingsClean(init);
      HeadingPartClean(last);
      AllCleanAppend(HeadingsOf(init), HeadingPart(last));
    }
  }

  /** The heading preview: the first five headings joined, or the placeholder when the
      join is empty. */
  function Preview(headings: seq<string>): string {
    var joined := Join(PreviewSeparator, SliceTo(headings, 5));
    if joined == [] then NoHeadings else joined
  }

  /** No headings give the placeholder; a single heading shows as itself unless it is
      empty; two or more show as the first five joined. When the first heading is
      non-empty and none holds the separator, splitting the preview gives the first
      five headings back. */
  lemma PreviewSpec(headings: seq<string>)
    ensures headings == [] ==> Preview(headings) == NoHeadings
    ensures |headings| == 1 ==> Preview(headings) == if headings[0] == [] then NoHeadings else headings[0]
    ensures |headings| >= 2 ==> Preview(headings) == Join(PreviewSeparator, SliceTo(headings, 5))
    ensures headings != [] && headings[0] != [] &&
      (forall k :: 0 <= k < |headings| ==> '、' !in headings[k])
      ==> Split(Preview(headings), PreviewSeparator) == SliceTo(headings, 5)
  {
    var first := SliceTo(headings, 5);
    if |headings| >= 2 {
      JoinLong(PreviewSeparator, first);
    }
    if headings != [] && headings[0] != [] && (forall k :: 0 <= k < |headings| ==> '、' !in headings[k]) {
      if |headings| == 1 {
        assert first == [headings[0]];
      } else {
        JoinLong(PreviewSeparator, first);
      }
      SplitJoinChar(first, '、');
    }
  }

  const OfflineHead := "## 离线优化建议\n\n### 关键优化建议\n1. 强化数据治理与质量控制流程, 明确数据溯源与共享机制。\n2. 在方法部分加入可复现性计划, 指定评估指标与开源策略。\n3. 规划跨学科合作资源, 对接潜在临床或工程伙伴。\n\n### 修订参考草案\n沿用原有章节结构 ("
  const OfflineMid := ")，针对“"
  const OfflineTail := "”目标：\n- 在研究背景中补充对最新政策与指南的对照分析。\n- 在技术路线章节加入实验设计表格与关键里程碑。\n- 在临床转化/推广章节说明伦理合规、数据安全与可持续运营。\n\n### 待进一步查证\n- 核实当前数据资源的授权范围与外部合作限制。\n- 更新近一年高影响力期刊中的相关研究以避免同质化。\n- 对国内外资助项目或多中心协作机会进行调研。\n"

  function OfflineTemplate(preview: string, objective: string): string {
    OfflineHead + preview + OfflineMid + objective + OfflineTail
  }

  /** The suggestions written without the model: fixed advice around the plan's
      heading preview and the objective. */
  method GenerateOfflineOutput(planText: string, objective: string) returns (output: string)
    ensures output == Dedent(OfflineTemplate(Preview(HeadingsOf(SplitLines(planText))), objective))
  {
    var headings := ExtractHeadings(planText);
    var preview := Preview(headings);
    output := Dedent(OfflineTemplate(preview, objective));
  }

  // ---------------------------------------------------------------- output file name

  const OptimizedSuffix := "_optimized.md"

  /** `s.rfind(c)`, with `None` for Python's -1. */
  function LastIndex(s: string, c: char): (r: Option<nat>)
    ensures r.Some? ==> r.value < |s| && s[r.value] == c
    ensures r.Some? ==> forall j :: r.value < j < |s| ==> s[j] != c
    ensures r.None? <==> c !in s
    decreases |s|
  {
    if s == [] then None
    else if s[|s| - 1] == c then Some(|s| - 1)
    else LastIndex(s[..|s| - 1], c)
  }

  /** `os.path.basename`: the text after the last `/`. */
  function Basename(path: string): string {
    match LastIndex(path, '/')
    case None => path
    case Some(i) => path[i + 1..]
  }

  /** The name has an extension when its last `.` follows some other character. */
  predicate HasExtension(name: string, d: nat)
    requires d < |name|
  {
    exists k :: 0 <= k < d && name[k] != '.'
  }

  /** `os.path.splitext(name)[0]` for a name without `/`: drop the last extension;
      leading dots do not start one. */
  function SplitExtRoot(name: string): string {
    match LastIndex(name, '.')
    case None => name
    case Some(d) => if HasExtension(name, d) then name[..d] else name
  }

  /** The name of the optimised plan: the plan's base name without extension. */
  function OutputFileName(planPath: string): string {
    SplitExtRoot(Basename(planPath)) + OptimizedSuffix
  }

  /** `os.path.join(dir, name)`. */
  function PathJoin(dir: string, name: string): string {
    if name != [] && name[0] == '/' then name
    else if dir == [] || dir[|dir| - 1] == '/' then dir + name
    else dir + "/" + name
  }

  /** The destination: the output directory when one is given and non-empty, else the
      working directory, which is a parameter here. */
  function OutputPath(planPath: string, outputDir: Option<string>, cwd: string): string {
    var target := if outputDir.Some? && outputDir.value != [] then outputDir.value else cwd;
    PathJoin(target, OutputFileName(planPath))
  }

  /** The base name is the part of the path after its last `/`. */
  lemma BasenameSpec(path: string)
    ensures var b := Basename(path);
      && IsSuffix(b, path) && '/' !in b
      && (|b| < |path| ==> path[|path| - |b| - 1] == '/')
  {
    match LastIndex(path, '/')
    case None =>
    case Some(i) =>
      var b := path[i + 1..];
      forall k | 0 <= k < |b|
        ensures b[k] != '/'
      {
        assert b[k] == path[i + 1 + k];
      }
  }

  /** The root is a prefix of the name; what it drops is empty or one extension (a
      `.` and no other), and it drops one exactly when the last `.` follows some
      character other than a dot. */
  lemma SplitExtSpec(name: string)
    ensures var root := SplitExtRoot(name);
      var ext := name[|root|..];
      && IsPrefix(root, name)
      && (ext == [] || (ext[0] == '.' && '.' !in ext[1..]))
      && (ext != [] <==> exists d :: 0 <= d < |name| && name[d] == '.' && HasExtension(name, d))
  {
    var root := SplitExtRoot(name);
    match LastIndex(name, '.')
    case None =>
    case Some(d) =>
      var ext := name[|root|..];
      if HasExtension(name, d) {
        forall k | 0 <= k < |ext[1..]|
          ensures ext[1..][k] != '.'
        {
          assert ext[1..][k] == name[d + 1 + k];
        }
      } else {
        forall d' | 0 <= d' < |name| && name[d'] == '.'
          ensures !HasExtension(name, d')
        {
          assert d' <= d;
        }
      }
  }

  /** The file name ends in `_optimized.md` after the plan's root name, and holds no
      `/`. */
  lemma OutputFileNameSpec(planPath: string)
    ensures IsPrefix(SplitExtRoot(Basename(planPath)), Basename(planPath))
    ensures IsSuffix(OptimizedSuffix, OutputFileName(planPath))
    ensures '/' !in OutputFileName(planPath)
  {
    var b := Basename(planPath);
    BasenameSpec(planPath);
    SplitExtSpec(b);
    var root := SplitExtRoot(b);
    forall k | 0 <= k < |root|
      ensures root[k] != '/'
    {
      assert root[k] == b[k];
    }
    assert '/' !in OptimizedSuffix;
  }

  lemma {:induction false} LastIndexAfter(dir: string, name: string, c: char)
    requires c !in name
    requires dir != [] && dir[|dir| - 1] == c
    ensures LastIndex(dir + name, c) == Some(|dir| - 1)
    decreases |name|
  {
    if name == [] {
      assert dir + name == dir;
    } else {
      var init := name[..|name| - 1];
      assert (dir + name)[..|dir + name| - 1] == dir + init;
      assert name[|name| - 1] in name;
      LastIndexAfter(dir, init, c);
    }
  }

  /** Joining a directory and a plain name gives a path whose base name is the name. */
  lemma BasenameJoin(dir: string, name: string)
    requires name != [] && '/' !in name
    ensures Basename(PathJoin(dir, name)) == name
  {
    assert name[0] in name;
    if dir == [] {
      assert PathJoin(dir, name) == name;
    } else if dir[|dir| - 1] == '/' {
      LastIndexAfter(dir, name, '/');
      assert (dir + name)[|dir|..] == name;
    } else {
      var d := dir + "/";
      assert PathJoin(dir, name) == d + name;
      LastIndexAfter(d, name, '/');
      assert (d + name)[|d|..] == name;
    }
  }

  /** The written file lies in the chosen directory under the computed name: the base
      name of the destination is the output file name. */
  lemma OutputPathBasename(planPath: string, outputDir: Option<string>, cwd: string)
    ensures Basename(OutputPath(planPath, outputDir, cwd)) == OutputFileName(planPath)
  {
    var target := if outputDir.Some? && outputDir.value != [] then outputDir.value else cwd;
    OutputFileNameSpec(planPath);
    BasenameJoin(target, OutputFileName(planPath));
  }
}
