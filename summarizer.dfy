/** `pipeline/summarizer.py`: the lines of the Markdown summary, the paragraphs of the
    Word summary, and the XML of one Word paragraph. */
module Summarizer {
  import opened Wrappers
  import opened Text
  import opened Records
  import opened Collections

  const MarkdownHeader: seq<string> := [
    "# 文献自动总结",
    "",
    "以下内容基于离线示例数据生成，真实环境请替换为实际抓取结果。",
    ""
  ]

  const DocxHeader: seq<string> := [
    "文献自动总结",
    "",
    "以下内容基于离线示例数据生成，真实环境请替换为实际抓取结果。",
    ""
  ]

  /** `item.doi or 'N/A'`. */
  function DoiOrNA(doi: string): string {
    if doi == "" then "N/A" else doi
  }

  /** The ten lines `write_markdown` writes for one record. */
  function MarkdownBlock(item: SearchResult): (b: seq<string>)
    ensures |b| == 10
  {
    [ "## " + item.title,
      "- 来源：" + item.source,
      "- 年份：" + IntToString(item.year),
      "- 刊物：" + item.journal,
      "- DOI：" + DoiOrNA(item.doi),
      "- 研究类型：" + item.studyType,
      "- 样本量：" + item.sampleSize,
      "- 影像学：" + Join("、", item.imagingModality),
      "- 主要发现：" + item.keyFindings,
      "" ]
  }

  /** The ten paragraphs `write_docx` writes for one record. */
  function DocxBlock(item: SearchResult): (b: seq<string>)
    ensures |b| == 10
  {
    [ item.title,
      "来源：" + item.source,
      "年份：" + IntToString(item.year),
      "刊物：" + item.journal,
      "DOI：" + DoiOrNA(item.doi),
      "研究类型：" + item.studyType,
      "样本量：" + item.sampleSize,
      "影像学：" + Join("、", item.imagingModality),
      "主要发现：" + item.keyFindings,
      "" ]
  }

  // ---------------------------------------------------------------- reading a block back

  /** What a reader takes from a line that starts with `tag`: the rest of the line. */
  function FieldValue(tag: string, line: string): Option<string> {
    if IsPrefix(tag, line) then Some(line[|tag|..]) else None
  }

  lemma LabelRead(tag: string, v: string)
    ensures FieldValue(tag, tag + v) == Some(v)
  {
    assert (tag + v)[..|tag|] == tag;
  }

  /** The year line reads back as the record's year. */
  lemma YearRead(tag: string, year: int)
    ensures FieldValue(tag, tag + IntToString(year)).Some?
    ensures ParseInt(FieldValue(tag, tag + IntToString(year)).value) == Some(year)
  {
    LabelRead(tag, IntToString(year));
    IntRoundTrip(year);
  }

  /** The modality line is empty for no modalities, and otherwise splits at "、" back
      into the modalities, provided none of them holds that mark itself. */
  lemma ModalitiesRead(tag: string, ms: seq<string>)
    ensures FieldValue(tag, tag + Join("、", ms)) == Some(Join("、", ms))
    ensures ms == [] ==> tag + Join("、", ms) == tag
    ensures ms != [] && (forall i :: 0 <= i < |ms| ==> '、' !in ms[i]) ==>
              Split(Join("、", ms), "、") == ms
  {
    LabelRead(tag, Join("、", ms));
    if ms != [] && (forall i :: 0 <= i < |ms| ==> '、' !in ms[i]) {
      assert "、" == ['、'];
      SplitJoinChar(ms, '、');
    }
  }

  /** Each line of a Markdown block carries one field of the record after its label:
      title, source, journal, study type, sample size and findings as given, the year
      as its decimal text, "N/A" for an empty DOI, and the modalities joined by "、". */
  lemma MarkdownBlockFields(x: SearchResult)
    ensures |MarkdownBlock(x)| == 10
    ensures FieldValue("## ", MarkdownBlock(x)[0]) == Some(x.title)
    ensures FieldValue("- 来源：", MarkdownBlock(x)[1]) == Some(x.source)
    ensures FieldValue("- 年份：", MarkdownBlock(x)[2]).Some?
    ensures ParseInt(FieldValue("- 年份：", MarkdownBlock(x)[2]).value) == Some(x.year)
    ensures FieldValue("- 刊物：", MarkdownBlock(x)[3]) == Some(x.journal)
    ensures x.doi == "" ==> MarkdownBlock(x)[4] == "- DOI：N/A"
    ensures x.doi != "" ==> FieldValue("- DOI：", MarkdownBlock(x)[4]) == Some(x.doi)
    ensures FieldValue("- 研究类型：", MarkdownBlock(x)[5]) == Some(x.studyType)
    ensures FieldValue("- 样本量：", MarkdownBlock(x)[6]) == Some(x.sampleSize)
    ensures x.imagingModality == [] ==> MarkdownBlock(x)[7] == "- 影像学："
    ensures x.imagingModality != [] && (forall i :: 0 <= i < |x.imagingModality| ==>
              '、' !in x.imagingModality[i]) ==>
              FieldValue("- 影像学：", MarkdownBlock(x)[7]).Some? &&
              Split(FieldValue("- 影像学：", MarkdownBlock(x)[7]).value, "、") == x.imagingModality
    ensures FieldValue("- 主要发现：", MarkdownBlock(x)[8]) == Some(x.keyFindings)
    ensures MarkdownBlock(x)[9] == ""
  {
    assert FieldValue("## ", MarkdownBlock(x)[0]) == Some(x.title) by { LabelRead("## ", x.title); }
    assert FieldValue("- 来源：", MarkdownBlock(x)[1]) == Some(x.source) by { LabelRead("- 来源：", x.source); }
    assert FieldValue("- 刊物：", MarkdownBlock(x)[3]) == Some(x.journal) by { LabelRead("- 刊物：", x.journal); }
    assert FieldValue("- 研究类型：", MarkdownBlock(x)[5]) == Some(x.studyType) by { LabelRead("- 研究类型：", x.studyType); }
    assert FieldValue("- 样本量：", MarkdownBlock(x)[6]) == Some(x.sampleSize) by { LabelRead("- 样本量：", x.sampleSize); }
    assert FieldValue("- 主要发现：", MarkdownBlock(x)[8]) == Some(x.keyFindings) by { LabelRead("- 主要发现：", x.keyFindings); }
    assert MarkdownBlock(x)[2] == "- 年份：" + IntToString(x.year);
    YearRead("- 年份：", x.year);
    assert MarkdownBlock(x)[4] == "- DOI：" + DoiOrNA(x.doi);
    LabelRead("- DOI：", x.doi);
    assert MarkdownBlock(x)[7] == "- 影像学：" + Join("、", x.imagingModality);
    ModalitiesRead("- 影像学：", x.imagingModality);
  }

  /** The Word block carries the same fields as the Markdown one: the title as the
      whole first paragraph, and each other field after its label. */
  lemma DocxBlockFields(x: SearchResult)
    ensures |DocxBlock(x)| == 10
    ensures DocxBlock(x)[0] == x.title
    ensures FieldValue("来源：", DocxBlock(x)[1]) == Some(x.source)
    ensures FieldValue("年份：", DocxBlock(x)[2]).Some?
    ensures ParseInt(FieldValue("年份：", DocxBlock(x)[2]).value) == Some(x.year)
    ensures FieldValue("刊物：", DocxBlock(x)[3]) == Some(x.journal)
    ensures x.doi == "" ==> DocxBlock(x)[4] == "DOI：N/A"
    ensures x.doi != "" ==> FieldValue("DOI：", DocxBlock(x)[4]) == Some(x.doi)
    ensures FieldValue("研究类型：", DocxBlock(x)[5]) == Some(x.studyType)
    ensures FieldValue("样本量：", DocxBlock(x)[6]) == Some(x.sampleSize)
    ensures x.imagingModality == [] ==> DocxBlock(x)[7] == "影像学："
    ensures x.imagingModality != [] && (forall i :: 0 <= i < |x.imagingModality| ==>
              '、' !in x.imagingModality[i]) ==>
              FieldValue("影像学：", DocxBlock(x)[7]).Some? &&
              Split(FieldValue("影像学：", DocxBlock(x)[7]).value, "、") == x.imagingModality
    ensures FieldValue("主要发现：", DocxBlock(x)[8]) == Some(x.keyFindings)
    ensures DocxBlock(x)[9] == ""
  {
    assert FieldValue("来源：", DocxBlock(x)[1]) == Some(x.source) by { LabelRead("来源：", x.source); }
    assert FieldValue("刊物：", DocxBlock(x)[3]) == Some(x.journal) by { LabelRead("刊物：", x.journal); }
    assert FieldValue("研究类型：", DocxBlock(x)[5]) == Some(x.studyType) by { LabelRead("研究类型：", x.studyType); }
    assert FieldValue("样本量：", DocxBlock(x)[6]) == Some(x.sampleSize) by { LabelRead("样本量：", x.sampleSize); }
    assert FieldValue("主要发现：", DocxBlock(x)[8]) == Some(x.keyFindings) by { LabelRead("主要发现：", x.keyFindings); }
    assert DocxBlock(x)[2] == "年份：" + IntToString(x.year);
    YearRead("年份：", x.year);
    assert DocxBlock(x)[4] == "DOI：" + DoiOrNA(x.doi);
    LabelRead("DOI：", x.doi);
    assert DocxBlock(x)[7] == "影像学：" + Join("、", x.imagingModality);
    ModalitiesRead("影像学：", x.imagingModality);
  }

  /** With ten lines per record, line `10 * i + k` is line `k` of record `i`'s block. */
  lemma {:induction false} BlocksAt(results: seq<SearchResult>, block: SearchResult -> seq<string>)
    requires forall x :: |block(x)| == 10
    ensures |FlatMap(results, block)| == 10 * |results|
    ensures forall i, k :: 0 <= i < |results| && 0 <= k < 10 ==>
              FlatMap(results, block)[10 * i + k] == block(results[i])[k]
    decreases |results|
  {
    if results != [] {
      var init := results[..|results| - 1];
      BlocksAt(init, block);
      forall i, k | 0 <= i < |results| && 0 <= k < 10
        ensures FlatMap(results, block)[10 * i + k] == block(results[i])[k]
      {
        if i < |init| {
          assert results[i] == init[i];
        }
      }
    }
  }

  lemma HeaderBlocksAt(header: seq<string>, results: seq<SearchResult>, block: SearchResult -> seq<string>)
    requires |header| == 4
    requires forall x :: |block(x)| == 10
    ensures |header + FlatMap(results, block)| == 4 + 10 * |results|
    ensures forall i, k :: 0 <= i < |results| && 0 <= k < 10 ==>
              (header + FlatMap(results, block))[4 + 10 * i + k] == block(results[i])[k]
  {
    BlocksAt(results, block);
  }

  /** The `lines` list of `write_markdown`: four header lines, then ten per record. */
  method MarkdownLines(results: seq<SearchResult>) returns (lines: seq<string>)
    ensures lines == MarkdownHeader + FlatMap(results, MarkdownBlock)
    ensures |lines| == 4 + 10 * |results|
    ensures forall i, k :: 0 <= i < |results| && 0 <= k < 10 ==>
              lines[4 + 10 * i + k] == MarkdownBlock(results[i])[k]
  {
    lines := MarkdownHeader;
    var n := 0;
    while n < |results|
      invariant 0 <= n <= |results|
      invariant lines == MarkdownHeader + FlatMap(results[..n], MarkdownBlock)
    {
      FlatMapExtend(MarkdownHeader, results, MarkdownBlock, n);
      lines := lines + MarkdownBlock(results[n]);
      n := n + 1;
    }
    assert results[..n] == results;
    HeaderBlocksAt(MarkdownHeader, results, MarkdownBlock);
  }

  /** The text written to the Markdown file. */
  function MarkdownText(lines: seq<string>): string {
    Join("\n", lines)
  }

  /** The `paragraphs` list of `write_docx`: four header entries, then ten per record. */
  method DocxParagraphs(results: seq<SearchResult>) returns (paragraphs: seq<string>)
    ensures paragraphs == DocxHeader + FlatMap(results, DocxBlock)
    ensures |paragraphs| == 4 + 10 * |results|
    ensures forall i, k :: 0 <= i < |results| && 0 <= k < 10 ==>
              paragraphs[4 + 10 * i + k] == DocxBlock(results[i])[k]
  {
    paragraphs := DocxHeader;
    var n := 0;
    while n < |results|
      invariant 0 <= n <= |results|
      invariant paragraphs == DocxHeader + FlatMap(results[..n], DocxBlock)
    {
      FlatMapExtend(DocxHeader, results, DocxBlock, n);
      paragraphs := paragraphs + DocxBlock(results[n]);
      n := n + 1;
    }
    assert results[..n] == results;
    HeaderBlocksAt(DocxHeader, results, DocxBlock);
  }

  // ---------------------------------------------------------------- XML

  function EscapeChar(c: char): string {
    if c == '&' then "&amp;" else if c == '<' then "&lt;" else if c == '>' then "&gt;" else [c]
  }

  /** `xml.sax.saxutils.escape` with no extra entities. It replaces "&" first, so no
      entity it writes is escaped again, and it acts character by character. */
  function Escape(s: string): string
    decreases |s|
  {
    if s == [] then [] else EscapeChar(s[0]) + Escape(s[1..])
  }

  /** The inverse of `Escape`: the three entities back to their characters. */
  function Unescape(t: string): string
    decreases |t|
  {
    if t == [] then []
    else if IsPrefix("&amp;", t) then "&" + Unescape(t[5..])
    else if IsPrefix("&lt;", t) then "<" + Unescape(t[4..])
    else if IsPrefix("&gt;", t) then ">" + Unescape(t[4..])
    else [t[0]] + Unescape(t[1..])
  }

  /** Reading back one escaped character gives that character. */
  lemma UnescapeAfterChar(c: char, rest: string)
    ensures Unescape(EscapeChar(c) + rest) == [c] + Unescape(rest)
  {
    if c == '&' {
      UnescapeAmp(rest);
    } else if c == '<' {
      UnescapeLt(rest);
    } else if c == '>' {
      UnescapeGt(rest);
    } else {
      UnescapePlain(c, rest);
    }
  }

  lemma UnescapeAmp(rest: string)
    ensures Unescape("&amp;" + rest) == "&" + Unescape(rest)
  {
    var t := "&amp;" + rest;
    assert IsPrefix("&amp;", t) && t[5..] == rest;
  }

  lemma UnescapeLt(rest: string)
    ensures Unescape("&lt;" + rest) == "<" + Unescape(rest)
  {
    var t := "&lt;" + rest;
    assert t[1] == 'l' && !IsPrefix("&amp;", t);
    assert IsPrefix("&lt;", t) && t[4..] == rest;
  }

  lemma UnescapeGt(rest: string)
    ensures Unescape("&gt;" + rest) == ">" + Unescape(rest)
  {
    var t := "&gt;" + rest;
    assert t[1] == 'g' && !IsPrefix("&amp;", t) && !IsPrefix("&lt;", t);
    assert IsPrefix("&gt;", t) && t[4..] == rest;
  }

  lemma UnescapePlain(c: char, rest: string)
    requires c != '&'
    ensures Unescape([c] + rest) == [c] + Unescape(rest)
  {
    var t := [c] + rest;
    assert t[0] == c && t[1..] == rest;
  }

  lemma {:induction false} EscapeRoundTrip(s: string)
    ensures Unescape(Escape(s)) == s
    decreases |s|
  {
    if s != [] {
      EscapeRoundTrip(s[1..]);
      UnescapeAfterChar(s[0], Escape(s[1..]));
      assert s == [s[0]] + s[1..];
    }
  }

  /** Escaped text holds no markup brackets. */
  lemma {:induction false} EscapeNoBrackets(s: string)
    ensures '<' !in Escape(s) && '>' !in Escape(s)
    decreases |s|
  {
    if s != [] {
      EscapeNoBrackets(s[1..]);
    }
  }

  const ParagraphOpen := "<w:p><w:r><w:t xml:space=\"preserve\">"
  const ParagraphClose := "</w:t></w:r></w:p>"

  /** `paragraph_xml`: an empty paragraph element for empty text, otherwise one run with
      the escaped text, spaces preserved. */
  function ParagraphXml(text: string): (x: string)
    ensures text == "" <==> x == "<w:p/>"
  {
    if text == "" then "<w:p/>" else ParagraphOpen + Escape(text) + ParagraphClose
  }

  /** Read the text back out of a paragraph element built by `ParagraphXml`. */
  function ParagraphText(x: string): Option<string> {
    if x == "<w:p/>" then Some("")
    else if IsPrefix(ParagraphOpen, x) && IsSuffix(ParagraphClose, x)
            && |ParagraphOpen| + |ParagraphClose| <= |x|
    then Some(Unescape(x[|ParagraphOpen|..|x| - |ParagraphClose|]))
    else None
  }

  lemma ParagraphRoundTrip(text: string)
    ensures ParagraphText(ParagraphXml(text)) == Some(text)
  {
    if text != "" {
      var x := ParagraphXml(text);
      var e := Escape(text);
      assert x[..|ParagraphOpen|] == ParagraphOpen;
      assert x[|x| - |ParagraphClose|..] == ParagraphClose;
      assert x[|ParagraphOpen|..|x| - |ParagraphClose|] == e;
      EscapeRoundTrip(text);
    }
  }

  /** `"".join(paragraph_xml(line) for line in paragraphs)`. */
  function Body(paragraphs: seq<string>): string {
    FlatMap(paragraphs, ParagraphXml)
  }

  const EmptyParagraph := "<w:p/>"

  /** Read a body back into its paragraphs: each element is either the empty paragraph
      or a run whose escaped text ends at the first closing tag. */
  function ReadParagraphs(s: string): Option<seq<string>>
    decreases |s|
  {
    if s == [] then Some([])
    else if IsPrefix(EmptyParagraph, s) then
      match ReadParagraphs(s[|EmptyParagraph|..])
      case None => None
      case Some(ps) => Some([""] + ps)
    else if IsPrefix(ParagraphOpen, s) then
      var rest := s[|ParagraphOpen|..];
      match Find(rest, ParagraphClose)
      case None => None
      case Some(i) =>
        match ReadParagraphs(rest[i + |ParagraphClose|..])
        case None => None
        case Some(ps) => Some([Unescape(rest[..i])] + ps)
    else None
  }

  /** Put a paragraph in front of a successful read. */
  function Prepend(text: string, r: Option<seq<string>>): Option<seq<string>> {
    match r
    case None => None
    case Some(ps) => Some([text] + ps)
  }

  lemma ReadEmptyStep(tail: string)
    ensures ReadParagraphs(EmptyParagraph + tail) == Prepend("", ReadParagraphs(tail))
  {
    var s := EmptyParagraph + tail;
    assert IsPrefix(EmptyParagraph, s) && s[|EmptyParagraph|..] == tail;
  }

  /** A run whose escaped text holds no "<" ends at the first closing tag after it. */
  lemma ReadRunStep(e: string, tail: string)
    requires '<' !in e
    ensures ReadParagraphs(ParagraphOpen + e + ParagraphClose + tail)
              == Prepend(Unescape(e), ReadParagraphs(tail))
  {
    var s := ParagraphOpen + e + ParagraphClose + tail;
    assert s[4] == '>';
    assert !IsPrefix(EmptyParagraph, s);
    assert s[..|ParagraphOpen|] == ParagraphOpen;
    var rest := s[|ParagraphOpen|..];
    assert rest == e + ParagraphClose + tail;
    FindAfterLacking(e, ParagraphClose, tail);
    assert rest[..|e|] == e && rest[|e| + |ParagraphClose|..] == tail;
  }

  /** One paragraph element followed by anything: the reader takes that paragraph's text
      off the front and carries on after its element. */
  lemma ReadParagraphsStep(text: string, tail: string)
    ensures ReadParagraphs(ParagraphXml(text) + tail) == Prepend(text, ReadParagraphs(tail))
  {
    if text == "" {
      ReadEmptyStep(tail);
    } else {
      EscapeNoBrackets(text);
      ReadRunStep(Escape(text), tail);
      EscapeRoundTrip(text);
    }
  }

  /** Reading a body back gives exactly the paragraphs it was built from. */
  lemma {:induction false} BodyRoundTrip(paragraphs: seq<string>)
    ensures ReadParagraphs(Body(paragraphs)) == Some(paragraphs)
    decreases |paragraphs|
  {
    if paragraphs != [] {
      var p, rest := paragraphs[0], paragraphs[1..];
      assert paragraphs == [p] + rest;
      BodyAppend([p], rest);
      assert Body([p]) == ParagraphXml(p) by {
        assert [p][..0] == [];
        assert FlatMap([p][..0], ParagraphXml) == [];
      }
      BodyRoundTrip(rest);
      ReadParagraphsStep(p, Body(rest));
    }
  }

  /** The body of a list is the bodies of any split of it, glued. */
  lemma BodyAppend(a: seq<string>, b: seq<string>)
    ensures Body(a + b) == Body(a) + Body(b)
  {
    FlatMapAppend(a, b, ParagraphXml);
  }

  const DocumentOpen := "<?xml version=\"1.0\" encoding=\"UTF-8\" standalone=\"yes\"?>"
    + "<w:document xmlns:w=\"http://schemas.openxmlformats.org/wordprocessingml/2006/main\">"
    + "<w:body>"

  const DocumentClose := "<w:sectPr>"
    + "<w:pgSz w:w=\"11906\" w:h=\"16838\"/>"
    + "<w:pgMar w:top=\"1440\" w:right=\"1440\" w:bottom=\"1440\" w:left=\"1440\" "
    + "w:header=\"708\" w:footer=\"708\" w:gutter=\"0\"/>"
    + "<w:cols w:space=\"708\"/>"
    + "<w:docGrid w:linePitch=\"360\"/>"
    + "</w:sectPr>"
    + "</w:body>"
    + "</w:document>"

  /** `word/document.xml`: the body between the fixed opening and section properties. */
  function DocumentXml(paragraphs: seq<string>): (x: string)
    ensures IsPrefix(DocumentOpen, x) && IsSuffix(DocumentClose, x)
    ensures |x| == |DocumentOpen| + |Body(paragraphs)| + |DocumentClose|
    ensures x[|DocumentOpen|..|x| - |DocumentClose|] == Body(paragraphs)
  {
    DocumentOpen + Body(paragraphs) + DocumentClose
  }

  /** Read the paragraphs back out of a `word/document.xml`. */
  function ReadDocument(x: string): Option<seq<string>> {
    if IsPrefix(DocumentOpen, x) && IsSuffix(DocumentClose, x)
       && |DocumentOpen| + |DocumentClose| <= |x|
    then ReadParagraphs(x[|DocumentOpen|..|x| - |DocumentClose|])
    else None
  }

  /** The document holds the paragraphs it was written from, in order, each readable. */
  lemma DocumentRoundTrip(paragraphs: seq<string>)
    ensures ReadDocument(DocumentXml(paragraphs)) == Some(paragraphs)
  {
    BodyRoundTrip(paragraphs);
  }
}
