/**
 * The results display: the Markdown and XML renderings of the ordered list
 * of crawled pages (`formatContent`), and the per-page files of the zip
 * download (`handleDownloadZip`).
 */
module ResultsDisplay {
  import opened JsText
  import opened Pages
  import opened XmlEscape
  import opened LineRewrite

  // ---------------------------------------------------------------- Markdown

  /** One page's block in the Markdown tab: its URL as a heading, its content, a rule. */
  function MarkdownBlock(r: CrawlResult): string {
    "# " + r.url + "\n\n" + r.content + "\n\n---\n\n"
  }

  function MarkdownBlocks(results: seq<CrawlResult>): seq<string> {
    seq(|results|, i requires 0 <= i < |results| => MarkdownBlock(results[i]))
  }

  /** `formatContent("markdown")`: the blocks joined with nothing between them. */
  function FormatMarkdown(results: seq<CrawlResult>): string {
    Join(MarkdownBlocks(results), "")
  }

  /** The Markdown of two lists of pages is the Markdown of each, one after the other. */
  lemma MarkdownAppend(a: seq<CrawlResult>, b: seq<CrawlResult>)
    ensures FormatMarkdown(a + b) == FormatMarkdown(a) + FormatMarkdown(b)
  {
    assert MarkdownBlocks(a + b) == MarkdownBlocks(a) + MarkdownBlocks(b);
    ConcatAppend(MarkdownBlocks(a), MarkdownBlocks(b));
  }

  /**
   * Page `i` contributes exactly its own block, after the blocks of the pages
   * before it and before those of the pages after it.
   */
  lemma MarkdownInOrder(results: seq<CrawlResult>, i: nat)
    requires i < |results|
    ensures FormatMarkdown(results)
      == FormatMarkdown(results[..i]) + MarkdownBlock(results[i]) + FormatMarkdown(results[i + 1..])
  {
    assert results == results[..i] + ([results[i]] + results[i + 1..]);
    MarkdownAppend(results[..i], [results[i]] + results[i + 1..]);
    MarkdownAppend([results[i]], results[i + 1..]);
    assert MarkdownBlocks([results[i]]) == [MarkdownBlock(results[i])];
  }

  /** No pages give an empty Markdown tab. */
  lemma MarkdownEmpty()
    ensures FormatMarkdown([]) == ""
  {
  }

  // --------------------------------------------------------------------- XML

  /** The separator the rewritten lines are joined with: a line break and the page's indentation. */
  const LineSeparator: string := "\n      "

  function RewriteLines(lines: seq<string>): seq<string> {
    seq(|lines|, i requires 0 <= i < |lines| => RewriteLine(lines[i]))
  }

  /** A page's content in the XML tab: escaped, split into lines, each line rewritten, rejoined. */
  function XmlContent(content: string): string {
    Join(RewriteLines(Split(Escape(content), '\n')), LineSeparator)
  }

  const PageOpen: string := "\n  <page>\n    <url>"
  const UrlToContent: string := "</url>\n    <content>\n      "
  const PageClose: string := "\n    </content>\n  </page>"

  /** One `<page>` element; the URL is placed as it is. */
  function PageXml(r: CrawlResult): string {
    PageOpen + r.url + UrlToContent + XmlContent(r.content) + PageClose
  }

  function PageXmls(results: seq<CrawlResult>): seq<string> {
    seq(|results|, i requires 0 <= i < |results| => PageXml(results[i]))
  }

  const XmlDeclaration: string := "<?xml version=\"1.0\" encoding=\"UTF-8\"?>"
  const DocumentOpen: string := "\n<document>\n  "
  const XmlHeader: string := XmlDeclaration + DocumentOpen
  const XmlFooter: string := "\n</document>"

  /** The pages' elements, one after the other. */
  function XmlBody(results: seq<CrawlResult>): string {
    Join(PageXmls(results), "")
  }

  /** `formatContent("xml")`: the pages' elements in order inside `<document>`. */
  function FormatXml(results: seq<CrawlResult>): string {
    XmlHeader + XmlBody(results) + XmlFooter
  }

  /** The separator between rewritten lines holds exactly one line break. */
  lemma SeparatorHasOneBreak()
    ensures Count(LineSeparator, '\n') == 1
  {
    CountAppend("\n", "      ", '\n');
    CountAbsent("      ", '\n');
    assert LineSeparator == "\n" + "      ";
  }

  lemma RewriteLinesLineFree(lines: seq<string>)
    requires forall i :: 0 <= i < |lines| ==> '\n' !in lines[i]
    ensures forall i :: 0 <= i < |lines| ==> '\n' !in RewriteLines(lines)[i]
  {
    forall i | 0 <= i < |lines| ensures '\n' !in RewriteLines(lines)[i] {
      RewriteKeepsLineFree(lines[i]);
    }
  }

  /**
   * The rewrite keeps the line structure: the content's lines map one to one
   * onto the output's lines, as many line breaks out as in.
   */
  lemma XmlContentKeepsLines(content: string)
    ensures |RewriteLines(Split(Escape(content), '\n'))| == Count(content, '\n') + 1
    ensures Count(XmlContent(content), '\n') == Count(content, '\n')
  {
    var e := Escape(content);
    var lines := Split(e, '\n');
    EscapeKeepsNewlines(content);
    RewriteLinesLineFree(lines);
    CountJoin(RewriteLines(lines), LineSeparator, '\n');
    SeparatorHasOneBreak();
  }

  /** The elements of two lists of pages are those of each, one after the other. */
  lemma PageXmlsAppend(a: seq<CrawlResult>, b: seq<CrawlResult>)
    ensures PageXmls(a + b) == PageXmls(a) + PageXmls(b)
  {
    var ab, pa, pb := PageXmls(a + b), PageXmls(a), PageXmls(b);
    assert |ab| == |pa + pb|;
    forall k | 0 <= k < |ab| ensures ab[k] == (pa + pb)[k] {
      if k < |a| {
        assert (a + b)[k] == a[k];
        assert (pa + pb)[k] == pa[k];
      } else {
        assert (a + b)[k] == b[k - |a|];
        assert (pa + pb)[k] == pb[k - |a|];
      }
    }
  }

  lemma XmlBodyAppend(a: seq<CrawlResult>, b: seq<CrawlResult>)
    ensures XmlBody(a + b) == XmlBody(a) + XmlBody(b)
  {
    PageXmlsAppend(a, b);
    ConcatAppend(PageXmls(a), PageXmls(b));
  }

  lemma XmlBodySingle(r: CrawlResult)
    ensures XmlBody([r]) == PageXml(r)
  {
    assert PageXmls([r]) == [PageXml(r)];
  }

  /** Page `i`'s element sits between those of the pages before and after it. */
  lemma XmlInOrder(results: seq<CrawlResult>, i: nat)
    requires i < |results|
    ensures XmlBody(results) == XmlBody(results[..i]) + PageXml(results[i]) + XmlBody(results[i + 1..])
  {
    var before, here, after := results[..i], [results[i]], results[i + 1..];
    assert results == before + (here + after);
    XmlBodyAppend(before, here + after);
    XmlBodyAppend(here, after);
    XmlBodySingle(results[i]);
  }

  // Every '&' of the XML tab begins an entity reference, provided the URLs have no raw '&'.

  lemma NoAmpersand(s: string)
    requires '&' !in s
    ensures AmpersandsEscaped(s)
  {
  }

  /** Text without raw `&` wrapped around escaped text keeps it escaped. */
  lemma WrapEscaped(open: string, x: string, close: string)
    requires '&' !in open && '&' !in close && AmpersandsEscaped(x)
    ensures AmpersandsEscaped(open + x + close)
  {
    NoAmpersand(open);
    NoAmpersand(close);
    AmpersandsEscapedAppend(open, x);
    AmpersandsEscapedAppend(open + x, close);
  }

  lemma DecimalNoAmpersand(n: nat)
    ensures '&' !in Decimal(n)
  {
    var d := Decimal(n);
    forall i | 0 <= i < |d| ensures d[i] != '&' {
      assert '0' <= d[i] <= '9';
    }
  }

  lemma HeadingTagEscaped(h: Heading)
    requires AmpersandsEscaped(h.text)
    ensures AmpersandsEscaped(HeadingTag(h))
  {
    var d := Decimal(h.level);
    DecimalNoAmpersand(h.level);
    WrapEscaped("<h" + d + ">", h.text, "</h" + d + ">");
    assert HeadingTag(h) == ("<h" + d + ">") + h.text + ("</h" + d + ">");
  }

  lemma ListItemEscaped(line: string)
    requires IsListItem(line) && AmpersandsEscaped(line)
    ensures AmpersandsEscaped("<li>" + ListItemText(line) + "</li>")
  {
    AmpersandsEscapedSuffix(line, WhitespaceRun(line, 0) + 2);
    WrapEscaped("<li>", ListItemText(line), "</li>");
  }

  /** The rewrite of a line keeps its ampersands at the start of entity references. */
  lemma RewriteLineEscaped(line: string)
    requires AmpersandsEscaped(line)
    ensures AmpersandsEscaped(RewriteLine(line))
  {
    var r := RewriteLine(line);
    match MatchHeading(line)
    case Some(h) =>
      MatchHeadingSound(line);
      AmpersandsEscapedSuffix(line, |line| - |h.text|);
      HeadingTagEscaped(h);
    case None =>
      if StartsWith(line, "```") {
        assert r == "<code>";
        NoAmpersand(r);
      } else if EndsWith(line, "```") {
        assert r == "</code>";
        NoAmpersand(r);
      } else if IsListItem(line) {
        ListItemEscaped(line);
      } else if line != "" {
        WrapEscaped("<p>", line, "</p>");
      } else {
        assert r == "";
      }
  }

  lemma {:induction false} JoinEscaped(parts: seq<string>, sep: string)
    requires forall i :: 0 <= i < |parts| ==> AmpersandsEscaped(parts[i])
    requires AmpersandsEscaped(sep)
    ensures AmpersandsEscaped(Join(parts, sep))
  {
    if |parts| > 1 {
      JoinEscaped(parts[1..], sep);
      AmpersandsEscapedAppend(parts[0], sep);
      AmpersandsEscapedAppend(parts[0] + sep, Join(parts[1..], sep));
    }
  }

  lemma XmlContentEscaped(content: string)
    ensures AmpersandsEscaped(XmlContent(content))
  {
    var e := Escape(content);
    EscapedAmpersandsBeginEntities(content);
    SplitAmpersandsEscaped(e);
    var lines := Split(e, '\n');
    var out := RewriteLines(lines);
    forall i | 0 <= i < |out| ensures AmpersandsEscaped(out[i]) {
      RewriteLineEscaped(lines[i]);
    }
    JoinEscaped(out, LineSeparator);
  }

  /** The fixed markup of the XML tab holds no `&`. */
  lemma HeaderHasNoAmpersand()
    ensures '&' !in XmlHeader && '&' !in XmlFooter
  {
    forall i | 0 <= i < |XmlDeclaration| ensures XmlDeclaration[i] != '&' {
    }
    assert '&' !in DocumentOpen;
  }

  lemma PageMarkupHasNoAmpersand()
    ensures '&' !in PageOpen && '&' !in UrlToContent && '&' !in PageClose
  {
  }

  lemma PageXmlEscaped(r: CrawlResult)
    requires AmpersandsEscaped(r.url)
    ensures AmpersandsEscaped(PageXml(r))
  {
    PageMarkupHasNoAmpersand();
    NoAmpersand(PageOpen);
    NoAmpersand(UrlToContent);
    NoAmpersand(PageClose);
    XmlContentEscaped(r.content);
    var a := PageOpen + r.url;
    AmpersandsEscapedAppend(PageOpen, r.url);
    AmpersandsEscapedAppend(a, UrlToContent);
    AmpersandsEscapedAppend(a + UrlToContent, XmlContent(r.content));
    AmpersandsEscapedAppend(a + UrlToContent + XmlContent(r.content), PageClose);
  }

  /**
   * As written, the XML tab keeps every `&` at the start of an entity
   * reference exactly when the page URLs do: the content is escaped, the URLs
   * are not.
   */
  lemma FormatXmlEscaped(results: seq<CrawlResult>)
    requires forall i :: 0 <= i < |results| ==> AmpersandsEscaped(results[i].url)
    ensures AmpersandsEscaped(FormatXml(results))
  {
    var pages := PageXmls(results);
    forall i | 0 <= i < |pages| ensures AmpersandsEscaped(pages[i]) {
      PageXmlEscaped(results[i]);
    }
    JoinEscaped(pages, "");
    HeaderHasNoAmpersand();
    WrapEscaped(XmlHeader, XmlBody(results), XmlFooter);
  }

  /** A URL with a query string puts a bare `&` into the XML tab. */
  lemma UrlAmpersandUnescaped()
    ensures !AmpersandsEscaped(FormatXml([CrawlResult("?a&b", "")]))
  {
    var r := CrawlResult("?a&b", "");
    var page := PageXml(r);
    var rest := UrlToContent + XmlContent(r.content) + PageClose;
    assert page == PageOpen + r.url + rest;
    var j := |PageOpen| + 2;
    assert page[j] == '&' && page[j + 1] == 'b';
    XmlBodySingle(r);
    var k := |XmlHeader| + j;
    assert FormatXml([r])[k] == '&' && FormatXml([r])[k + 1] == 'b';
    NotEntityAt(FormatXml([r]), k);
  }

  /** No entity reference begins `&b`. */
  lemma NotEntityAt(e: string, i: nat)
    requires i + 1 < |e| && e[i + 1] == 'b'
    ensures !EntityAt(e, i)
  {
    assert AmpRef[1] == 'a' && LtRef[1] == 'l' && GtRef[1] == 'g' && QuotRef[1] == 'q' && AposRef[1] == 'a';
    assert e[i..][1] == 'b';
  }

  /** The URLs escaped the way the content is. */
  function EscapeUrls(results: seq<CrawlResult>): seq<CrawlResult> {
    seq(|results|, i requires 0 <= i < |results| => results[i].(url := Escape(results[i].url)))
  }

  /** Escaped URLs have every `&` at the start of an entity reference. */
  lemma EscapeUrlsEscaped(results: seq<CrawlResult>)
    ensures var escaped := EscapeUrls(results);
      forall i :: 0 <= i < |escaped| ==> AmpersandsEscaped(escaped[i].url)
  {
    forall i | 0 <= i < |results| ensures AmpersandsEscaped(EscapeUrls(results)[i].url) {
      EscapedAmpersandsBeginEntities(results[i].url);
    }
  }

  /** The XML tab with the URLs escaped as well: every `&` in it begins an entity reference, for every input. */
  function FormatXmlEscapedUrls(results: seq<CrawlResult>): (doc: string)
    ensures AmpersandsEscaped(doc)
  {
    EscapeUrlsEscaped(results);
    FormatXmlEscaped(EscapeUrls(results));
    FormatXml(EscapeUrls(results))
  }

  /**
   * The correction is conservative: when no URL holds a reserved character,
   * the corrected XML tab is the one the source writes.
   */
  lemma EscapedUrlsKeepPlainUrls(results: seq<CrawlResult>)
    requires forall i :: 0 <= i < |results| ==> Plain(results[i].url)
    ensures FormatXmlEscapedUrls(results) == FormatXml(results)
  {
    forall i | 0 <= i < |results| ensures EscapeUrls(results)[i] == results[i] {
      EscapePlain(results[i].url);
    }
    assert EscapeUrls(results) == results;
  }

  // ------------------------------------------------------------- Zip download

  predicate IsAsciiAlphanumeric(c: char) {
    'a' <= c <= 'z' || 'A' <= c <= 'Z' || '0' <= c <= '9'
  }

  /** `s.replace(/[^a-z0-9]/gi, '-')`: every character but an ASCII letter or digit becomes `-`. */
  function HyphenateNonAlphanumeric(s: string): string {
    seq(|s|, i requires 0 <= i < |s| => if IsAsciiAlphanumeric(s[i]) then s[i] else '-')
  }

  function LowerChar(c: char): char {
    if 'A' <= c <= 'Z' then (c as int - 'A' as int + 'a' as int) as char else c
  }

  /** `toLowerCase` on a string whose letters are all ASCII. */
  function LowerAscii(s: string): string {
    seq(|s|, i requires 0 <= i < |s| => LowerChar(s[i]))
  }

  /** The URL part of a zip entry's name. */
  function SanitizeUrl(url: string): string {
    LowerAscii(HyphenateNonAlphanumeric(url))
  }

  /**
   * The sanitised URL keeps the URL's length and uses only lower-case ASCII
   * letters, digits and `-`; letters and digits stay in place (lower-cased),
   * everything else becomes `-`.
   */
  lemma SanitizeUrlAlphabet(url: string)
    ensures |SanitizeUrl(url)| == |url|
    ensures forall i :: 0 <= i < |url| ==>
      var c := SanitizeUrl(url)[i];
      ('a' <= c <= 'z' || '0' <= c <= '9' || c == '-')
      && (c == '-' <==> !IsAsciiAlphanumeric(url[i]))
  {
  }

  /** The name of zip entry `index` (0-based): its 1-based number, `-`, the sanitised URL, `.md`. */
  function FileName(index: nat, url: string): string {
    Decimal(index + 1) + "-" + SanitizeUrl(url) + ".md"
  }

  /** The body of a page's zip entry: its URL as a heading, then the trimmed content. */
  function FileBody(r: CrawlResult): string {
    "# " + r.url + "\n\n" + Trim(r.content) + "\n"
  }

  /** Length of the run of digits at the start of `s`. */
  function DigitRun(s: string): (n: nat)
    ensures n <= |s|
    ensures AllDigits(s[..n])
  {
    if s != [] && '0' <= s[0] <= '9' then
      var n := 1 + DigitRun(s[1..]);
      assert s[..n] == [s[0]] + s[1..][..n - 1];
      n
    else 0
  }

  lemma {:induction false} DigitRunOfNumeral(d: string, rest: string)
    requires AllDigits(d)
    requires rest == [] || !('0' <= rest[0] <= '9')
    ensures DigitRun(d + rest) == |d|
  {
    if d != [] {
      assert (d + rest)[1..] == d[1..] + rest;
      DigitRunOfNumeral(d[1..], rest);
    }
  }

  /** Reads the entry number back from a file name: the index the name was made from. */
  function FileIndex(name: string): int {
    ParseDecimal(name[..DigitRun(name)]) - 1
  }

  /** The name of entry `index` tells the index back, so no two entries share a name. */
  lemma FileNameIndex(index: nat, url: string)
    ensures FileIndex(FileName(index, url)) == index
  {
    var d := Decimal(index + 1);
    var name := FileName(index, url);
    assert name == d + ("-" + SanitizeUrl(url) + ".md");
    DigitRunOfNumeral(d, "-" + SanitizeUrl(url) + ".md");
    assert name[..|d|] == d;
    DecimalRoundTrip(index + 1);
  }

  lemma FileNamesDistinct(i: nat, j: nat, u: string, v: string)
    requires i != j
    ensures FileName(i, u) != FileName(j, v)
  {
    FileNameIndex(i, u);
    FileNameIndex(j, v);
  }

  predicate Distinct(keys: seq<string>) {
    forall i, j :: 0 <= i < j < |keys| ==> keys[i] != keys[j]
  }

  /** A folder filled by adding `values[i]` under `keys[i]`, in order of `i`. */
  function Folder(keys: seq<string>, values: seq<string>): map<string, string>
    requires |keys| == |values|
  {
    if keys == [] then map[]
    else
      var last := |keys| - 1;
      Folder(keys[..last], values[..last])[keys[last] := values[last]]
  }

  /** Filling the folder one more step adds the next key with its value. */
  lemma FolderStep(keys: seq<string>, values: seq<string>, n: nat)
    requires |keys| == |values| && n < |keys|
    ensures Folder(keys[..n + 1], values[..n + 1]) == Folder(keys[..n], values[..n])[keys[n] := values[n]]
  {
    assert keys[..n + 1][..n] == keys[..n];
    assert values[..n + 1][..n] == values[..n];
  }

  /** The folder's names are exactly the keys added. */
  lemma {:induction false} FolderNames(keys: seq<string>, values: seq<string>)
    requires |keys| == |values|
    ensures Folder(keys, values).Keys == set k | k in keys
  {
    if keys != [] {
      var last := |keys| - 1;
      FolderNames(keys[..last], values[..last]);
      assert keys == keys[..last] + [keys[last]];
    }
  }

  /** With distinct keys, each added entry survives and the folder has one entry per key. */
  lemma {:induction false} FolderLookup(keys: seq<string>, values: seq<string>, i: nat)
    requires |keys| == |values| && Distinct(keys) && i < |keys|
    ensures keys[i] in Folder(keys, values) && Folder(keys, values)[keys[i]] == values[i]
  {
    var last := |keys| - 1;
    if i < last {
      FolderLookup(keys[..last], values[..last], i);
      assert keys[i] != keys[last];
    }
  }

  lemma {:induction false} FolderSize(keys: seq<string>, values: seq<string>)
    requires |keys| == |values| && Distinct(keys)
    ensures |Folder(keys, values)| == |keys|
  {
    if keys != [] {
      var last := |keys| - 1;
      FolderSize(keys[..last], values[..last]);
      FolderNames(keys[..last], values[..last]);
      assert keys[last] !in keys[..last];
    }
  }

  function FileNames(results: seq<CrawlResult>): seq<string> {
    seq(|results|, i requires 0 <= i < |results| => FileName(i, results[i].url))
  }

  function FileBodies(results: seq<CrawlResult>): seq<string> {
    seq(|results|, i requires 0 <= i < |results| => FileBody(results[i]))
  }

  lemma FileNamesAreDistinct(results: seq<CrawlResult>)
    ensures Distinct(FileNames(results))
  {
    var names := FileNames(results);
    forall i, j | 0 <= i < j < |names| ensures names[i] != names[j] {
      FileNamesDistinct(i, j, results[i].url, results[j].url);
    }
  }

  /**
   * The `docs` folder of the zip download: page `i` under its own name with
   * its own body, nothing overwritten, and no other file.
   */
  lemma ZipFolderContents(results: seq<CrawlResult>)
    ensures var files := Folder(FileNames(results), FileBodies(results));
      && |files| == |results|
      && (forall i :: 0 <= i < |results| ==>
        FileName(i, results[i].url) in files && files[FileName(i, results[i].url)] == FileBody(results[i]))
      && (forall name :: name in files ==>
        0 <= FileIndex(name) < |results| && name == FileName(FileIndex(name), results[FileIndex(name)].url))
  {
    FileNamesAreDistinct(results);
    FolderSize(FileNames(results), FileBodies(results));
    ZipFolderLookup(results);
    ZipFolderNames(results);
  }

  lemma ZipFolderLookup(results: seq<CrawlResult>)
    ensures var files := Folder(FileNames(results), FileBodies(results));
      forall i :: 0 <= i < |results| ==>
        FileName(i, results[i].url) in files && files[FileName(i, results[i].url)] == FileBody(results[i])
  {
    var names, bodies := FileNames(results), FileBodies(results);
    var files := Folder(names, bodies);
    FileNamesAreDistinct(results);
    forall i | 0 <= i < |results|
      ensures FileName(i, results[i].url) in files && files[FileName(i, results[i].url)] == FileBody(results[i])
    {
      FolderLookup(names, bodies, i);
    }
  }

  lemma ZipFolderNames(results: seq<CrawlResult>)
    ensures var files := Folder(FileNames(results), FileBodies(results));
      forall name :: name in files ==>
        0 <= FileIndex(name) < |results| && name == FileName(FileIndex(name), results[FileIndex(name)].url)
  {
    var names, bodies := FileNames(results), FileBodies(results);
    var files := Folder(names, bodies);
    FolderNames(names, bodies);
    forall name | name in files
      ensures 0 <= FileIndex(name) < |results| && name == FileName(FileIndex(name), results[FileIndex(name)].url)
    {
      var i :| 0 <= i < |names| && names[i] == name;
      FileNameIndex(i, results[i].url);
    }
  }

  /** The zip download's loop over the pages, filling the `docs` folder in page order. */
  method ZipEntries(results: seq<CrawlResult>) returns (files: map<string, string>)
    ensures files == Folder(FileNames(results), FileBodies(results))
  {
    files := map[];
    var index := 0;
    while index < |results|
      invariant index <= |results|
      invariant files == Folder(FileNames(results)[..index], FileBodies(results)[..index])
    {
      var result := results[index];
      var filename := FileName(index, result.url);
      FolderStep(FileNames(results), FileBodies(results), index);
      assert FileNames(results)[index] == filename;
      files := files[filename := FileBody(result)];
      index := index + 1;
    }
    assert FileNames(results)[..index] == FileNames(results);
    assert FileBodies(results)[..index] == FileBodies(results);
  }
}
