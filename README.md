# DevDocs crawler client — verified model

This project models the client-side logic of a small Next.js application.
The application sends a documentation URL to a third-party crawling service,
polls until the crawl completes and follows the chain of result chunks. It
shows the pages as Markdown or as an XML document and packs them into a zip
file with one file per page. It also keeps the last ten crawls in the
browser's storage.

The model covers three parts of the client:

- **Results display** (`src/components/results-display.tsx`). `formatContent` in Markdown and XML mode, and the per-page file names and bodies of the zip download. These live in modules `ResultsDisplay`, `XmlEscape` and `LineRewrite`.
  - The XML mode is modelled in three steps. The first is the chain of five global replaces that escape XML's reserved characters (the predefined entities of XML 1.0, sections 2.4 and 4.6).
  - The second is the line split.
  - The third is the per-line rewrite. The heading pattern `^(#{1,6})\s+(.+)$` is modelled with the regular-expression semantics it has in JavaScript. `\s` is the JavaScript white-space and line-terminator set, `.` refuses line terminators, and the match is greedy with backtracking.
  - The zip loop is a method that fills a map from file name to file body.
- **Home page** (`src/app/page.tsx`), in module `HomePage`. Class `HistoryStore` has the fields `results`, `history` and the storage entry `stored`. Its methods are the three handlers and the load-on-mount effect.
- **Crawl form** (`src/components/crawler-form.tsx`), in module `CrawlerForm`. Class `CrawlerForm` has the fields `loading`, `progress` and `error`.
  - The two loops of the source are the polling loop of `handleSubmit`, written as method `PollStatus` that `HandleSubmit` calls, and `FetchAllResults`. They are proved against the functions `Submit`, `Poll`, `Gather` and `ChunkProgress`.
  - Every server reply is an input, and a request that rejects with an exception is one more kind of reply, carrying the exception's message. The start reply is a value. The status replies are a function from poll number to reply. The chunk replies are a finite sequence.

Module `JsText` models the JavaScript string built-ins these use: `split`, `join`, `trim`, a global one-character `replace` and number-to-decimal conversion. Strings are sequences of characters.

Four behaviours of the source are easy to misread; the model follows the code.

- **Timeout.** The polling loop runs while `attempts < 60` (src/components/crawler-form.tsx:119), so a submission that times out has made exactly 60 polls.
- **Progress updates.** A status reply changes the progress only when its `total` and its `completed` are both non-zero (src/components/crawler-form.tsx:134-137); other replies leave it as it was.
- **`&` after escaping.** Escaped content still contains `&`, because the entity references themselves begin with it; what holds is that every `&` begins one of the five entity references.
- **Ending the pagination.** `fetchAllResults` stops at the first empty `next` link and also at the first chunk request that fails, since its `catch` breaks out of the loop (src/components/crawler-form.tsx:50-76).

## Model

| member | source | states |
|---|---|---|
| JsText.IsWhitespace | src/components/results-display.tsx:115 | definition of the characters JavaScript counts as white space: `\s` in the patterns at lines 45 and 58 and what `trim()` strips here, WhiteSpace and LineTerminator; `SkipWhitespace`, `SkipWhitespaceBack` and `WhitespaceRun` are built on it |
| JsText.StartsWith | src/components/results-display.tsx:51 | definition of `startsWith`: the prefix fits and the string's first characters are the prefix; `FenceOpens` states the rule built on it |
| JsText.EndsWith | src/components/results-display.tsx:54 | definition of `endsWith`: the suffix fits and the string's last characters are the suffix; `FenceClosesOnly` states the rule built on it |
| JsText.Split | src/components/results-display.tsx:42 | `split('\n')` gives one more piece than there are separators, no piece holds the separator, and joining the pieces with it gives the input back |
| JsText.ReplaceChar | src/components/results-display.tsx:34-38 | a global replace of a character that is absent changes nothing, and a replacement without the character leaves none of it |
| JsText.ConcatAppend | src/components/results-display.tsx:26 | `join("")` of two lists of parts is the join of each, one after the other |
| JsText.CountJoin | src/components/results-display.tsx:64 | the line breaks of a `join` whose parts have none are those of the separators between neighbours |
| JsText.SkipWhitespace | src/components/results-display.tsx:115 | finds the end of the leading run of white space: everything skipped is white space, and the character it stops at is not |
| JsText.SkipWhitespaceBack | src/components/results-display.tsx:115 | finds the start of the trailing run of white space: everything skipped is white space, and the character before it is not |
| JsText.Join | src/components/results-display.tsx:64 | definition of `Array.prototype.join`: the parts with the separator between neighbours; `ConcatAppend`, `CountJoin` and `Split` state its properties |
| JsText.Trim | src/components/results-display.tsx:115 | definition of `String.prototype.trim`: the content between the leading and the trailing run of white space; `TrimIsInfix` and `TrimIdempotent` state its properties |
| JsText.TrimIsInfix | src/components/results-display.tsx:115 | `trim()` keeps a contiguous middle part of the content, removes only white space before and after it, and leaves no white space at either end |
| JsText.TrimIdempotent | src/components/results-display.tsx:115 | trimming trimmed content changes nothing |
| JsText.Decimal | src/components/results-display.tsx:112 | the numeral of a number is non-empty and made of digits |
| JsText.DecimalRoundTrip | src/components/results-display.tsx:112 | reading a numeral back gives the number |
| JsText.DecimalInjective | src/components/results-display.tsx:112 | different numbers have different numerals |
| XmlEscape.Escape | src/components/results-display.tsx:33-38 | definition of the chain of five global replaces, `&` first; the lemmas below state its properties |
| XmlEscape.EscapeLeavesNoSpecials | src/components/results-display.tsx:33-38 | escaped content holds no `<`, `>`, `"` or `'` |
| XmlEscape.EscapeIsPerCharacter | src/components/results-display.tsx:33-38 | the chain of five replaces, with `&` first, equals replacing each character by its own entity in one pass, so nothing is escaped twice |
| XmlEscape.EscapeAppend | src/components/results-display.tsx:33-38 | escaping distributes over concatenation |
| XmlEscape.EscapeSingle | src/components/results-display.tsx:33-38 | the chain turns each of the five reserved characters into its entity reference and leaves any other character alone |
| XmlEscape.EscapedAmpersandsBeginEntities | src/components/results-display.tsx:33-38 | every `&` in escaped content begins `&amp;`, `&lt;`, `&gt;`, `&quot;` or `&apos;` |
| XmlEscape.EscapeEachAmpersands | src/components/results-display.tsx:33-38 | the same for the one-pass escaping |
| XmlEscape.UnescapeEscape | src/components/results-display.tsx:33-38 | escaping loses nothing: reading the entity references back gives the original content |
| XmlEscape.UnescapeEscapeEach | src/components/results-display.tsx:33-38 | the same round trip for the one-pass escaping |
| XmlEscape.EscapeKeepsNewlines | src/components/results-display.tsx:33-38 | escaping keeps the number of line breaks |
| XmlEscape.SplitAmpersandsEscaped | src/components/results-display.tsx:42 | splitting escaped content into lines keeps every `&` at the start of an entity reference in each line |
| XmlEscape.AmpersandsEscapedAppend | src/components/results-display.tsx:48 | concatenating texts whose `&` all begin entity references keeps that property |
| LineRewrite.MatchHeading | src/components/results-display.tsx:45 | definition of matching `^(#{1,6})\s+(.+)$`: the level and the captured text, or no match; `MatchHeadingSound` and `MatchHeadingComplete` state that it is exactly the pattern |
| LineRewrite.IsListItem | src/components/results-display.tsx:58 | definition of `line.match(/^\s*[-*+]\s/)`: a marker right after the leading white space, followed by a white-space character; `ListSplitUnique` states that no other position can match |
| LineRewrite.HeadingTag | src/components/results-display.tsx:48 | definition of the template `<hN>text</hN>` with N the level in decimal; `HeadingRewrite` states what it gives |
| LineRewrite.ListItemText | src/components/results-display.tsx:59 | definition of the list line with its leading white space, its marker and the one white-space character after it removed; `ListSplitUnique` states that the match is unique |
| LineRewrite.RewriteLine | src/components/results-display.tsx:43-63 | definition of the per-line rewrite: heading, then opening fence, then closing fence, then list item, then paragraph or empty; the lemmas below state what each rule gives |
| LineRewrite.HashRun | src/components/results-display.tsx:45 | the leading run of `#` is maximal: all `#`, followed by the end or another character |
| LineRewrite.WhitespaceRun | src/components/results-display.tsx:45 | the run of `\s` characters at a position is maximal |
| LineRewrite.MatchHeadingSound | src/components/results-display.tsx:45-47 | a reported heading is a match of `^(#{1,6})\s+(.+)$`; its level is the number of leading `#` and its text is a non-empty tail of the line without line terminators |
| LineRewrite.MatchHeadingComplete | src/components/results-display.tsx:45-47 | every way the pattern can match is found, with the same level, and the greedy `\s+` leaves the shortest text |
| LineRewrite.SevenHashesNoHeading | src/components/results-display.tsx:45 | seven or more leading `#` never make a heading |
| LineRewrite.HeadingRewrite | src/components/results-display.tsx:45-48 | a heading line becomes `<hN>text</hN>` with N from 1 to 6 |
| LineRewrite.FenceOpens | src/components/results-display.tsx:51-56 | a line that starts with a code fence becomes `<code>`, even a bare fence |
| LineRewrite.FenceClosesOnly | src/components/results-display.tsx:45-56 | a line becomes `</code>` exactly when it is no heading, does not start with a fence and ends with one |
| LineRewrite.ListSplitUnique | src/components/results-display.tsx:58-59 | the list pattern can only match right after the leading white space, and then the line is a list item |
| LineRewrite.RewriteEmptyIff | src/components/results-display.tsx:62 | only the empty line becomes the empty string |
| LineRewrite.RewriteKeepsLineFree | src/components/results-display.tsx:41-63 | no rule introduces a line break |
| ResultsDisplay.MarkdownBlock | src/components/results-display.tsx:25 | definition of one page's template: `# url`, blank line, content, blank line, rule, blank line; `MarkdownInOrder` states where each page's block sits |
| ResultsDisplay.FormatMarkdown | src/components/results-display.tsx:24-26 | definition of the Markdown export: the page blocks joined with `""`; `MarkdownAppend`, `MarkdownInOrder` and `MarkdownEmpty` state its properties |
| ResultsDisplay.MarkdownAppend | src/components/results-display.tsx:24-26 | the Markdown of two lists of pages is the Markdown of each, in order |
| ResultsDisplay.MarkdownInOrder | src/components/results-display.tsx:24-26 | page `i` contributes its block `# url`, blank line, content, rule, between the blocks of the pages before and after it |
| ResultsDisplay.MarkdownEmpty | src/components/results-display.tsx:24-26 | no pages give the empty Markdown text |
| ResultsDisplay.XmlContent | src/components/results-display.tsx:41-64 | definition of a page's XML content: the escaped content split at line breaks, each line rewritten, joined with a line break and six spaces; `XmlContentKeepsLines` and `XmlContentEscaped` state its properties |
| ResultsDisplay.PageXml | src/components/results-display.tsx:66-72 | definition of a page's `<page>` element with its URL and XML content; `PageXmlEscaped` and `UrlAmpersandUnescaped` state its properties |
| ResultsDisplay.XmlBody | src/components/results-display.tsx:31-73 | definition of the page elements joined with `""`; `XmlBodyAppend` and `XmlInOrder` state its properties |
| ResultsDisplay.FormatXml | src/components/results-display.tsx:29-74 | definition of the XML export: the declaration, `<document>`, the page elements joined with `""`, `</document>`; `XmlInOrder`, `FormatXmlEscaped` and `UrlAmpersandUnescaped` state its properties |
| ResultsDisplay.XmlContentKeepsLines | src/components/results-display.tsx:41-64 | one rewritten line per input line, and the page's XML content has as many line breaks as its Markdown content |
| ResultsDisplay.XmlBodyAppend | src/components/results-display.tsx:31-73 | the `<page>` elements of two lists of pages are those of each, in order |
| ResultsDisplay.XmlInOrder | src/components/results-display.tsx:29-74 | page `i`'s element sits inside `<document>` between the elements of the pages before and after it |
| ResultsDisplay.RewriteLineEscaped | src/components/results-display.tsx:43-63 | the rewrite of a line keeps each `&` at the start of an entity reference |
| ResultsDisplay.JoinEscaped | src/components/results-display.tsx:64 | joining such lines keeps the property |
| ResultsDisplay.XmlContentEscaped | src/components/results-display.tsx:33-64 | in every page's XML content each `&` begins an entity reference |
| ResultsDisplay.PageXmlEscaped | src/components/results-display.tsx:66-72 | a `<page>` element has the property when its URL has it |
| ResultsDisplay.FormatXmlEscaped | src/components/results-display.tsx:29-74 | the XML document has the property whenever all page URLs have it |
| ResultsDisplay.UrlAmpersandUnescaped | src/components/results-display.tsx:68 | a URL with a query string puts a bare `&` into the XML document (see Findings) |
| ResultsDisplay.FormatXmlEscapedUrls | src/components/results-display.tsx:68 | the corrected document, with the URLs escaped as the content is: every `&` in it begins an entity reference, for every input |
| ResultsDisplay.EscapedUrlsKeepPlainUrls | src/components/results-display.tsx:68 | the correction changes nothing the source already writes correctly: when no URL holds `&`, `<`, `>`, `"` or `'`, the corrected document is the source's document |
| XmlEscape.EscapePlain | src/components/results-display.tsx:33-38 | the chain of replaces leaves text without the five reserved characters unchanged |
| ResultsDisplay.SanitizeUrl | src/components/results-display.tsx:112 | definition of the URL part of a file name: every character outside `[a-zA-Z0-9]` becomes `-`, then lower case; `SanitizeUrlAlphabet` states its properties |
| ResultsDisplay.FileName | src/components/results-display.tsx:112 | definition of entry `i`'s name `i+1-<sanitised url>.md`; `FileNameIndex` and `FileNamesDistinct` state its properties |
| ResultsDisplay.FileBody | src/components/results-display.tsx:115 | definition of an entry's body `# url`, blank line, trimmed content, line break; `ZipFolderContents` states that each page's entry holds it |
| ResultsDisplay.SanitizeUrlAlphabet | src/components/results-display.tsx:112 | the URL part of a file name has the URL's length, uses only `a`–`z`, `0`–`9` and `-`, and has `-` exactly where the URL has a character other than an ASCII letter or digit |
| ResultsDisplay.DigitRun | src/components/results-display.tsx:112 | the leading digits of a file name are a numeral |
| ResultsDisplay.FileNameIndex | src/components/results-display.tsx:112 | the number at the front of entry `i`'s name reads back as `i + 1`, so the name tells its index |
| ResultsDisplay.FileNamesDistinct | src/components/results-display.tsx:112 | different indices give different file names |
| ResultsDisplay.FolderLookup | src/components/results-display.tsx:118 | with distinct names, each file added to the folder keeps its body |
| ResultsDisplay.FolderSize | src/components/results-display.tsx:118 | with distinct names, the folder has one file per page |
| ResultsDisplay.FolderNames | src/components/results-display.tsx:118 | the folder's names are exactly the names added |
| ResultsDisplay.ZipFolderContents | src/components/results-display.tsx:110-119 | the folder holds one file per page: page `i` under `i+1-<sanitised url>.md` with body `# url`, blank line, trimmed content, line break; no file is overwritten and there is no other file |
| ResultsDisplay.ZipEntries | src/components/results-display.tsx:110-119 | the loop over the pages builds exactly that folder |
| HomePage.NewHistoryItem | src/app/page.tsx:46-50 | the new item carries the new results and the timestamp, and is listed under the first result's URL, or under `""` when there are no results |
| HomePage.Take | src/app/page.tsx:52 | `slice(0, n)` keeps the first `min(n, length)` elements |
| HomePage.AddToHistory | src/app/page.tsx:52 | the new history has the new item first, then the old history in order, and holds `min(old length + 1, 10)` items, at most 10 even when the old history was longer |
| HomePage.AddToHistoryEvicts | src/app/page.tsx:52 | below capacity nothing is dropped; at capacity only the oldest entry is dropped |
| HomePage.AddAllKeepsNewest | src/app/page.tsx:52 | after one or more crawls the history is the newest ten, newest first, followed by the earlier history while room remains |
| HomePage.TakeAppendTake | src/app/page.tsx:52 | cutting the old history before prepending makes no difference once the result is cut again |
| HomePage.HistoryStore.constructor | src/app/page.tsx:26-27 | a new page displays no results and has no history |
| HomePage.HistoryStore.LoadOnMount | src/app/page.tsx:30-40 | a parsable storage entry becomes the history; a missing or unparsable one leaves it as it was |
| HomePage.HistoryStore.HandleResults | src/app/page.tsx:42-55 | the new results are displayed, the history becomes the new item prepended and cut to 10, and storage holds that same history |
| HomePage.HistoryStore.HandleClearHistory | src/app/page.tsx:57-59 | the history is empty and the storage entry is removed; the displayed results stay |
| HomePage.HistoryStore.HandleSelectHistory | src/app/page.tsx:66-67 | the chosen entry's results are displayed; history and storage are unchanged |
| CrawlerForm.RoundPercent | src/components/crawler-form.tsx:135 | the progress is `completed / total * 100` rounded to the nearest integer, halves up |
| CrawlerForm.NextProgress | src/components/crawler-form.tsx:134-137 | definition of the progress after a reply: the rounded percentage when `total` and `completed` are both non-zero, else the progress unchanged; `ChunkProgressWithoutCounts` and `PollProgressWithoutCounts` state its properties |
| CrawlerForm.Process | src/components/crawler-form.tsx:152-157 | no more results are delivered than pages were gathered |
| CrawlerForm.Usable | src/components/crawler-form.tsx:153 | definition of the filter: a page with non-empty Markdown and a non-empty source URL; `ProcessMembers` and `ProcessAllUsable` state what passes |
| CrawlerForm.ProcessAppend | src/components/crawler-form.tsx:152-157 | the filter and map work page by page, keeping the order |
| CrawlerForm.ProcessMembers | src/components/crawler-form.tsx:152-157 | a result is delivered exactly when a gathered page with both Markdown and a source URL carries its URL and content |
| CrawlerForm.ProcessAllUsable | src/components/crawler-form.tsx:152-157 | when every page has both fields, every page is delivered, in order |
| CrawlerForm.Follow | src/components/crawler-form.tsx:50-77 | definition of the chunk loop: while the link is non-empty, request the next chunk; a failed request ends it, a successful one adds its data and hands on its link; `FollowChainLinks`, `FollowChainStops` and `FollowChainData` state its properties |
| CrawlerForm.Gather | src/components/crawler-form.tsx:39-80 | definition of `fetchAllResults`: the first reply's data followed by the chunk loop's pages; `FetchAllResults` computes it |
| CrawlerForm.ChunkProgress | src/components/crawler-form.tsx:68-72 | definition of the progress left by the chunk loop, each successful chunk applied as `NextProgress`; `ChunkProgressWithoutCounts` states its property |
| CrawlerForm.Fetched | src/components/crawler-form.tsx:50-76 | the successful chunk requests fit in the replies available |
| CrawlerForm.FollowChainLinks | src/components/crawler-form.tsx:50-66 | the successful chunk replies are consecutive and each but the last hands on a non-empty link |
| CrawlerForm.FollowChainStops | src/components/crawler-form.tsx:50-76 | the chain stops at the first empty link or the first failed request, with no retry |
| CrawlerForm.FollowChainData | src/components/crawler-form.tsx:45-65 | the gathered pages are the successful chunks' data in chain order; a chunk without data contributes nothing |
| CrawlerForm.ChunkProgressWithoutCounts | src/components/crawler-form.tsx:69-72 | chunks without both counts never change the progress |
| CrawlerForm.Poll | src/components/crawler-form.tsx:115-171 | polling makes at most 60 status checks, and a timeout comes after exactly 60 |
| CrawlerForm.Submit | src/components/crawler-form.tsx:88-109 | no status is polled exactly when the start request throws, or its reply is not ok, lacks `success` or lacks `id` |
| CrawlerForm.InProgress | src/components/crawler-form.tsx:163-169 | definition of a reply on which polling goes on: an ok reply whose status is neither `failed` nor `completed`, which covers `scraping`, `processing` and the default case; `TimeoutIffAllInProgress` and `PollStopsAtFirstDecisive` state what it decides |
| CrawlerForm.TimeoutIffAllInProgress | src/components/crawler-form.tsx:140-175 | the crawl times out exactly when every one of the 60 polls reports a status other than `failed` or `completed` |
| CrawlerForm.PollStopsAtFirstDecisive | src/components/crawler-form.tsx:119-170 | polling ends at the first reply that fails or completes, after exactly that many polls. A status request that throws ends it with the exception's message; a non-ok reply gives "Failed to check crawl status"; `failed` gives the crawl failure with the server's error; `completed` delivers the processed pages gathered from the chain |
| CrawlerForm.DeliveredOnlyWhenCompleted | src/components/crawler-form.tsx:144-161 | results are delivered only after a `completed` reply, every earlier reply in progress |
| CrawlerForm.ErrorMessage | src/components/crawler-form.tsx:99-177 | definition of the error shown for each way a submission ends: the start reply's `error` or "Failed to crawl URL", "Invalid response from crawl endpoint", "Failed to check crawl status", the crawl's `error` or "Crawl failed", the timeout message, or a thrown request's own message; `TimeoutMessage` and `PollStopsAtFirstDecisive` state which ending gives which |
| CrawlerForm.TimeoutMessage | src/components/crawler-form.tsx:173-175 | a timed-out submission made 60 polls and shows "Crawl timed out - please try again" |
| CrawlerForm.PollProgressWithoutCounts | src/components/crawler-form.tsx:134-137 | the progress only changes on replies with non-zero `total` and `completed` |
| CrawlerForm.FullProgressOutOfRange | src/components/crawler-form.tsx:231 | a fully done count shows 100 percent, and the index the form computes then equals the table's length (see Findings) |
| CrawlerForm.LoadingIndexAsWritten | src/components/crawler-form.tsx:231 | definition of the index as written, `floor(progress / 100 * 4)`; `FullProgressOutOfRange` states that it leaves the table at 100 percent |
| CrawlerForm.LoadingIndex | src/components/crawler-form.tsx:231 | the corrected index always lies inside the four-message table and equals the written one below 100 percent |
| CrawlerForm.CrawlerForm.constructor | src/components/crawler-form.tsx:25-27 | the form starts not loading, with no progress and no error |
| CrawlerForm.CrawlerForm.LoadingMessageAsWritten | src/components/crawler-form.tsx:226-231 | the message as written: the first before any progress, the table entry at the written index below 100 percent, and none (the render fails) exactly when the progress is 100 percent or more (see Findings) |
| CrawlerForm.CrawlerForm.LoadingMessage | src/components/crawler-form.tsx:226-231 | the corrected message: always one of the four, the first before any progress, the last from 75 percent on, and the same as the message as written below 100 percent |
| CrawlerForm.CrawlerForm.FetchAllResults | src/components/crawler-form.tsx:39-80 | the loop gathers exactly `Gather`'s pages and leaves the progress the chunk chain calls for |
| CrawlerForm.CrawlerForm.PollStatus | src/components/crawler-form.tsx:114-175 | the polling loop ends with the outcome, number of polls and progress that `Poll` gives for the same replies |
| CrawlerForm.CrawlerForm.HandleSubmit | src/components/crawler-form.tsx:82-181 | the submission's polls, progress, error message and delivered results are those of `Submit`, and it always ends with `loading` false |

## Left out

- Strings are sequences of Unicode characters. JavaScript strings are sequences of UTF-16 code units, so lengths and `.` differ for characters outside the Basic Multilingual Plane. A surrogate pair counts as one character here and as two in the source.
- `toLowerCase` is modelled on ASCII only. After the hyphen replace only ASCII letters, digits and `-` remain, so nothing else reaches it.
- The loading-message index is computed on integers. `(progress / 100) * 4` in floating point gives the same floor for every integer progress, because multiplying by 4 is exact and a value that is not a multiple of 25 lies at least 0.04 from an integer.
- CrawlerForm.RoundPercent: progress is computed exactly on integers, not as the floating-point `Math.round((completed / total) * 100)`. Ties and values very close to a half may round differently.
- JSON parsing is left out. A start or status reply whose body does not parse throws a `SyntaxError`; it is given as a thrown request (`StartThrew` or `StatusThrew`) with that error's message, whose text is not modelled. A chunk reply that does not parse counts as a failed request, which is what the source does.
- Values of unexpected types in replies are left out (for example a numeric `status` or a string `total`). Absent fields are `""`, `0` or `None`, which JavaScript treats as falsy exactly as the source tests them.
- The chunk replies are a finite sequence. A request beyond its end counts as a failed request, so every run ends. The source keeps requesting for as long as the service hands out links.
- The status replies are a function from poll number to reply. The 2-second `delay` between polls and all timing are left out; only the number of polls matters.
- `/api/crawl`, `/api/crawl/status/{id}` and `/api/crawl/next`: the route handlers are not part of this model. Their replies are the inputs described above. The `/api/scrape`, `/api/map` and `/api/openapi` routes are not part of this model either.
- `localStorage` is one abstract entry (`Stored`): missing, a parsed history, or unparsable. JSON serialisation is not modelled. A stored value that parses to something other than a list of history items is not modelled.
- The timestamp (`new Date().toISOString()`) is a parameter of `HandleResults`.
- Toasts, confetti, console logging, clipboard copy, Blob downloads, the JSZip archive format and React rendering are left out. `onResults` is modelled as the delivered result that `HandleSubmit` returns.
- CrawlerForm.CrawlerForm.LoadingMessage: this is the corrected message, whose index stays at the last entry from 75 percent on. As written, the render reads past the four-entry table at 100 percent or more and fails; `LoadingMessageAsWritten` models that and returns no message there (see Findings).
- The page's handlers are modelled as reading the latest state of the page. In the source, a submission in flight calls the `onResults` closure it captured when it started (src/components/crawler-form.tsx:22, 159), and that closure prepends to the history as it was then (src/app/page.tsx:52). Clearing the history during a crawl is therefore undone when the crawl completes, which restores the history from before the clear plus the new item. The model gives only the new item in that case.
- HomePage.HistoryStore.HandleResults: the storage write is modelled as always succeeding. In the source, `localStorage.setItem` (src/app/page.tsx:54) throws when the storage quota is full or storage is disabled. The results and the history have already been updated in memory by then (lines 43 and 53), so storage keeps its old entry. The exception also reaches the form's `catch` through `onResults` (src/components/crawler-form.tsx:159, 176-177), so the form shows the exception's message beside the delivered results and skips the confetti. `HandleSubmit` gives no error for a delivered run, so it does not capture this case either.
- HomePage.HistoryStore.LoadOnMount: the invalid-JSON case is an abstract `Unparsable` entry rather than a parse of text.

## Findings

| source | as written | input that shows it | evidently intended | confidence | as-written member | corrected member |
|---|---|---|---|---|---|---|
| src/components/crawler-form.tsx:231 | the message index `floor(progress / 100 * 4)` is 4 at 100 percent (and higher above it), one past the four-entry `loadingStates` table, so `.text` is read from `undefined` while loading | a status reply `scraping` with `total = completed = 1` (progress 100) during polling | an index that stays at the last message from 75 percent on | not executed | CrawlerForm.FullProgressOutOfRange | CrawlerForm.LoadingIndex |
| src/components/results-display.tsx:68 | the page URL is placed in `<url>` without escaping, so a URL with a query string puts a raw `&` into the XML document, which then is not well-formed | one page with URL `?a&b` and empty content | the URL escaped like the content, so every `&` begins an entity reference | not executed | ResultsDisplay.UrlAmpersandUnescaped | ResultsDisplay.FormatXmlEscapedUrls |
