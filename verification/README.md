# A Dafny model of the basic site-mapping spider

This project models `BasicSpider`, the one spider of the `spidercore` Scrapy
project. It crawls a site from a seed URL, records one page entry per HTML
page, submits document downloads, and journals the links it will not follow.
At the end it writes a sitemap: a nested HTML list, an XML sitemap in the
sitemaps.org 0.9 format, a JSON dump or a CSV file.

Every callback is written as a pure function over an explicit, immutable
spider state (`Crawl.SpiderState`). The state holds the visited URLs, the
submitted asset URLs, the page records, the unusual-links journal, the
recorded asset digests and the HTML write-once flag. Anything that comes from
the framework or the outside world is an input:

- the response's URL, content type, `<title>` text and asset references;
- each anchor's raw `href` together with the URL `response.urljoin` made of it;
- the user pattern's regular-expression search, as a predicate `search`;
- SHA-256, as a digest function `digest`;
- whether an asset file write succeeds;
- the export timestamp.

Modules, in dependency order:

| module | file | what it covers |
|---|---|---|
| `Wrappers` | wrappers.dfy | `Option` and `Result` |
| `Text` | text.dfy | substring search, `strip()`, ASCII `lower()`, decimal formatting, `strip("/").split("/")` path segments |
| `Urls` | urls.dfy | the scheme and path parts of `urlparse`, and `os.path.basename` |
| `SpiderConfig` | spider_config.dfy | `__init__`: mandatory URL, `https://` defaulting, flag parsing, export selector |
| `Crawl` | crawl.dfy | `parse`: dedup, content-type, filter and pattern checks, the page record, asset selection, link classification, the page budget |
| `CrawlProperties` | crawl_properties.dfy | what `parse` promises, per delivery and over a whole crawl |
| `Assets` | assets.dfy | `download_file`: content-addressed dedup of downloaded documents |
| `SitemapTree` | sitemap_tree.dfy | `build_tree` and `count_leaf_pages` over an ordered dictionary tree |
| `HtmlRender` | html_render.dfy | `render_list` and the write-once `write_html_sitemap` |
| `Exporters` | exporters.dfy | `html.escape`, the XML and CSV writers and the journal line, each with a reader that inverts it |
| `Session` | session.dfy | the export dispatch in `closed()` |

A Python dictionary is modelled as a sequence of items in insertion order. In
`build_tree`, a node's `"__pages__"` key normally holds a list of records (a
`Bucket`), and any other key holds a sub-dictionary (a `Child`). A URL segment
may itself be `__pages__`. Then a dictionary sits under that key, and the
program fails later with an `AttributeError` or `TypeError`. The model keeps
those crashes as `None` results instead of ruling the input out.

## Model

| member | source | states |
|---|---|---|
| SpiderConfig.EffectiveSeed | spidercore/spiders/basic.py:32-35 | a missing or empty URL is an error with the message "Missing required argument: url"; a URL with a recognised scheme is kept as is; otherwise "https://" is put in front, so every accepted seed has a scheme |
| SpiderConfig.SeedWithoutScheme | spidercore/spiders/basic.py:34-35 | "example.com" is crawled as "https://example.com" |
| SpiderConfig.SeedWithPortKeepsItsText | spidercore/spiders/basic.py:34-35 | "localhost:8000" is read as having the scheme "localhost" (as `urlsplit` does from CPython 3.9 on), so no "https://" is added |
| SpiderConfig.ParseFlag | spidercore/spiders/basic.py:45-48 | corrected flag test: a boolean is taken at face value; a string is on exactly when it is "1", "true" or "True"; an absent flag is off |
| SpiderConfig.ParseFlagAgreesOnStrings | spidercore/spiders/basic.py:45-48 | the corrected test agrees with the written one on strings and on the default, and differs on the boolean `True` |
| SpiderConfig.RunPyDownloadFlagIsLost | run.py:94-97 | the flag test as written reads the boolean `True` that the command line passes as off |
| SpiderConfig.SelectFormat | spidercore/spiders/basic.py:47 | the export is HTML, XML, JSON or CSV exactly when the lower-cased selector is "html", "xml", "json" or "csv"; anything else is unsupported and keeps its lower-cased name |
| SpiderConfig.SelectFormatIgnoresCase | spidercore/spiders/basic.py:47 | a selector and its lower-cased form pick the same export |
| SpiderConfig.MakeConfigAsWritten | spidercore/spiders/basic.py:32-53 | the constructor as written: it fails exactly when the URL is missing or empty, and a flag is on only when it arrives as one of the three strings |
| SpiderConfig.MakeConfig | spidercore/spiders/basic.py:32-53 | the corrected constructor the rest of the model uses: it fails exactly when the URL is missing or empty; the configured seed is the effective seed; both flags go through the corrected flag test |
| SpiderConfig.MakeConfigAgreesOnStrings | spidercore/spiders/basic.py:32-53 | when no flag arrives as a boolean, the written and the corrected constructor build the same configuration |
| SpiderConfig.RunPyConstructorDropsFlags | run.py:94-97 | with `download=True` and `content=True`, the constructor as written turns both flags off, and the corrected one turns both on |
| Urls.SplitScheme | spidercore/spiders/basic.py:34 | a scheme is recognised only when the text before the first ':' is a scheme token; it is lower-cased, and the rest is what follows that ':' |
| Urls.PathOf | spidercore/spiders/basic.py:171-172 | the path never holds '?' or '#' |
| Urls.PathOfWebUrl | spidercore/spiders/basic.py:171-172 | for an http(s) URL with a plain host and a path free of '?', '#' and ';', the parsed path is exactly that path |
| Urls.Basename | spidercore/spiders/basic.py:130 | the name holds no '/', is a suffix of the path, and is preceded by a '/' whenever it is shorter than the path |
| Crawl.SelectAssets | spidercore/spiders/basic.py:91-96 | submitted URLs are distinct, new, end in a document extension (case-insensitive) and come from the references; the asset set grows by exactly them; every qualifying reference ends up in the set |
| Crawl.FollowLinks | spidercore/spiders/basic.py:99-120 | each non-empty href is journaled or followed, never both; a URL is followed iff some anchor is followable and resolves to it; followed URLs are http or https; every rejected anchor is journaled with its reason, and only rejected anchors are |
| Crawl.FollowLinksOne | spidercore/spiders/basic.py:99-120 | one anchor alone: an empty href yields nothing, a followable one is followed once, any other gives exactly its one journal line |
| Crawl.FollowLinksAppend | spidercore/spiders/basic.py:99-120 | anchors are handled one by one in document order: the journal lines and followed URLs of two runs of anchors are those of the first run followed by those of the second |
| Crawl.Parse | spidercore/spiders/basic.py:67-120 | the URL becomes visited; a recorded page appends exactly its record, with the stripped title only when content extraction is on; an unrecorded page adds no record, no request and no asset; the asset set and the journal only grow |
| CrawlProperties.ParseRedeliveryIsNoOp | spidercore/spiders/basic.py:70-72 | after a delivery, any further response under the same URL, whatever it holds, changes nothing and yields nothing |
| CrawlProperties.ParseSkipsNonHtml | spidercore/spiders/basic.py:76-79 | a fresh non-HTML response is marked visited and gets exactly one journal line "skipped non-HTML content (<type>)"; nothing else changes |
| CrawlProperties.ParseSkipsFiltered | spidercore/spiders/basic.py:81-85 | a fresh HTML page failing the substring filter or the pattern is only marked visited |
| CrawlProperties.ParseAtBudgetRecordsButDoesNotFollow | spidercore/spiders/basic.py:88-98 | at or over the page budget, a recorded page still gets its record, journals nothing, and yields only asset requests |
| CrawlProperties.SeedWithBudgetOne | spidercore/spiders/basic.py:88-98 | with a budget of one page, the seed is recorded and none of its links are followed |
| CrawlProperties.ParseFollowsExactlyWebLinks | spidercore/spiders/basic.py:98-120 | under the budget, exactly the followable anchors are followed, all http(s); every other non-empty anchor is journaled; journal lines plus page requests number the non-empty anchors; the new journal lines and the followed URLs are exactly those of the link loop, in document order |
| CrawlProperties.OnlyTelLinkIsJournaled | spidercore/spiders/basic.py:103-105 | a page whose only link is a `tel:` href journals exactly that href with reason "tel link" and follows nothing |
| CrawlProperties.ParseSubmitsAssetsOnce | spidercore/spiders/basic.py:90-96 | per delivery, asset requests are distinct document URLs from the page, new to the asset set; the set grows by exactly them; none are submitted when downloading is off |
| CrawlProperties.ParseKeepsValid | spidercore/spiders/basic.py:67-88 | every page record belongs to a visited URL and no URL has two records, before and after a delivery |
| CrawlProperties.RunKeepsValid | spidercore/spiders/basic.py:67-88 | the same invariant holds over any sequence of deliveries |
| CrawlProperties.RunSubmitsEachAssetOnce | spidercore/spiders/basic.py:91-96 | over a whole crawl, no asset URL is submitted twice or after it was known, and the asset set is the known URLs plus the submitted ones |
| Assets.AssetFilename | spidercore/spiders/basic.py:130 | an asset's file name holds no '/' |
| Assets.DownloadFile | spidercore/spiders/basic.py:122-136 | the digest is recorded whatever happens; the body is skipped iff its digest was known, and stored iff it was new, its file name is not empty, "." or ".." and the write succeeds; otherwise the file name is the basename of the URL path |
| Assets.NamesAFileExcludesDirectories | spidercore/spiders/basic.py:130-133 | a basename can be opened for writing iff it is not "", "." or "..", the three names that join onto the asset directory as a directory |
| Assets.DirectoryUrlIsNeverStored | spidercore/spiders/basic.py:129-134 | an asset URL whose path ends in '/' is never stored, and its digest is recorded all the same |
| Assets.DownloadAllRecordsEveryDigest | spidercore/spiders/basic.py:122-129 | after any sequence of downloads the recorded digests are the old ones plus those of every body seen, failed writes included |
| Assets.DownloadAllWritesNewDigests | spidercore/spiders/basic.py:123-134 | every file written carries a digest that was not recorded before and belongs to one of the responses |
| Assets.DownloadAllWritesEachDigestOnce | spidercore/spiders/basic.py:123-134 | no two files written carry the same digest |
| Assets.SameBytesTwoUrlsOneFile | spidercore/spiders/basic.py:123-134 | the same bytes fetched under two URLs are written exactly once, under the first URL's name, when they are new and that name is not empty, "." or ".."; otherwise not at all |
| Assets.FailedWriteIsNotRetried | spidercore/spiders/basic.py:129-134 | when a write fails, its digest is still recorded, so the same bytes are later skipped as a duplicate |
| Assets.DirectoryHoldsLastWrite | spidercore/spiders/basic.py:130-134 | two assets with the same basename share a file, and it holds the body written last |
| Assets.DirectoryKeepsUnwritten | spidercore/spiders/basic.py:130-134 | a file name nobody wrote keeps its previous content |
| SitemapTree.IndexOfKey | spidercore/spiders/basic.py:176-188 | dictionary lookup: -1 iff the key is absent, otherwise the position of the first item with that key |
| SitemapTree.PlaceOfCanonicalPath | spidercore/spiders/basic.py:175-190 | for a path without a trailing slash: one segment files under "/"; a deeper path files under its directories, and under its last segment too unless that segment holds a '.' |
| SitemapTree.PlaceOfDirectoryPath | spidercore/spiders/basic.py:175-190 | for a path with a trailing slash, even a single segment: it files under all its segments, minus the last one when that holds a '.'; so "/docs/" files under "docs" while "/docs" files under "/" |
| SitemapTree.PlaceOfDegeneratePaths | spidercore/spiders/basic.py:175-190 | an empty path and "/" file under "/"; "//" has no segment and files in the top-level list |
| SitemapTree.InsertAtBuckets | spidercore/spiders/basic.py:176-190 | filing a record at a place appends it to that place's list and to no other list |
| SitemapTree.BuildTreeBuckets | spidercore/spiders/basic.py:168-191 | the list at every place holds exactly the records whose URL path maps there, in crawl order |
| SitemapTree.InsertAtKeepsWellKeyed | spidercore/spiders/basic.py:176-190 | filing keeps every node's keys distinct, as a dictionary's are |
| SitemapTree.InsertAtSucceeds | spidercore/spiders/basic.py:176-190 | filing at a place that never names "__pages__" cannot fail, and keeps every "__pages__" value a list |
| SitemapTree.BuildTreeSucceeds | spidercore/spiders/basic.py:168-191 | when no URL path has a "__pages__" segment, the tree is built, and it is a dictionary tree whose "__pages__" values are all lists |
| SitemapTree.PagesSegmentCrashesBuild | spidercore/spiders/basic.py:185-190 | a record under ".../a/__pages__/" followed by one filed at ".../a" makes the build fail |
| SitemapTree.InsertAtFlatten | spidercore/spiders/basic.py:176-190 | filing adds exactly the new record to the tree's contents |
| SitemapTree.BuildTreeKeepsEveryPage | spidercore/spiders/basic.py:168-191 | a built tree holds every record exactly as often as the crawl recorded it |
| SitemapTree.CountIsFlattenLength | spidercore/spiders/basic.py:212-219 | in a tree that can be rendered, `count_leaf_pages` equals the number of records the tree holds |
| SitemapTree.BuildTreeCountsEveryPage | spidercore/spiders/basic.py:168-219 | with no "__pages__" segment, `count_leaf_pages` of the built tree is the number of page records |
| SitemapTree.PagesSegmentMiscounts | spidercore/spiders/basic.py:212-219 | with a "__pages__" segment the count is a dictionary's size: two records under "/__pages__/a/" count as one |
| HtmlRender.PageLines | spidercore/spiders/basic.py:199-202 | one line per record of a list, in order, and only the last one carries the last-page mark |
| HtmlRender.RenderSucceedsIffRenderable | spidercore/spiders/basic.py:194-210 | rendering fails iff some "__pages__" key holds a non-empty dictionary |
| HtmlRender.RenderedPagesAreTheTree | spidercore/spiders/basic.py:194-210 | the rendered lines list every record of the tree, in tree order, and nothing else |
| HtmlRender.HeadingCountsItsPages | spidercore/spiders/basic.py:205-209 | the count beside a heading is the number of page lines listed under it |
| HtmlRender.RenderIsWellNested | spidercore/spiders/basic.py:205-209 | every `<ul class="level-N">` opened is numbered one deeper than its parent and is closed again |
| HtmlRender.EscapeQuotes | spidercore/spiders/basic.py:201 | the escaped title holds no '"'; it grows by five characters per quote and is unchanged without quotes |
| HtmlRender.EscapeQuotesOne | spidercore/spiders/basic.py:201 | a single '"' becomes "&quot;", and any other character stays as it is |
| HtmlRender.EscapeQuotesAppend | spidercore/spiders/basic.py:201 | the replacement works character by character and keeps the order: escaping two texts joined is joining their escapes |
| HtmlRender.Label | spidercore/spiders/basic.py:201 | a non-empty title is shown escaped, so with no '"' in it; an empty title shows the URL |
| HtmlRender.ListTextAppend | spidercore/spiders/basic.py:194-210 | the returned HTML is built line by line: the text of two runs of lines is the text of the first followed by the text of the second |
| HtmlRender.PageLineQuotes | spidercore/spiders/basic.py:199-202 | for a page with a title and a URL free of '"', the page line holds exactly the six quotes that delimit its three attributes, so the escaped title cannot close its attribute early |
| HtmlRender.WriteHtmlSitemap | spidercore/spiders/basic.py:221-225 | the written flag is set on every call, and the call does nothing iff the flag was already set; a written list carries the HTML `render_list` returns, the texts of its lines in order |
| HtmlRender.ListTextHoldsEveryLine | spidercore/spiders/basic.py:194-210 | each line's text sits in the returned HTML after the texts of the lines before it and before the texts of the lines after it |
| HtmlRender.HtmlSitemapWrittenOnce | spidercore/spiders/basic.py:221-223 | a second call writes nothing and changes nothing |
| HtmlRender.HtmlSitemapListsEveryPage | spidercore/spiders/basic.py:221-328 | with no "__pages__" segment, the first call writes the full list; it names every page record as often as it was recorded, and its levels are well nested |
| Exporters.HtmlEscape | spidercore/spiders/basic.py:342 | escaped text holds no '<', '>', '"' or "'" |
| Exporters.HtmlEscapeRoundTrip | spidercore/spiders/basic.py:342 | unescaping the escaped text gives back the original |
| Exporters.XmlLines | spidercore/spiders/basic.py:336-349 | the document is two header lines, five lines per page and the closing `</urlset>` line |
| Exporters.XmlRoundTrip | spidercore/spiders/basic.py:338-349 | reading the `<loc>` of every `<url>` gives back every recorded URL, in crawl order |
| Exporters.CsvRows | spidercore/spiders/basic.py:366-372 | the header is ["url","title"] iff content extraction is on, else ["url"]; one row per page, each as wide as the header, holding its URL (and title) |
| Exporters.CsvRowRoundTrip | spidercore/spiders/basic.py:364-372 | every row the CSV writer produces reads back as its fields, whatever commas, quotes or line breaks they hold |
| Exporters.CsvRoundTrip | spidercore/spiders/basic.py:364-372 | reading the CSV file back gives the header, then every page's URL (and title when enabled), in crawl order |
| Exporters.JournalLineRoundTrip | spidercore/spiders/basic.py:64-65 | a journal line gives back its URL and reason whenever the URL has no space |
| Session.Closed | spidercore/spiders/basic.py:144-157 | each supported format selects its own exporter, and only html changes the state; the HTML export does nothing iff it was already written; an unsupported name gives a warning naming it; the XML export reads back as the page URLs; the JSON export is the page list; the CSV export reads back as the header and then one row per page, in order, holding the URL and, when `include_content` is set, the title |
| Session.ClosedTwice | spidercore/spiders/basic.py:144-157 | on a second call of `closed()` the HTML export writes nothing, and a flat export is rewritten with the same pages |
| Session.ExportSelectorIgnoresCase | spidercore/spiders/basic.py:47 | the selector "HTML" picks the HTML sitemap, which is written on the first call |

## Left out

- Scrapy itself: scheduling, `from_crawler`, signals, `response.css`/`xpath`/`follow`, and `allowed_domains` filtering. Callbacks are modelled as sequential transitions over their inputs.
- Interleaving of callbacks: `parse` is a generator, and Scrapy may run other callbacks at each `yield`, including between the asset requests and the page-budget check. The model treats each delivery as one atomic step.
- `response.urljoin`: each anchor carries the URL it resolves to, and asset references arrive already resolved.
- `re.search` with the user's pattern is the predicate `search`, evaluated on (pattern, URL).
- SHA-256 is the parameter `digest`.
- File and directory creation, opening and closing the journal file, logger calls, and the `_crawl_logged` flag, which only guards a log line.
- An asset write's outcome is the `writeOk` input, except that a file name that is empty, "." or ".." always fails (the path opened is then a directory). The error Scrapy logs for a failed write is not modelled.
- The writers' `try`/`except` around file I/O. I/O errors of the XML, JSON and CSV writers are not modelled.
- `datetime` timestamps: the XML `lastmod` is the parameter `now`, and the HTML header's date is not modelled.
- The inline HTML template and CSS around the page list. The model keeps only the lines `render_list` emits.
- `json.dump`: the JSON export is modelled as the page list it serialises.
- `int(max_pages)`: the budget arrives as an integer, and the `ValueError` for a non-numeric string is not modelled.
- SpiderConfig.SelectFormat: `export.lower()` is modelled for ASCII letters only; Python also lower-cases other Unicode letters.
- The URL rules are those of `urlsplit` in CPython 3.12. Earlier versions read some URLs differently: before 3.9 "localhost:8000" has no scheme, before 3.11.1 a scheme need not start with a letter, and before 3.11.4 leading C0 controls and spaces are kept.
- SpiderConfig.EffectiveSeed: a seed URL that starts with C0 controls or spaces is read without stripping them, so " http://x" is taken to have no scheme and gets "https://" put in front; `urlsplit` in CPython 3.12 strips them first and finds the scheme "http".
- Urls.PathOf: `urlsplit` also strips leading C0 controls and spaces, removes tab, CR and LF, and rejects malformed bracketed hosts; none of this is modelled.
- The `domain`, output-directory and output-file names derived from the seed's network location.
- Exporters.JournalLineRoundTrip: requires a URL without a space, because a space in the URL can make the separator appear earlier and the line is then ambiguous.
- Exporters.CsvRowRoundTrip: requires a non-empty row; every row the sitemap writes has at least the url column.
- `run.py` beyond the two flag arguments, `spidercore/settings.py` and `spidercore/items.py`: CLI plumbing and static configuration.

## Findings

| source | as written | input that shows it | evidently intended | confidence | as-written member | corrected member |
|---|---|---|---|---|---|---|
| spidercore/spiders/basic.py:45-48 with run.py:94-97 | `download in ["1", "true", "True"]` and the same test for `content`; `run.py` passes the `store_true` booleans `args.download` and `args.content` | `python run.py --download --content …` passes `download=True` and `content=True`; `True` equals none of the three strings, so downloading and title extraction stay off | a boolean flag is taken at face value, and only strings are compared with the three spellings | not executed | SpiderConfig.RunPyConstructorDropsFlags | SpiderConfig.MakeConfig |
