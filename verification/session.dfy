/** `BasicSpider.closed`: at the end of the crawl the selected export is
    written.  Scrapy calls it twice (once for the `spider_closed` signal,
    once as the spider's own close hook); only the HTML export guards
    against the second call, the flat exports are simply rewritten. */
module Session {
  import opened Wrappers
  import opened Text
  import opened Urls
  import opened SpiderConfig
  import opened Crawl
  import opened SitemapTree
  import opened HtmlRender
  import opened Exporters

  /** What one call of `closed()` produces. */
  datatype Export =
    | HtmlExport(outcome: HtmlOutcome)
    | XmlExport(lines: seq<string>)
    | JsonExport(pages: seq<PageRecord>)
    | CsvExport(lines: seq<string>)
    | UnsupportedWarning(name: string)

  /** The dispatch in `closed()`; `now` is the timestamp the XML export
      would take. */
  function Closed(cfg: Config, s: SpiderState, now: string): (out: (SpiderState, Export))
    ensures cfg.format.Html? <==> out.1.HtmlExport?
    ensures cfg.format.Xml? <==> out.1.XmlExport?
    ensures cfg.format.Json? <==> out.1.JsonExport?
    ensures cfg.format.Csv? <==> out.1.CsvExport?
    ensures cfg.format.Unsupported? <==> out.1.UnsupportedWarning?
    ensures out.0 == if cfg.format.Html? then s.(htmlWritten := true) else s
    ensures out.1.HtmlExport? ==> (out.1.outcome == AlreadyWritten <==> s.htmlWritten)
    ensures out.1.XmlExport? ==> ReadLocs(out.1.lines) == UrlsOf(s.pages)
    ensures out.1.JsonExport? ==> out.1.pages == s.pages
    ensures out.1.CsvExport? ==> |out.1.lines| == |s.pages| + 1
    ensures out.1.CsvExport? ==>
              && ReadRow(out.1.lines[0]) == Some(if cfg.includeContent then ["url", "title"] else ["url"])
              && forall i :: 0 <= i < |s.pages| ==>
                   ReadRow(out.1.lines[i + 1])
                   == Some(if cfg.includeContent then [s.pages[i].url, s.pages[i].title] else [s.pages[i].url])
    ensures out.1.UnsupportedWarning? ==> out.1.name == cfg.format.name
  {
    match cfg.format
    case Html =>
      var w := WriteHtmlSitemap(s);
      (w.0, HtmlExport(w.1))
    case Xml =>
      XmlRoundTrip(s.pages, now);
      (s, XmlExport(XmlLines(s.pages, now)))
    case Json => (s, JsonExport(s.pages))
    case Csv =>
      CsvRoundTrip(s.pages, cfg.includeContent);
      (s, CsvExport(CsvLines(s.pages, cfg.includeContent)))
    case Unsupported(name) => (s, UnsupportedWarning(name))
  }

  /** The second call of `closed()` writes no second HTML sitemap and
      rewrites a flat export with the same pages. */
  lemma ClosedTwice(cfg: Config, s: SpiderState, now1: string, now2: string)
    ensures var first := Closed(cfg, s, now1);
            var second := Closed(cfg, first.0, now2);
            && second.0 == first.0
            && (cfg.format.Html? ==> second.1 == HtmlExport(AlreadyWritten))
            && (cfg.format.Csv? || cfg.format.Json? || cfg.format.Unsupported? ==> second.1 == first.1)
            && (cfg.format.Xml? ==> ReadLocs(second.1.lines) == ReadLocs(first.1.lines))
  {
  }

  /** From the constructor's arguments to the export: "HTML" in any
      ASCII case selects the HTML sitemap. */
  lemma ExportSelectorIgnoresCase(url: string, s: SpiderState, now: string)
    requires url != "" && !s.htmlWritten
    ensures var cfg := MakeConfig(Some(url), None, None, Absent, 250, "HTML", Absent);
            cfg.Success? && Closed(cfg.value, s, now).1.HtmlExport?
            && Closed(cfg.value, s, now).1.outcome != AlreadyWritten
  {
    assert Lower("HTML") == "html";
  }
}
