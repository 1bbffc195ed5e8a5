/** What the page callback promises, one delivery at a time and over a
    whole crawl: re-delivery is a no-op, the early exits record
    nothing, the page budget only stops link expansion, only http(s)
    links are followed, each asset URL is submitted at most once, and
    every visited URL yields at most one page record. */
module CrawlProperties {
  import opened Wrappers
  import opened Text
  import opened Urls
  import opened SpiderConfig
  import opened Crawl

  /** The URLs of the asset requests, in order. */
  function AssetUrls(reqs: seq<Request>): seq<string>
    decreases |reqs|
  {
    if |reqs| == 0 then []
    else (if reqs[0].FetchAsset? then [reqs[0].url] else []) + AssetUrls(reqs[1..])
  }

  lemma {:induction false} AssetUrlsAppend(a: seq<Request>, b: seq<Request>)
    ensures AssetUrls(a + b) == AssetUrls(a) + AssetUrls(b)
    decreases |a|
  {
    if |a| > 0 {
      assert (a + b)[1..] == a[1..] + b;
      AssetUrlsAppend(a[1..], b);
    } else {
      assert a + b == b;
    }
  }

  lemma AssetUrlsCons(q: Request, rest: seq<Request>)
    ensures AssetUrls([q] + rest) == (if q.FetchAsset? then [q.url] else []) + AssetUrls(rest)
  {
    assert ([q] + rest)[1..] == rest;
  }

  lemma {:induction false} AssetUrlsOfAssetRequests(assets: seq<string>)
    ensures AssetUrls(AssetRequests(assets)) == assets
    decreases |assets|
  {
    if |assets| > 0 {
      AssetUrlsCons(FetchAsset(assets[0]), AssetRequests(assets[1..]));
      AssetUrlsOfAssetRequests(assets[1..]);
      assert assets == [assets[0]] + assets[1..];
    }
  }

  lemma {:induction false} AssetUrlsOfPageRequests(pages: seq<string>)
    ensures AssetUrls(PageRequests(pages)) == []
    decreases |pages|
  {
    if |pages| > 0 {
      AssetUrlsCons(FollowPage(pages[0]), PageRequests(pages[1..]));
      AssetUrlsOfPageRequests(pages[1..]);
    }
  }

  lemma AssetUrlsOfRequests(assets: seq<string>, pages: seq<string>)
    ensures AssetUrls(AssetRequests(assets) + PageRequests(pages)) == assets
  {
    AssetUrlsAppend(AssetRequests(assets), PageRequests(pages));
    AssetUrlsOfAssetRequests(assets);
    AssetUrlsOfPageRequests(pages);
    assert assets + [] == assets;
  }

  /** The URLs of the page requests, in order. */
  function PageUrls(reqs: seq<Request>): seq<string>
    decreases |reqs|
  {
    if |reqs| == 0 then []
    else (if reqs[0].FollowPage? then [reqs[0].url] else []) + PageUrls(reqs[1..])
  }

  lemma {:induction false} PageUrlsAppend(a: seq<Request>, b: seq<Request>)
    ensures PageUrls(a + b) == PageUrls(a) + PageUrls(b)
    decreases |a|
  {
    if |a| > 0 {
      assert (a + b)[1..] == a[1..] + b;
      PageUrlsAppend(a[1..], b);
    } else {
      assert a + b == b;
    }
  }

  lemma PageUrlsCons(q: Request, rest: seq<Request>)
    ensures PageUrls([q] + rest) == (if q.FollowPage? then [q.url] else []) + PageUrls(rest)
  {
    assert ([q] + rest)[1..] == rest;
  }

  lemma {:induction false} PageUrlsOfAssetRequests(assets: seq<string>)
    ensures PageUrls(AssetRequests(assets)) == []
    decreases |assets|
  {
    if |assets| > 0 {
      PageUrlsCons(FetchAsset(assets[0]), AssetRequests(assets[1..]));
      PageUrlsOfAssetRequests(assets[1..]);
    }
  }

  lemma {:induction false} PageUrlsOfPageRequests(pages: seq<string>)
    ensures PageUrls(PageRequests(pages)) == pages
    decreases |pages|
  {
    if |pages| > 0 {
      PageUrlsCons(FollowPage(pages[0]), PageRequests(pages[1..]));
      PageUrlsOfPageRequests(pages[1..]);
      assert pages == [pages[0]] + pages[1..];
    }
  }

  lemma PageUrlsOfRequests(assets: seq<string>, pages: seq<string>)
    ensures PageUrls(AssetRequests(assets) + PageRequests(pages)) == pages
  {
    PageUrlsAppend(AssetRequests(assets), PageRequests(pages));
    PageUrlsOfAssetRequests(assets);
    PageUrlsOfPageRequests(pages);
    assert [] + pages == pages;
  }

  /** The assets a recorded delivery picks: none unless downloading is on. */
  function Picked(cfg: Config, s: SpiderState, r: Response): (set<string>, seq<string>) {
    if cfg.download then SelectAssets(s.assets, r.assetRefs) else (s.assets, [])
  }

  /** The links a recorded delivery journals and follows: none once the
      page budget is reached. */
  function Links(cfg: Config, s: SpiderState, r: Response): (seq<JournalEntry>, seq<string>) {
    if |s.visited + {r.url}| < cfg.maxPages then FollowLinks(r.anchors) else ([], [])
  }

  /** A recorded delivery, in terms of the assets it picks and the links
      it classifies. */
  lemma ParseOfRecorded(cfg: Config, search: (string, string) -> bool, s: SpiderState, r: Response)
    requires IsRecorded(cfg, search, s, r)
    ensures Parse(cfg, search, s, r).0.assets == Picked(cfg, s, r).0
    ensures Parse(cfg, search, s, r).0.journal == s.journal + Links(cfg, s, r).0
    ensures Parse(cfg, search, s, r).1 == AssetRequests(Picked(cfg, s, r).1) + PageRequests(Links(cfg, s, r).1)
  {
    if |s.visited + {r.url}| >= cfg.maxPages {
      assert PageRequests([]) == [];
      assert s.journal + [] == s.journal;
      assert AssetRequests(Picked(cfg, s, r).1) + [] == AssetRequests(Picked(cfg, s, r).1);
    }
  }

  /** Asset requests followed by page requests: the page requests are
      exactly the page URLs. */
  lemma PageRequestsOfParts(assets: seq<string>, pages: seq<string>)
    ensures forall u :: FollowPage(u) in AssetRequests(assets) + PageRequests(pages) <==> u in pages
  {
    var a := AssetRequests(assets);
    var reqs := a + PageRequests(pages);
    assert forall i :: 0 <= i < |a| ==> reqs[i].FetchAsset?;
    assert forall i :: 0 <= i < |pages| ==> reqs[|a| + i] == FollowPage(pages[i]);
    forall u | FollowPage(u) in reqs ensures u in pages {
      var i :| 0 <= i < |reqs| && reqs[i] == FollowPage(u);
      assert reqs[i] == PageRequests(pages)[i - |a|];
    }
  }

  /** A second delivery under the same URL changes nothing and yields
      nothing, whatever that response holds (a redirect may deliver a
      different body under a URL already seen); the first delivery
      marked the URL visited. */
  lemma ParseRedeliveryIsNoOp(cfg: Config, search: (string, string) -> bool, s: SpiderState, r: Response, r2: Response)
    requires r2.url == r.url
    ensures var first := Parse(cfg, search, s, r);
            r.url in first.0.visited && Parse(cfg, search, first.0, r2) == (first.0, [])
  {
  }

  /** A non-HTML response is marked visited and journaled once, and
      nothing else happens. */
  lemma ParseSkipsNonHtml(cfg: Config, search: (string, string) -> bool, s: SpiderState, r: Response)
    requires r.url !in s.visited
    requires !Contains(r.contentType, "text/html")
    ensures Parse(cfg, search, s, r)
            == (s.(visited := s.visited + {r.url},
                   journal := s.journal + [JournalEntry(r.url, "skipped non-HTML content (" + r.contentType + ")")]),
                [])
  {
  }

  /** An HTML page that fails the substring filter or the pattern is
      only marked visited: no record, no journal line, no request. */
  lemma ParseSkipsFiltered(cfg: Config, search: (string, string) -> bool, s: SpiderState, r: Response)
    requires r.url !in s.visited
    requires Contains(r.contentType, "text/html")
    requires !PassesFilter(cfg.filter, r.url) || !PassesPattern(cfg.pattern, search, r.url)
    ensures Parse(cfg, search, s, r) == (s.(visited := s.visited + {r.url}), [])
  {
  }

  /** The page budget is checked after the page is recorded and only
      gates link expansion: at or over budget the page still gets its
      record, no link is followed and no link is journaled. */
  lemma ParseAtBudgetRecordsButDoesNotFollow(cfg: Config, search: (string, string) -> bool, s: SpiderState, r: Response)
    requires IsRecorded(cfg, search, s, r)
    requires cfg.maxPages <= |s.visited + {r.url}|
    ensures var out := Parse(cfg, search, s, r);
            && out.0.pages == s.pages + [PageRecord(r.url, if cfg.includeContent then TitleText(r.title) else "")]
            && out.0.journal == s.journal
            && forall q :: q in out.1 ==> q.FetchAsset?
  {
  }

  /** With `max_pages = 1` the seed page is recorded and none of its
      links are followed. */
  lemma SeedWithBudgetOne(cfg: Config, search: (string, string) -> bool, r: Response)
    requires cfg.maxPages == 1
    requires IsRecorded(cfg, search, Initial, r)
    ensures var out := Parse(cfg, search, Initial, r);
            && |out.0.pages| == 1 && out.0.pages[0].url == r.url
            && forall q :: q in out.1 ==> !q.FollowPage?
  {
    ParseAtBudgetRecordsButDoesNotFollow(cfg, search, Initial, r);
  }

  /** Under budget, a recorded page follows exactly its followable
      anchors, journals a rejection for every other non-empty anchor,
      and every followed URL is http or https.  The new journal lines
      and the followed URLs are exactly those of the link loop, in
      document order (see `FollowLinksOne` and `FollowLinksAppend`). */
  lemma ParseFollowsExactlyWebLinks(cfg: Config, search: (string, string) -> bool, s: SpiderState, r: Response)
    requires IsRecorded(cfg, search, s, r)
    requires |s.visited + {r.url}| < cfg.maxPages
    ensures var out := Parse(cfg, search, s, r);
            && (forall u :: FollowPage(u) in out.1 <==>
                  exists k :: 0 <= k < |r.anchors| && IsFollowable(r.anchors[k]) && r.anchors[k].resolved == u)
            && (forall u :: FollowPage(u) in out.1 ==> Scheme(u) in WebSchemes)
            && (forall k :: 0 <= k < |r.anchors| && r.anchors[k].href != "" && !IsFollowable(r.anchors[k]) ==>
                  Rejection(r.anchors[k]) in out.0.journal[|s.journal|..])
            && |out.0.journal| - |s.journal| + |out.1| - |AssetUrls(out.1)| == CountNonEmpty(r.anchors)
            && out.0.journal == s.journal + FollowLinks(r.anchors).0
            && PageUrls(out.1) == FollowLinks(r.anchors).1
  {
    var out := Parse(cfg, search, s, r);
    var picked := Picked(cfg, s, r);
    var links := FollowLinks(r.anchors);
    ParseOfRecorded(cfg, search, s, r);
    assert out.0.journal[|s.journal|..] == links.0;
    PageRequestsOfParts(picked.1, links.1);
    AssetUrlsOfRequests(picked.1, links.1);
    PageUrlsOfRequests(picked.1, links.1);
  }

  /** A page whose only link is a `tel:` href journals exactly that
      href as a "tel link" and requests no page. */
  lemma OnlyTelLinkIsJournaled(cfg: Config, search: (string, string) -> bool, s: SpiderState, r: Response, resolved: string)
    requires IsRecorded(cfg, search, s, r)
    requires |s.visited + {r.url}| < cfg.maxPages
    requires r.anchors == [Anchor("tel:+15551234567", resolved)]
    ensures var out := Parse(cfg, search, s, r);
            && out.0.journal == s.journal + [JournalEntry("tel:+15551234567", "tel link")]
            && forall q :: q in out.1 ==> !q.FollowPage?
  {
    var a := Anchor("tel:+15551234567", resolved);
    assert a.href[..4] == "tel:";
    assert IsSpecialHref(a.href) && SpecialReason(a.href) == "tel link";
    assert [a][1..] == [];
    assert FollowLinks([a][1..]) == ([], []);
    assert FollowLinks([a]) == ([Rejection(a)] + [], []);
    assert [Rejection(a)] + [] == [Rejection(a)];
  }

  /** `urls` were submitted as new assets: each once, none already in
      `before`, and `after` is `before` plus exactly them. */
  predicate FreshSubmissions(before: set<string>, urls: seq<string>, after: set<string>) {
    && Distinct(urls)
    && (forall u :: u in urls ==> u !in before)
    && after == before + set u | u in urls
  }

  /** The asset requests of one delivery: only with downloading on,
      only document URLs from the page, each new to `assets`, each once,
      and `assets` grows by exactly them. */
  lemma ParseSubmitsAssetsOnce(cfg: Config, search: (string, string) -> bool, s: SpiderState, r: Response)
    ensures FreshSubmissions(s.assets, AssetUrls(Parse(cfg, search, s, r).1), Parse(cfg, search, s, r).0.assets)
    ensures forall u :: u in AssetUrls(Parse(cfg, search, s, r).1) ==> IsAssetUrl(u) && u in r.assetRefs
    ensures !cfg.download ==> AssetUrls(Parse(cfg, search, s, r).1) == []
  {
    if IsRecorded(cfg, search, s, r) {
      ParseOfRecorded(cfg, search, s, r);
      AssetUrlsOfRequests(Picked(cfg, s, r).1, Links(cfg, s, r).1);
    } else {
      assert AssetUrls([]) == [];
      assert (set u | u in AssetUrls([])) == {};
    }
  }

  /** Every page record belongs to a visited URL, and no URL has two
      records. */
  ghost predicate Valid(s: SpiderState) {
    && (forall i :: 0 <= i < |s.pages| ==> s.pages[i].url in s.visited)
    && (forall i, j :: 0 <= i < j < |s.pages| ==> s.pages[i].url != s.pages[j].url)
  }

  lemma ParseKeepsValid(cfg: Config, search: (string, string) -> bool, s: SpiderState, r: Response)
    requires Valid(s)
    ensures Valid(Parse(cfg, search, s, r).0)
  {
  }

  /** Scrapy delivering responses one after the other. */
  function Run(cfg: Config, search: (string, string) -> bool, s: SpiderState, rs: seq<Response>)
    : (out: (SpiderState, seq<Request>))
    ensures s.visited <= out.0.visited && s.assets <= out.0.assets
    ensures s.pages <= out.0.pages && s.journal <= out.0.journal
    decreases |rs|
  {
    if |rs| == 0 then (s, [])
    else
      var step := Parse(cfg, search, s, rs[0]);
      var rest := Run(cfg, search, step.0, rs[1..]);
      (rest.0, step.1 + rest.1)
  }

  /** Over a whole crawl every visited URL has at most one page record. */
  lemma {:induction false} RunKeepsValid(cfg: Config, search: (string, string) -> bool, s: SpiderState, rs: seq<Response>)
    requires Valid(s)
    ensures Valid(Run(cfg, search, s, rs).0)
    decreases |rs|
  {
    if |rs| > 0 {
      ParseKeepsValid(cfg, search, s, rs[0]);
      RunKeepsValid(cfg, search, Parse(cfg, search, s, rs[0]).0, rs[1..]);
    }
  }

  lemma DistinctConcat<T>(a: seq<T>, b: seq<T>)
    requires Distinct(a) && Distinct(b)
    requires forall u :: u in a ==> u !in b
    ensures Distinct(a + b)
  {
    forall i, j | 0 <= i < j < |a + b| ensures (a + b)[i] != (a + b)[j] {
      if i < |a| && j >= |a| {
        assert (a + b)[i] in a;
        assert (a + b)[j] in b;
      }
    }
  }

  lemma CombineAssetUrls(s0: set<string>, s1: set<string>, s2: set<string>, a: seq<string>, b: seq<string>)
    requires FreshSubmissions(s0, a, s1)
    requires FreshSubmissions(s1, b, s2)
    ensures FreshSubmissions(s0, a + b, s2)
  {
    DistinctConcat(a, b);
    assert (set u | u in a + b) == (set u | u in a) + (set u | u in b);
  }

  /** Over a whole crawl no asset URL is submitted twice, none that was
      already known is submitted, and `assets` is exactly the known ones
      plus the submitted ones. */
  lemma {:induction false} RunSubmitsEachAssetOnce(cfg: Config, search: (string, string) -> bool, s: SpiderState, rs: seq<Response>)
    ensures FreshSubmissions(s.assets, AssetUrls(Run(cfg, search, s, rs).1), Run(cfg, search, s, rs).0.assets)
    decreases |rs|
  {
    if |rs| > 0 {
      var step := Parse(cfg, search, s, rs[0]);
      var rest := Run(cfg, search, step.0, rs[1..]);
      assert Run(cfg, search, s, rs) == (rest.0, step.1 + rest.1);
      ParseSubmitsAssetsOnce(cfg, search, s, rs[0]);
      RunSubmitsEachAssetOnce(cfg, search, step.0, rs[1..]);
      AssetUrlsAppend(step.1, rest.1);
      CombineAssetUrls(s.assets, step.0.assets, rest.0.assets, AssetUrls(step.1), AssetUrls(rest.1));
    } else {
      assert Run(cfg, search, s, rs) == (s, []);
      assert AssetUrls([]) == [];
      assert (set u | u in AssetUrls([])) == {};
    }
  }
}
