/** The page callback `BasicSpider.parse` as a pure transition over an
    explicit spider state.  The fetch engine's response is an input:
    its URL, declared content type, extracted `<title>` text, the
    already-resolved asset references, and each anchor's raw href
    together with the absolute URL `response.urljoin` makes of it.
    The requests the generator yields are the output, in order. */
module Crawl {
  import opened Wrappers
  import opened Text
  import opened Urls
  import opened SpiderConfig

  /** One `page_data` entry. */
  datatype PageRecord = PageRecord(url: string, title: string)

  /** One line of the unusual-links journal. */
  datatype JournalEntry = JournalEntry(url: string, reason: string)

  /** The spider's mutable attributes, as one immutable value. */
  datatype SpiderState = SpiderState(
    visited: set<string>,
    assets: set<string>,
    pages: seq<PageRecord>,
    journal: seq<JournalEntry>,
    assetHashes: set<string>,
    htmlWritten: bool)

  /** The state right after `__init__`. */
  const Initial := SpiderState({}, {}, [], [], {}, false)

  /** A request the page callback yields. */
  datatype Request = FetchAsset(url: string) | FollowPage(url: string)

  /** An `<a href>` as found, and the absolute URL it resolves to. */
  datatype Anchor = Anchor(href: string, resolved: string)

  /** What the fetch engine hands to the page callback. */
  datatype Response = Response(
    url: string,
    contentType: string,
    title: Option<string>,
    assetRefs: seq<string>,
    anchors: seq<Anchor>)

  predicate Distinct<T(==)>(s: seq<T>) {
    forall i, j :: 0 <= i < j < |s| ==> s[i] != s[j]
  }

  // ---- page admission ----

  /** `self.filter and self.filter not in url` fails a page. */
  predicate PassesFilter(filter: Option<string>, url: string) {
    filter.None? || filter.value == "" || Contains(url, filter.value)
  }

  /** `self.pattern and not re.search(self.pattern, url, re.IGNORECASE)`
      fails a page; `search(pattern, url)` stands for the regular
      expression search. */
  predicate PassesPattern(pattern: Option<string>, search: (string, string) -> bool, url: string) {
    pattern.None? || pattern.value == "" || search(pattern.value, url)
  }

  /** `title.strip() if title else ""`. */
  function TitleText(title: Option<string>): string {
    match title
    case None => ""
    case Some(t) => if t == "" then "" else Strip(t)
  }

  // ---- asset selection ----

  /** Case-insensitive match of one character against a lower-case
      pattern character, as Python's `re.IGNORECASE` does it: a letter
      also matches its upper-case form, 'i' also matches U+0130 and
      U+0131, and 's' also matches U+017F. */
  predicate MatchesIgnoringCase(c: char, p: char) {
    if 'a' <= p <= 'z' then
      || c == p
      || c == (p as int - 32) as char
      || (p == 'i' && (c == '\U{130}' || c == '\U{131}'))
      || (p == 's' && c == '\U{17F}')
    else c == p
  }

  predicate EndsWithIgnoringCase(s: string, suffix: string) {
    |suffix| <= |s|
    && forall k :: 0 <= k < |suffix| ==> MatchesIgnoringCase(s[|s| - |suffix| + k], suffix[k])
  }

  predicate HasAssetExtension(u: string) {
    || EndsWithIgnoringCase(u, ".pdf")
    || EndsWithIgnoringCase(u, ".zip")
    || EndsWithIgnoringCase(u, ".docx")
    || EndsWithIgnoringCase(u, ".xlsx")
    || EndsWithIgnoringCase(u, ".pptx")
  }

  /** `re.search(r"\.(pdf|zip|docx|xlsx|pptx)$", u, re.IGNORECASE)`;
      `$` also matches just before a final newline. */
  predicate IsAssetUrl(u: string) {
    HasAssetExtension(u) || (0 < |u| && u[|u| - 1] == '\n' && HasAssetExtension(u[..|u| - 1]))
  }

  /** The asset loop: each reference that looks like a document and is
      not yet in `assets` is added to it and submitted, once. */
  function SelectAssets(assets: set<string>, refs: seq<string>): (r: (set<string>, seq<string>))
    ensures r.0 == assets + set u | u in r.1
    ensures Distinct(r.1)
    ensures forall i :: 0 <= i < |r.1| ==> r.1[i] !in assets && IsAssetUrl(r.1[i]) && r.1[i] in refs
    ensures forall u :: u in refs && IsAssetUrl(u) ==> u in r.0
    decreases |refs|
  {
    if |refs| == 0 then (assets, [])
    else
      var u := refs[0];
      if IsAssetUrl(u) && u !in assets then
        var rest := SelectAssets(assets + {u}, refs[1..]);
        (rest.0, [u] + rest.1)
      else
        SelectAssets(assets, refs[1..])
  }

  // ---- outbound links ----

  const WebSchemes: set<string> := {"http", "https"}

  /** The three prefixes the link loop rejects before resolving. */
  predicate IsSpecialHref(href: string) {
    StartsWith(href, "tel:") || StartsWith(href, "mailto:") || StartsWith(href, "javascript:")
  }

  function SpecialReason(href: string): string {
    if StartsWith(href, "tel:") then "tel link"
    else if StartsWith(href, "mailto:") then "mailto link"
    else "javascript link"
  }

  /** The journal entry the link loop writes for an anchor it does not
      follow. */
  function Rejection(a: Anchor): JournalEntry {
    if IsSpecialHref(a.href) then JournalEntry(a.href, SpecialReason(a.href))
    else JournalEntry(a.resolved, "non-http scheme: " + Scheme(a.resolved))
  }

  /** The anchor is followed: non-empty, no special prefix, and its
      resolved URL is http or https. */
  predicate IsFollowable(a: Anchor) {
    a.href != "" && !IsSpecialHref(a.href) && Scheme(a.resolved) in WebSchemes
  }

  function CountNonEmpty(anchors: seq<Anchor>): nat
    decreases |anchors|
  {
    if |anchors| == 0 then 0
    else (if anchors[0].href != "" then 1 else 0) + CountNonEmpty(anchors[1..])
  }

  /** The link loop: skips empty hrefs, journals the rejected ones, and
      returns the URLs it follows, in document order. */
  function FollowLinks(anchors: seq<Anchor>): (r: (seq<JournalEntry>, seq<string>))
    ensures |r.0| + |r.1| == CountNonEmpty(anchors)
    ensures forall u :: u in r.1 <==> exists k :: 0 <= k < |anchors| && IsFollowable(anchors[k]) && anchors[k].resolved == u
    ensures forall u :: u in r.1 ==> Scheme(u) in WebSchemes
    ensures forall k :: 0 <= k < |anchors| && anchors[k].href != "" && !IsFollowable(anchors[k]) ==> Rejection(anchors[k]) in r.0
    ensures forall e :: e in r.0 ==> exists k :: 0 <= k < |anchors| && anchors[k].href != "" && !IsFollowable(anchors[k]) && e == Rejection(anchors[k])
    decreases |anchors|
  {
    if |anchors| == 0 then ([], [])
    else
      var a := anchors[0];
      var rest := FollowLinks(anchors[1..]);
      assert forall k :: 0 < k < |anchors| ==> anchors[k] == anchors[1..][k - 1];
      if a.href == "" then rest
      else if IsSpecialHref(a.href) then ([Rejection(a)] + rest.0, rest.1)
      else if Scheme(a.resolved) !in WebSchemes then ([Rejection(a)] + rest.0, rest.1)
      else (rest.0, [a.resolved] + rest.1)
  }

  /** What one non-empty or empty anchor adds in front of the results
      for the anchors after it. */
  function LinkStep(a: Anchor, rest: (seq<JournalEntry>, seq<string>)): (seq<JournalEntry>, seq<string>) {
    if a.href == "" then rest
    else if IsFollowable(a) then (rest.0, [a.resolved] + rest.1)
    else ([Rejection(a)] + rest.0, rest.1)
  }

  lemma FollowLinksCons(anchors: seq<Anchor>)
    requires |anchors| > 0
    ensures FollowLinks(anchors) == LinkStep(anchors[0], FollowLinks(anchors[1..]))
  {
  }

  lemma LinkStepAppend(a: Anchor, j1: seq<JournalEntry>, f1: seq<string>, j2: seq<JournalEntry>, f2: seq<string>)
    ensures LinkStep(a, (j1 + j2, f1 + f2)) == (LinkStep(a, (j1, f1)).0 + j2, LinkStep(a, (j1, f1)).1 + f2)
  {
    if a.href != "" {
      if IsFollowable(a) {
        assert [a.resolved] + (f1 + f2) == ([a.resolved] + f1) + f2;
      } else {
        assert [Rejection(a)] + (j1 + j2) == ([Rejection(a)] + j1) + j2;
      }
    }
  }

  /** One anchor on its own: an empty href yields nothing, a followable
      one is followed, any other yields its one journal line. */
  lemma FollowLinksOne(a: Anchor)
    ensures FollowLinks([a]) == if a.href == "" then ([], [])
                                else if IsFollowable(a) then ([], [a.resolved])
                                else ([Rejection(a)], [])
  {
    FollowLinksCons([a]);
    assert [a][1..] == [];
    var none: (seq<JournalEntry>, seq<string>) := ([], []);
    assert FollowLinks([]) == none;
    assert [a.resolved] + none.1 == [a.resolved];
    assert [Rejection(a)] + none.0 == [Rejection(a)];
  }

  /** The link loop works anchor by anchor in document order: the
      journal lines and followed URLs of `a + b` are those of `a`
      followed by those of `b`.  With `FollowLinksOne` this fixes how
      often and in which order every anchor is journaled or followed. */
  lemma {:induction false} FollowLinksAppend(a: seq<Anchor>, b: seq<Anchor>)
    ensures FollowLinks(a + b) == (FollowLinks(a).0 + FollowLinks(b).0, FollowLinks(a).1 + FollowLinks(b).1)
    decreases |a|
  {
    var fb := FollowLinks(b);
    if |a| == 0 {
      assert a + b == b;
      var none: (seq<JournalEntry>, seq<string>) := ([], []);
      assert FollowLinks(a) == none;
      assert none.0 + fb.0 == fb.0 && none.1 + fb.1 == fb.1;
    } else {
      var ab := a + b;
      assert ab[0] == a[0];
      assert ab[1..] == a[1..] + b;
      FollowLinksCons(ab);
      FollowLinksCons(a);
      FollowLinksAppend(a[1..], b);
      var fa := FollowLinks(a[1..]);
      LinkStepAppend(a[0], fa.0, fa.1, fb.0, fb.1);
    }
  }

  // ---- the page callback ----

  function AssetRequests(urls: seq<string>): (reqs: seq<Request>)
    ensures |reqs| == |urls|
    ensures forall i :: 0 <= i < |urls| ==> reqs[i] == FetchAsset(urls[i])
    decreases |urls|
  {
    if |urls| == 0 then [] else [FetchAsset(urls[0])] + AssetRequests(urls[1..])
  }

  function PageRequests(urls: seq<string>): (reqs: seq<Request>)
    ensures |reqs| == |urls|
    ensures forall i :: 0 <= i < |urls| ==> reqs[i] == FollowPage(urls[i])
    decreases |urls|
  {
    if |urls| == 0 then [] else [FollowPage(urls[0])] + PageRequests(urls[1..])
  }

  function NonHtmlReason(contentType: string): string {
    "skipped non-HTML content (" + contentType + ")"
  }

  /** The page is recorded: fresh, HTML, and it passes the filter and
      the pattern. */
  predicate IsRecorded(cfg: Config, search: (string, string) -> bool, s: SpiderState, r: Response) {
    && r.url !in s.visited
    && Contains(r.contentType, "text/html")
    && PassesFilter(cfg.filter, r.url)
    && PassesPattern(cfg.pattern, search, r.url)
  }

  /** `BasicSpider.parse`, run to completion. */
  function Parse(cfg: Config, search: (string, string) -> bool, s: SpiderState, r: Response)
    : (out: (SpiderState, seq<Request>))
    ensures out.0.visited == s.visited + {r.url}
    ensures out.0.assetHashes == s.assetHashes && out.0.htmlWritten == s.htmlWritten
    ensures IsRecorded(cfg, search, s, r) ==> out.0.pages == s.pages + [PageRecord(r.url, if cfg.includeContent then TitleText(r.title) else "")]
    ensures !IsRecorded(cfg, search, s, r) ==> out.0.pages == s.pages && out.1 == [] && out.0.assets == s.assets
    ensures s.assets <= out.0.assets
    ensures s.journal <= out.0.journal
  {
    if r.url in s.visited then (s, [])
    else
      var s1 := s.(visited := s.visited + {r.url});
      if !Contains(r.contentType, "text/html") then
        (s1.(journal := s1.journal + [JournalEntry(r.url, NonHtmlReason(r.contentType))]), [])
      else if !PassesFilter(cfg.filter, r.url) then (s1, [])
      else if !PassesPattern(cfg.pattern, search, r.url) then (s1, [])
      else
        var title := if cfg.includeContent then TitleText(r.title) else "";
        var s2 := s1.(pages := s1.pages + [PageRecord(r.url, title)]);
        var picked := if cfg.download then SelectAssets(s2.assets, r.assetRefs) else (s2.assets, []);
        var s3 := s2.(assets := picked.0);
        if |s3.visited| < cfg.maxPages then
          var links := FollowLinks(r.anchors);
          (s3.(journal := s3.journal + links.0), AssetRequests(picked.1) + PageRequests(links.1))
        else
          (s3, AssetRequests(picked.1))
  }
}
