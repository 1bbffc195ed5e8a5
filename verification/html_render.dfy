/** `render_list` and `write_html_sitemap`: the page tree becomes nested
    `<ul>` lists, one line of HTML per page, per heading, per opened and
    per closed level.  The HTML template around the list (styles, the
    header with the domain, date and page total) is not modelled. */
module HtmlRender {
  import opened Wrappers
  import opened Text
  import opened Urls
  import opened Crawl
  import opened SitemapTree

  /** One line `render_list` emits. */
  datatype Line =
    | PageLine(page: PageRecord, last: bool)
    | HeadLine(key: string, count: nat)
    | OpenLevel(level: nat)
    | CloseLevel

  /** The lines for one "__pages__" list; only the final one is marked
      " last-page". */
  function PageLines(ps: seq<PageRecord>): (ls: seq<Line>)
    ensures |ls| == |ps|
    ensures forall i :: 0 <= i < |ps| ==> ls[i].PageLine? && ls[i].page == ps[i]
    ensures forall i :: 0 <= i < |ps| ==> (ls[i].last <==> i == |ps| - 1)
  {
    seq(|ps|, i requires 0 <= i < |ps| => PageLine(ps[i], i == |ps| - 1))
  }

  /** `render_list(tree, level)`; `None` is the TypeError raised when a
      "__pages__" key holds a non-empty dictionary. */
  function RenderItems(items: seq<Item>, level: nat): Option<seq<Line>>
    decreases items
  {
    if |items| == 0 then Some([])
    else
      match RenderItem(items[0], level)
      case None => None
      case Some(a) =>
        match RenderItems(items[1..], level)
        case None => None
        case Some(b) => Some(a + b)
  }

  function RenderItem(it: Item, level: nat): Option<seq<Line>>
    decreases it
  {
    match it
    case Bucket(ps) => Some(PageLines(ps))
    case Child(k, n) =>
      if k == PagesKey then
        if |n.items| == 0 then Some([]) else None
      else
        match RenderItems(n.items, level + 1)
        case None => None
        case Some(inner) => Some([HeadLine(k, CountLeafPages(n)), OpenLevel(level + 1)] + inner + [CloseLevel])
  }

  // ---- when rendering succeeds ----

  /** Rendering fails exactly when some "__pages__" key holds a
      non-empty dictionary. */
  lemma {:induction false} RenderSucceedsIffRenderable(items: seq<Item>, level: nat)
    ensures RenderItems(items, level).Some? <==> forall i :: 0 <= i < |items| ==> RenderableItem(items[i])
    decreases items
  {
    if |items| > 0 {
      RenderItemSucceedsIffRenderable(items[0], level);
      RenderSucceedsIffRenderable(items[1..], level);
      assert forall i :: 0 < i < |items| ==> items[i] == items[1..][i - 1];
    }
  }

  lemma {:induction false} RenderItemSucceedsIffRenderable(it: Item, level: nat)
    ensures RenderItem(it, level).Some? <==> RenderableItem(it)
    decreases it
  {
    if it.Child? && it.name != PagesKey {
      RenderSucceedsIffRenderable(it.node.items, level + 1);
    }
  }

  // ---- what the rendered lines list ----

  /** The page records listed by `ls`, in order. */
  function PagesOf(ls: seq<Line>): seq<PageRecord>
    decreases |ls|
  {
    if |ls| == 0 then []
    else (if ls[0].PageLine? then [ls[0].page] else []) + PagesOf(ls[1..])
  }

  lemma {:induction false} PagesOfAppend(a: seq<Line>, b: seq<Line>)
    ensures PagesOf(a + b) == PagesOf(a) + PagesOf(b)
    decreases |a|
  {
    if |a| > 0 {
      assert (a + b)[1..] == a[1..] + b;
      PagesOfAppend(a[1..], b);
    } else {
      assert a + b == b;
    }
  }

  /** A run of page lines lists its pages one for one. */
  lemma {:induction false} PagesOfPageRun(ls: seq<Line>)
    requires forall i :: 0 <= i < |ls| ==> ls[i].PageLine?
    ensures |PagesOf(ls)| == |ls|
    ensures forall i :: 0 <= i < |ls| ==> PagesOf(ls)[i] == ls[i].page
    decreases |ls|
  {
    if |ls| > 0 {
      PagesOfPageRun(ls[1..]);
    }
  }

  lemma PagesOfPageLines(ps: seq<PageRecord>)
    ensures PagesOf(PageLines(ps)) == ps
  {
    PagesOfPageRun(PageLines(ps));
  }

  /** The rendered list names every record of the tree, in tree order,
      and nothing else. */
  lemma {:induction false} RenderedPagesAreTheTree(items: seq<Item>, level: nat)
    requires RenderItems(items, level).Some?
    ensures PagesOf(RenderItems(items, level).value) == FlattenItems(items)
    decreases items
  {
    if |items| > 0 {
      RenderedItemPages(items[0], level);
      RenderedPagesAreTheTree(items[1..], level);
      PagesOfAppend(RenderItem(items[0], level).value, RenderItems(items[1..], level).value);
    }
  }

  lemma {:induction false} RenderedItemPages(it: Item, level: nat)
    requires RenderItem(it, level).Some?
    ensures PagesOf(RenderItem(it, level).value) == FlattenItem(it)
    decreases it
  {
    match it
    case Bucket(ps) => PagesOfPageLines(ps);
    case Child(k, n) =>
      if k != PagesKey {
        var inner := RenderItems(n.items, level + 1).value;
        RenderedPagesAreTheTree(n.items, level + 1);
        var head := [HeadLine(k, CountLeafPages(n)), OpenLevel(level + 1)];
        PagesOfAppend(head, inner);
        PagesOfAppend(head + inner, [CloseLevel]);
        assert PagesOf(head) == [] by {
          assert head[1..] == [OpenLevel(level + 1)];
          assert head[1..][1..] == [];
        }
        assert PagesOf([CloseLevel]) == [] by { assert [CloseLevel][1..] == []; }
      } else {
        assert FlattenItems(n.items) == [];
      }
  }

  /** The count shown next to a heading is the number of pages listed
      under it. */
  lemma HeadingCountsItsPages(k: string, n: Tree, level: nat)
    requires k != PagesKey
    requires RenderItem(Child(k, n), level).Some?
    ensures var ls := RenderItem(Child(k, n), level).value;
            ls[0] == HeadLine(k, |PagesOf(ls)|)
  {
    var it := Child(k, n);
    RenderItemSucceedsIffRenderable(it, level);
    assert Renderable(n);
    CountIsFlattenLength(n.items);
    RenderedItemPages(it, level);
  }

  // ---- nesting of the lists ----

  /** Scans `ls` from level `d`: an opened level must be numbered one
      deeper than the current one, and a close needs an open level.
      The result is the level reached, or `None` if the nesting breaks. */
  function Nest(ls: seq<Line>, d: nat): Option<nat>
    decreases |ls|
  {
    if |ls| == 0 then Some(d)
    else match ls[0]
      case OpenLevel(v) => if v == d + 1 then Nest(ls[1..], d + 1) else None
      case CloseLevel => if d == 0 then None else Nest(ls[1..], d - 1)
      case _ => Nest(ls[1..], d)
  }

  lemma {:induction false} NestAppend(a: seq<Line>, b: seq<Line>, d: nat)
    requires Nest(a, d).Some?
    ensures Nest(a + b, d) == Nest(b, Nest(a, d).value)
    decreases |a|
  {
    if |a| > 0 {
      assert (a + b)[1..] == a[1..] + b;
      match a[0]
      case OpenLevel(v) => NestAppend(a[1..], b, d + 1);
      case CloseLevel => NestAppend(a[1..], b, d - 1);
      case _ => NestAppend(a[1..], b, d);
    } else {
      assert a + b == b;
    }
  }

  /** A run of page lines opens and closes nothing. */
  lemma {:induction false} NestPageRun(ls: seq<Line>, d: nat)
    requires forall i :: 0 <= i < |ls| ==> ls[i].PageLine?
    ensures Nest(ls, d) == Some(d)
    decreases |ls|
  {
    if |ls| > 0 {
      NestPageRun(ls[1..], d);
    }
  }

  /** Every `<ul class="level-N">` the renderer opens is numbered one
      deeper than its parent and is closed again: rendering from level
      `level` ends at `level`. */
  lemma {:induction false} RenderIsWellNested(items: seq<Item>, level: nat)
    requires RenderItems(items, level).Some?
    ensures Nest(RenderItems(items, level).value, level) == Some(level)
    decreases items
  {
    if |items| > 0 {
      var a := RenderItem(items[0], level).value;
      var b := RenderItems(items[1..], level).value;
      RenderItemIsWellNested(items[0], level);
      RenderIsWellNested(items[1..], level);
      NestAppend(a, b, level);
    }
  }

  lemma {:induction false} RenderItemIsWellNested(it: Item, level: nat)
    requires RenderItem(it, level).Some?
    ensures Nest(RenderItem(it, level).value, level) == Some(level)
    decreases it
  {
    match it
    case Bucket(ps) => NestPageRun(PageLines(ps), level);
    case Child(k, n) =>
      if k != PagesKey {
        var inner := RenderItems(n.items, level + 1).value;
        RenderIsWellNested(n.items, level + 1);
        var head := [HeadLine(k, CountLeafPages(n)), OpenLevel(level + 1)];
        assert Nest(head, level) == Some(level + 1) by {
          assert head[1..] == [OpenLevel(level + 1)];
          assert head[1..][1..] == [];
          assert Nest(head[1..][1..], level + 1) == Some(level + 1);
          assert Nest(head[1..], level) == Some(level + 1);
        }
        NestAppend(head, inner, level);
        NestAppend(head + inner, [CloseLevel], level);
        assert Nest([CloseLevel], level + 1) == Some(level) by { assert [CloseLevel][1..] == []; }
      }
  }

  // ---- the text of a line ----

  /** `title.replace('"', "&quot;")`. */
  function EscapeQuotes(s: string): (r: string)
    ensures '"' !in r
    ensures '"' !in s ==> r == s
    ensures |r| == |s| + 5 * multiset(s)['"']
    decreases |s|
  {
    if |s| == 0 then []
    else
      var head := if s[0] == '"' then "&quot;" else [s[0]];
      var rest := EscapeQuotes(s[1..]);
      QuoteCountCons(s);
      assert '"' !in head && |head| == 1 + (if s[0] == '"' then 5 else 0);
      head + rest
  }

  lemma QuoteCountCons(s: string)
    requires |s| > 0
    ensures multiset(s)['"'] == multiset(s[1..])['"'] + (if s[0] == '"' then 1 else 0)
    ensures '"' !in s ==> s[0] != '"' && '"' !in s[1..] && s == [s[0]] + s[1..]
  {
    assert s == [s[0]] + s[1..];
  }

  /** A single character: a quote becomes "&quot;", anything else stays. */
  lemma EscapeQuotesOne(c: char)
    ensures EscapeQuotes([c]) == if c == '"' then "&quot;" else [c]
  {
    assert [c][1..] == [];
  }

  /** The replacement works character by character, keeping the order:
      escaping `a + b` is escaping `a`, then `b`. */
  lemma {:induction false} EscapeQuotesAppend(a: string, b: string)
    ensures EscapeQuotes(a + b) == EscapeQuotes(a) + EscapeQuotes(b)
    decreases |a|
  {
    if |a| == 0 {
      assert a + b == b;
    } else {
      assert (a + b)[0] == a[0];
      assert (a + b)[1..] == a[1..] + b;
      EscapeQuotesAppend(a[1..], b);
      var head := if a[0] == '"' then "&quot;" else [a[0]];
      assert head + (EscapeQuotes(a[1..]) + EscapeQuotes(b)) == (head + EscapeQuotes(a[1..])) + EscapeQuotes(b);
    }
  }

  /** The link text and tooltip: the escaped title, or the URL when the
      title is empty. */
  function Label(p: PageRecord): (shown: string)
    ensures p.title != "" ==> shown == EscapeQuotes(p.title) && '"' !in shown
    ensures p.title == "" ==> shown == p.url
  {
    if p.title != "" then EscapeQuotes(p.title) else p.url
  }

  /** The fixed pieces of a page line of the template. */
  const PageOpen: string := "<li class=\"lpage"
  const LastPage: string := " last-page"
  const HrefOpen: string := "\"><a href=\""
  const TitleOpen: string := "\" title=\""
  const TextOpen: string := "\">"
  const PageClose: string := "</a></li>\n"

  /** The HTML text of one line. */
  function LineText(l: Line): string {
    match l
    case PageLine(p, last) =>
      PageOpen + LastMark(last) + HrefOpen + p.url
      + TitleOpen + Label(p) + TextOpen + Label(p) + PageClose
    case HeadLine(k, c) =>
      "<li class=\"lhead\">" + k + "/  <span class=\"lcount\">" + NatToString(c) + " pages</span></li>\n"
    case OpenLevel(v) => "<li><ul class=\"level-" + NatToString(v) + "\">\n"
    case CloseLevel => "</ul></li>\n"
  }

  /** The HTML `render_list` returns: its lines' texts, concatenated. */
  function ListText(ls: seq<Line>): string
    decreases |ls|
  {
    if |ls| == 0 then "" else LineText(ls[0]) + ListText(ls[1..])
  }

  /** The returned HTML is built line by line: the text of `a + b` is
      the text of `a` followed by the text of `b`. */
  lemma {:induction false} ListTextAppend(a: seq<Line>, b: seq<Line>)
    ensures ListText(a + b) == ListText(a) + ListText(b)
    decreases |a|
  {
    if |a| == 0 {
      assert a + b == b;
    } else {
      assert (a + b)[0] == a[0];
      assert (a + b)[1..] == a[1..] + b;
      ListTextAppend(a[1..], b);
    }
  }

  /** The number of '"' characters in `s`. */
  function QuoteCount(s: string): nat
    decreases |s|
  {
    if |s| == 0 then 0 else (if s[0] == '"' then 1 else 0) + QuoteCount(s[1..])
  }

  lemma {:induction false} QuoteCountAppend(a: string, b: string)
    ensures QuoteCount(a + b) == QuoteCount(a) + QuoteCount(b)
    decreases |a|
  {
    if |a| == 0 {
      assert a + b == b;
    } else {
      assert (a + b)[0] == a[0];
      assert (a + b)[1..] == a[1..] + b;
      QuoteCountAppend(a[1..], b);
    }
  }

  lemma {:induction false} QuoteFreeCount(s: string)
    requires '"' !in s
    ensures QuoteCount(s) == 0
    decreases |s|
  {
    if |s| > 0 {
      assert s[0] in s;
      assert forall j :: 0 <= j < |s[1..]| ==> s[1..][j] == s[j + 1];
      QuoteFreeCount(s[1..]);
    }
  }

  /** Splits a literal at its quotes: `a`, a quote, `b`. */
  lemma QuoteCountAround(a: string, b: string)
    requires '"' !in a && '"' !in b
    ensures QuoteCount(a + "\"" + b) == 1
  {
    QuoteFreeCount(a);
    QuoteFreeCount(b);
    QuoteCountAppend(a, "\"");
    QuoteCountAppend(a + "\"", b);
    assert QuoteCount("\"") == 1 by { assert "\""[1..] == ""; }
  }

  lemma QuotesOfPageOpen()
    ensures QuoteCount(PageOpen) == 1
  {
    assert PageOpen == "<li class=" + "\"" + "lpage";
    QuoteCountAround("<li class=", "lpage");
  }

  lemma QuotesOfHrefOpen()
    ensures QuoteCount(HrefOpen) == 2
  {
    assert HrefOpen == ("" + "\"" + "><a href=") + ("" + "\"" + "");
    QuoteCountAround("", "><a href=");
    QuoteCountAround("", "");
    QuoteCountAppend("" + "\"" + "><a href=", "" + "\"" + "");
  }

  lemma QuotesOfTitleOpen()
    ensures QuoteCount(TitleOpen) == 2
  {
    assert TitleOpen == ("" + "\"" + " title=") + ("" + "\"" + "");
    QuoteCountAround("", " title=");
    QuoteCountAround("", "");
    QuoteCountAppend("" + "\"" + " title=", "" + "\"" + "");
  }

  lemma QuotesOfTextOpen()
    ensures QuoteCount(TextOpen) == 1
  {
    assert TextOpen == "" + "\"" + ">";
    QuoteCountAround("", ">");
  }

  lemma QuotesOfClassPiece(cls: string)
    requires QuoteCount(cls) == 0
    ensures QuoteCount(PageOpen + cls) == 1
  {
    QuotesOfPageOpen();
    QuoteCountAppend(PageOpen, cls);
  }

  /** The class suffix that marks the last page of a list. */
  function LastMark(last: bool): (m: string)
    ensures QuoteCount(m) == 0
  {
    QuoteFreeCount(LastPage);
    if last then LastPage else ""
  }

  lemma QuotesOfPageClose()
    ensures QuoteCount(PageClose) == 0
  {
    QuoteFreeCount(PageClose);
  }

  /** Neither the shown title nor the URL adds a quote. */
  lemma QuotesOfPageFields(p: PageRecord)
    requires p.title != "" && '"' !in p.url
    ensures QuoteCount(Label(p)) == 0 && QuoteCount(p.url) == 0
  {
    QuoteFreeCount(Label(p));
    QuoteFreeCount(p.url);
  }

  /** Counting quotes over the pieces a page line is made of. */
  lemma QuoteCountOfPieces(a: string, b: string, u: string, c: string, t: string, d: string, e: string)
    requires QuoteCount(a) == 1 && QuoteCount(b) == 2 && QuoteCount(u) == 0 && QuoteCount(c) == 2
    requires QuoteCount(t) == 0 && QuoteCount(d) == 1 && QuoteCount(e) == 0
    ensures QuoteCount(a + b + u + c + t + d + t + e) == 6
  {
    QuoteCountAppend(a, b);
    QuoteCountAppend(a + b, u);
    QuoteCountAppend(a + b + u, c);
    QuoteCountAppend(a + b + u + c, t);
    QuoteCountAppend(a + b + u + c + t, d);
    QuoteCountAppend(a + b + u + c + t + d, t);
    QuoteCountAppend(a + b + u + c + t + d + t, e);
  }

  /** Every line's text sits in the returned HTML at its place: after
      the text of the lines before it and before the text of the lines
      after it. */
  lemma ListTextHoldsEveryLine(ls: seq<Line>, i: nat)
    requires i < |ls|
    ensures ListText(ls) == ListText(ls[..i]) + (LineText(ls[i]) + ListText(ls[i + 1..]))
  {
    var before, rest := ls[..i], ls[i..];
    calc {
      ListText(ls);
    == { assert ls == before + rest; }
      ListText(before + rest);
    == { ListTextAppend(before, rest); }
      ListText(before) + ListText(rest);
    == { ListTextCons(rest); assert rest[0] == ls[i] && rest[1..] == ls[i + 1..]; }
      ListText(before) + (LineText(ls[i]) + ListText(ls[i + 1..]));
    }
  }

  /** One step of `ListText`: the first line's text, then the rest. */
  lemma ListTextCons(ls: seq<Line>)
    requires |ls| > 0
    ensures ListText(ls) == LineText(ls[0]) + ListText(ls[1..])
  {
  }

  /** Escaping keeps the `title` attribute closed: a page line for a
      page with a title and a quote-free URL holds exactly the six
      quote characters of its three attributes. */
  lemma PageLineQuotes(p: PageRecord, last: bool)
    requires p.title != "" && '"' !in p.url
    ensures QuoteCount(LineText(PageLine(p, last))) == 6
  {
    QuotesOfClassPiece(LastMark(last));
    QuotesOfHrefOpen();
    QuotesOfTitleOpen();
    QuotesOfTextOpen();
    QuotesOfPageClose();
    QuotesOfPageFields(p);
    QuoteCountOfPieces(PageOpen + LastMark(last), HrefOpen, p.url, TitleOpen, Label(p), TextOpen, PageClose);
  }

  // ---- write_html_sitemap ----

  /** What one call of `write_html_sitemap` leaves in the output file. */
  datatype HtmlOutcome =
    | AlreadyWritten        // the guard returned at once
    | BuildFailed           // build_tree raised before the file was opened
    | HeaderOnly            // render_list raised after the template head was written
    | Written(lines: seq<Line>, html: string)

  /** `write_html_sitemap`: runs once per spider; the guard flag is set
      before the tree is built, so a failed build is not retried. */
  function WriteHtmlSitemap(s: SpiderState): (out: (SpiderState, HtmlOutcome))
    ensures out.0 == s.(htmlWritten := true)
    ensures s.htmlWritten <==> out.1 == AlreadyWritten
    ensures out.1.Written? ==> out.1.html == ListText(out.1.lines)
  {
    if s.htmlWritten then (s, AlreadyWritten)
    else
      var s' := s.(htmlWritten := true);
      match BuildTree(s.pages)
      case None => (s', BuildFailed)
      case Some(t) =>
        match RenderItems(t.items, 0)
        case None => (s', HeaderOnly)
        case Some(ls) => (s', Written(ls, ListText(ls)))
  }

  /** A second call writes nothing and changes nothing. */
  lemma HtmlSitemapWrittenOnce(s: SpiderState)
    ensures var first := WriteHtmlSitemap(s);
            WriteHtmlSitemap(first.0) == (first.0, AlreadyWritten)
  {
  }

  /** On a crawl whose URL paths have no "__pages__" segment the sitemap
      is written in full: it lists every recorded page exactly as often
      as it was recorded, and its lists are well nested. */
  lemma HtmlSitemapListsEveryPage(s: SpiderState)
    requires !s.htmlWritten
    requires forall i :: 0 <= i < |s.pages| ==> PagesKey !in Place(PathOf(s.pages[i].url))
    ensures WriteHtmlSitemap(s).1.Written?
    ensures multiset(PagesOf(WriteHtmlSitemap(s).1.lines)) == multiset(s.pages)
    ensures Nest(WriteHtmlSitemap(s).1.lines, 0) == Some(0)
  {
    BuildTreeSucceeds(s.pages);
    var t := BuildTree(s.pages).value;
    NoPagesChildIsRenderable(t);
    RenderSucceedsIffRenderable(t.items, 0);
    RenderedPagesAreTheTree(t.items, 0);
    RenderIsWellNested(t.items, 0);
    BuildTreeKeepsEveryPage(s.pages);
  }
}
