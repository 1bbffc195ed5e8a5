/** The flat exports `closed()` can select, and the unusual-links
    journal: the XML sitemap (`write_xml_sitemap`), the CSV list
    (`write_csv_sitemap`, through Python's `csv.writer` with its default
    dialect) and the journal line `log_unusual_link` writes.  Each output
    comes with a reader that recovers what was written. */
module Exporters {
  import opened Wrappers
  import opened Text
  import opened Crawl

  // ---- html.escape ----

  /** `html.escape(s)` with `quote=True`, one character at a time. */
  function EscapeChar(c: char): string {
    if c == '&' then "&amp;"
    else if c == '<' then "&lt;"
    else if c == '>' then "&gt;"
    else if c == '"' then "&quot;"
    else if c == '\'' then "&#x27;"
    else [c]
  }

  function HtmlEscape(s: string): (r: string)
    ensures '<' !in r && '>' !in r && '"' !in r && '\'' !in r
    ensures |s| <= |r|
    decreases |s|
  {
    if |s| == 0 then [] else EscapeChar(s[0]) + HtmlEscape(s[1..])
  }

  /** The inverse of `HtmlEscape`: the five entities it produces become
      their characters again. */
  function HtmlUnescape(s: string): string
    decreases |s|
  {
    if |s| == 0 then []
    else if StartsWith(s, "&amp;") then "&" + HtmlUnescape(s[5..])
    else if StartsWith(s, "&lt;") then "<" + HtmlUnescape(s[4..])
    else if StartsWith(s, "&gt;") then ">" + HtmlUnescape(s[4..])
    else if StartsWith(s, "&quot;") then "\"" + HtmlUnescape(s[6..])
    else if StartsWith(s, "&#x27;") then "'" + HtmlUnescape(s[6..])
    else [s[0]] + HtmlUnescape(s[1..])
  }

  lemma PrefixOfAppend(e: string, rest: string, p: string)
    requires 2 <= |e| && 2 <= |p|
    ensures p == e ==> StartsWith(e + rest, p)
    ensures e[1] != p[1] ==> !StartsWith(e + rest, p)
  {
    var r := e + rest;
    assert r[..|e|] == e;
    assert r[1] == e[1];
  }

  lemma UnescapeAmp(rest: string)
    ensures HtmlUnescape("&amp;" + rest) == "&" + HtmlUnescape(rest)
  {
    PrefixOfAppend("&amp;", rest, "&amp;");
    assert ("&amp;" + rest)[5..] == rest;
  }

  lemma UnescapeLt(rest: string)
    ensures HtmlUnescape("&lt;" + rest) == "<" + HtmlUnescape(rest)
  {
    PrefixOfAppend("&lt;", rest, "&amp;");
    PrefixOfAppend("&lt;", rest, "&lt;");
    assert ("&lt;" + rest)[4..] == rest;
  }

  lemma UnescapeGt(rest: string)
    ensures HtmlUnescape("&gt;" + rest) == ">" + HtmlUnescape(rest)
  {
    PrefixOfAppend("&gt;", rest, "&amp;");
    PrefixOfAppend("&gt;", rest, "&lt;");
    PrefixOfAppend("&gt;", rest, "&gt;");
    assert ("&gt;" + rest)[4..] == rest;
  }

  lemma UnescapeQuot(rest: string)
    ensures HtmlUnescape("&quot;" + rest) == "\"" + HtmlUnescape(rest)
  {
    PrefixOfAppend("&quot;", rest, "&amp;");
    PrefixOfAppend("&quot;", rest, "&lt;");
    PrefixOfAppend("&quot;", rest, "&gt;");
    PrefixOfAppend("&quot;", rest, "&quot;");
    assert ("&quot;" + rest)[6..] == rest;
  }

  lemma UnescapeApos(rest: string)
    ensures HtmlUnescape("&#x27;" + rest) == "'" + HtmlUnescape(rest)
  {
    PrefixOfAppend("&#x27;", rest, "&amp;");
    PrefixOfAppend("&#x27;", rest, "&lt;");
    PrefixOfAppend("&#x27;", rest, "&gt;");
    PrefixOfAppend("&#x27;", rest, "&quot;");
    PrefixOfAppend("&#x27;", rest, "&#x27;");
    assert ("&#x27;" + rest)[6..] == rest;
  }

  /** A text that does not start with '&' starts with no entity. */
  lemma NoEntityAt(r: string, p: string)
    requires |r| > 0 && r[0] != '&'
    requires |p| > 0 && p[0] == '&'
    ensures !StartsWith(r, p)
  {
    if |p| <= |r| {
      assert r[..|p|][0] != p[0];
    }
  }

  lemma UnescapePlain(c: char, rest: string)
    requires c != '&'
    ensures HtmlUnescape([c] + rest) == [c] + HtmlUnescape(rest)
  {
    var r := [c] + rest;
    assert r[0] == c && r[1..] == rest;
    NoEntityAt(r, "&amp;");
    NoEntityAt(r, "&lt;");
    NoEntityAt(r, "&gt;");
    NoEntityAt(r, "&quot;");
    NoEntityAt(r, "&#x27;");
  }

  /** Unescaping undoes the escape of one character. */
  lemma UnescapeEscapedChar(c: char, rest: string)
    ensures HtmlUnescape(EscapeChar(c) + rest) == [c] + HtmlUnescape(rest)
  {
    if c == '&' {
      UnescapeAmp(rest);
    } else if c == '<' {
      UnescapeLt(rest);
    } else if c == '>' {
      UnescapeGt(rest);
    } else if c == '"' {
      UnescapeQuot(rest);
    } else if c == '\'' {
      UnescapeApos(rest);
    } else {
      UnescapePlain(c, rest);
    }
  }

  /** Escaping loses nothing: the original text can be read back. */
  lemma {:induction false} HtmlEscapeRoundTrip(s: string)
    ensures HtmlUnescape(HtmlEscape(s)) == s
    decreases |s|
  {
    if |s| > 0 {
      var rest := HtmlEscape(s[1..]);
      assert HtmlEscape(s) == EscapeChar(s[0]) + rest;
      UnescapeEscapedChar(s[0], rest);
      HtmlEscapeRoundTrip(s[1..]);
      assert s == [s[0]] + s[1..];
    }
  }

  // ---- write_xml_sitemap ----

  const XmlHeader: seq<string> := [
    "<?xml version=\"1.0\" encoding=\"UTF-8\"?>\n",
    "<urlset xmlns=\"http://www.sitemaps.org/schemas/sitemap/0.9\">\n"
  ]

  const XmlFooter := "</urlset>\n"

  const LocOpen := "    <loc>"
  const LocClose := "</loc>\n"

  /** The five lines written for one page; `now` is the UTC timestamp
      taken once per export. */
  function UrlEntry(p: PageRecord, now: string): seq<string> {
    [ "  <url>\n",
      LocOpen + HtmlEscape(p.url) + LocClose,
      "    <lastmod>" + now + "</lastmod>\n",
      "    <priority>0.80</priority>\n",
      "  </url>\n" ]
  }

  function UrlEntries(pages: seq<PageRecord>, now: string): (ls: seq<string>)
    ensures |ls| == 5 * |pages|
    decreases |pages|
  {
    if |pages| == 0 then [] else UrlEntry(pages[0], now) + UrlEntries(pages[1..], now)
  }

  /** The writes of `write_xml_sitemap`, in order. */
  function XmlLines(pages: seq<PageRecord>, now: string): (ls: seq<string>)
    ensures |ls| == 5 * |pages| + 3
    ensures ls[..2] == XmlHeader && ls[|ls| - 1] == XmlFooter
  {
    XmlHeader + UrlEntries(pages, now) + [XmlFooter]
  }

  /** The text between `<loc>` and `</loc>` of a loc line, unescaped. */
  function LocOf(line: string): string {
    if |line| >= |LocOpen| + |LocClose| then HtmlUnescape(line[|LocOpen|..|line| - |LocClose|]) else ""
  }

  function ReadEntries(ls: seq<string>): seq<string>
    decreases |ls|
  {
    if |ls| < 5 then [] else [LocOf(ls[1])] + ReadEntries(ls[5..])
  }

  /** A reader for the XML sitemap: the `<loc>` of every `<url>`. */
  function ReadLocs(doc: seq<string>): seq<string> {
    if |doc| < 3 then [] else ReadEntries(doc[2..|doc| - 1])
  }

  function UrlsOf(pages: seq<PageRecord>): (urls: seq<string>)
    ensures |urls| == |pages|
    ensures forall i :: 0 <= i < |pages| ==> urls[i] == pages[i].url
  {
    seq(|pages|, i requires 0 <= i < |pages| => pages[i].url)
  }

  lemma LocOfEntry(p: PageRecord, now: string)
    ensures LocOf(UrlEntry(p, now)[1]) == p.url
  {
    var line := LocOpen + HtmlEscape(p.url) + LocClose;
    assert line[|LocOpen|..|line| - |LocClose|] == HtmlEscape(p.url);
    HtmlEscapeRoundTrip(p.url);
  }

  lemma {:induction false} ReadEntriesRoundTrip(pages: seq<PageRecord>, now: string)
    ensures ReadEntries(UrlEntries(pages, now)) == UrlsOf(pages)
    decreases |pages|
  {
    if |pages| > 0 {
      var ls := UrlEntries(pages, now);
      assert ls[1] == UrlEntry(pages[0], now)[1];
      assert ls[5..] == UrlEntries(pages[1..], now);
      LocOfEntry(pages[0], now);
      ReadEntriesRoundTrip(pages[1..], now);
      assert UrlsOf(pages) == [pages[0].url] + UrlsOf(pages[1..]);
    }
  }

  /** The XML sitemap lists every recorded URL, in crawl order, and can be
      read back exactly even when URLs hold markup characters. */
  lemma XmlRoundTrip(pages: seq<PageRecord>, now: string)
    ensures ReadLocs(XmlLines(pages, now)) == UrlsOf(pages)
  {
    var doc := XmlLines(pages, now);
    assert doc[2..|doc| - 1] == UrlEntries(pages, now);
    ReadEntriesRoundTrip(pages, now);
  }

  // ---- write_csv_sitemap ----

  /** A field `csv.writer` must quote: it holds the delimiter, the quote
      character or a line-terminator character. */
  predicate NeedsQuotes(f: string) {
    ',' in f || '"' in f || '\r' in f || '\n' in f
  }

  function DoubleQuotes(f: string): (r: string)
    ensures |f| <= |r|
    decreases |f|
  {
    if |f| == 0 then [] else (if f[0] == '"' then "\"\"" else [f[0]]) + DoubleQuotes(f[1..])
  }

  function CsvField(f: string): string {
    if NeedsQuotes(f) then "\"" + DoubleQuotes(f) + "\"" else f
  }

  function JoinFields(fs: seq<string>): string
    decreases |fs|
  {
    if |fs| == 0 then []
    else if |fs| == 1 then CsvField(fs[0])
    else CsvField(fs[0]) + "," + JoinFields(fs[1..])
  }

  /** `writer.writerow(fields)`: a row whose only field is empty is
      written as `""` so that it is not an empty line. */
  function CsvRow(fs: seq<string>): string {
    (if fs == [""] then "\"\"" else JoinFields(fs)) + "\r\n"
  }

  /** The rows `write_csv_sitemap` writes: a header, then one row per
      page with the title column only when content extraction is on. */
  function CsvRows(pages: seq<PageRecord>, includeContent: bool): (rows: seq<seq<string>>)
    ensures |rows| == |pages| + 1
    ensures rows[0] == (if includeContent then ["url", "title"] else ["url"])
    ensures forall i :: 0 <= i < |rows| ==> |rows[i]| == |rows[0]|
    ensures forall i :: 0 <= i < |pages| ==> rows[i + 1][0] == pages[i].url
    ensures includeContent ==> forall i :: 0 <= i < |pages| ==> rows[i + 1][1] == pages[i].title
  {
    [if includeContent then ["url", "title"] else ["url"]]
    + seq(|pages|, i requires 0 <= i < |pages| =>
            if includeContent then [pages[i].url, pages[i].title] else [pages[i].url])
  }

  /** Reads a quoted field's body up to its closing quote; a doubled
      quote stands for one quote.  Returns the field and what follows the
      closing quote. */
  function ReadQuoted(s: string): (r: Option<(string, string)>)
    ensures r.Some? ==> |r.value.1| < |s|
    decreases |s|
  {
    if |s| == 0 then None
    else if s[0] == '"' then
      if |s| >= 2 && s[1] == '"' then
        match ReadQuoted(s[2..])
        case None => None
        case Some(fr) => Some(("\"" + fr.0, fr.1))
      else Some(("", s[1..]))
    else
      match ReadQuoted(s[1..])
      case None => None
      case Some(fr) => Some(([s[0]] + fr.0, fr.1))
  }

  /** Reads one field: quoted when it starts with a quote, otherwise up
      to the next comma. */
  function ReadField(s: string): (r: Option<(string, string)>)
    ensures r.Some? ==> |r.value.1| <= |s|
  {
    if |s| > 0 && s[0] == '"' then ReadQuoted(s[1..])
    else
      var i := Find(s, ',');
      if i == -1 then Some((s, "")) else Some((s[..i], s[i..]))
  }

  function ReadFields(s: string): Option<seq<string>>
    decreases |s|
  {
    match ReadField(s)
    case None => None
    case Some(fr) =>
      if fr.1 == [] then Some([fr.0])
      else if fr.1[0] == ',' then
        match ReadFields(fr.1[1..])
        case None => None
        case Some(rest) => Some([fr.0] + rest)
      else None
  }

  /** A reader for one CSV row, terminator included. */
  function ReadRow(line: string): Option<seq<string>> {
    if EndsWith(line, "\r\n") then ReadFields(line[..|line| - 2]) else None
  }

  lemma ReadQuotedDoubled(tail: string)
    ensures ReadQuoted("\"\"" + tail)
            == match ReadQuoted(tail) case None => None case Some(fr) => Some(("\"" + fr.0, fr.1))
  {
    assert ("\"\"" + tail)[2..] == tail;
  }

  lemma ReadQuotedPlain(c: char, tail: string)
    requires c != '"'
    ensures ReadQuoted([c] + tail)
            == match ReadQuoted(tail) case None => None case Some(fr) => Some(([c] + fr.0, fr.1))
  {
    assert ([c] + tail)[1..] == tail;
  }

  lemma ReadQuotedClosing(rest: string)
    requires rest == [] || rest[0] != '"'
    ensures ReadQuoted("\"" + rest) == Some(("", rest))
  {
    assert ("\"" + rest)[1..] == rest;
  }

  lemma Regroup(h: string, d: string, q: string, rest: string)
    ensures h + d + q + rest == h + (d + q + rest)
  {
  }

  lemma {:induction false} ReadQuotedRoundTrip(f: string, rest: string)
    requires rest == [] || rest[0] != '"'
    ensures ReadQuoted(DoubleQuotes(f) + "\"" + rest) == Some((f, rest))
    decreases |f|
  {
    if |f| == 0 {
      assert DoubleQuotes(f) + "\"" + rest == "\"" + rest;
      ReadQuotedClosing(rest);
    } else {
      var h := if f[0] == '"' then "\"\"" else [f[0]];
      var d := DoubleQuotes(f[1..]);
      var tail := d + "\"" + rest;
      assert DoubleQuotes(f) == h + d;
      Regroup(h, d, "\"", rest);
      ReadQuotedRoundTrip(f[1..], rest);
      if f[0] == '"' {
        ReadQuotedDoubled(tail);
      } else {
        ReadQuotedPlain(f[0], tail);
      }
      assert f == [f[0]] + f[1..];
    }
  }

  lemma ReadPlainFieldRoundTrip(f: string, rest: string)
    requires !NeedsQuotes(f)
    requires rest == [] || rest[0] == ','
    ensures ReadField(f + rest) == Some((f, rest))
  {
    var s := f + rest;
    if |f| > 0 {
      assert s[0] == f[0];
    } else {
      assert s == rest;
    }
    FindAfterFreePart(f, rest, ',');
    if rest == [] {
      assert s == f;
    } else {
      assert s[..|f|] == f && s[|f|..] == rest;
    }
  }

  lemma ReadQuotedFieldRoundTrip(f: string, rest: string)
    requires rest == [] || rest[0] == ','
    ensures ReadField("\"" + DoubleQuotes(f) + "\"" + rest) == Some((f, rest))
  {
    var body := DoubleQuotes(f) + "\"" + rest;
    Regroup("\"", DoubleQuotes(f), "\"", rest);
    assert ("\"" + body)[0] == '"' && ("\"" + body)[1..] == body;
    ReadQuotedRoundTrip(f, rest);
  }

  lemma ReadFieldRoundTrip(f: string, rest: string)
    requires rest == [] || rest[0] == ','
    ensures ReadField(CsvField(f) + rest) == Some((f, rest))
  {
    if NeedsQuotes(f) {
      ReadQuotedFieldRoundTrip(f, rest);
    } else {
      ReadPlainFieldRoundTrip(f, rest);
    }
  }

  /** After a field that reads back, a comma hands the rest of the row
      on to the next field. */
  lemma ReadFieldsCons(f: string, rest: string)
    ensures ReadFields(CsvField(f) + ("," + rest))
            == match ReadFields(rest) case None => None case Some(fs) => Some([f] + fs)
  {
    ReadFieldRoundTrip(f, "," + rest);
    assert ("," + rest)[1..] == rest;
  }

  lemma {:induction false} ReadFieldsRoundTrip(fs: seq<string>)
    requires |fs| > 0
    ensures ReadFields(JoinFields(fs)) == Some(fs)
    decreases |fs|
  {
    if |fs| == 1 {
      ReadFieldRoundTrip(fs[0], []);
      assert CsvField(fs[0]) + [] == CsvField(fs[0]);
      assert JoinFields(fs) == CsvField(fs[0]);
      assert fs == [fs[0]];
    } else {
      var rest := JoinFields(fs[1..]);
      assert JoinFields(fs) == CsvField(fs[0]) + ("," + rest);
      ReadFieldsCons(fs[0], rest);
      ReadFieldsRoundTrip(fs[1..]);
      assert fs == [fs[0]] + fs[1..];
    }
  }

  /** Every row `csv.writer` writes reads back as the fields it was
      given, whatever commas, quotes or line breaks they hold. */
  lemma CsvRowRoundTrip(fs: seq<string>)
    requires |fs| > 0
    ensures ReadRow(CsvRow(fs)) == Some(fs)
  {
    var line := CsvRow(fs);
    var body := if fs == [""] then "\"\"" else JoinFields(fs);
    assert line[..|line| - 2] == body;
    if fs == [""] {
      ReadQuotedRoundTrip("", []);
      assert body[1..] == DoubleQuotes("") + "\"" + [];
    } else {
      ReadFieldsRoundTrip(fs);
    }
  }

  /** The lines `write_csv_sitemap` writes. */
  function CsvLines(pages: seq<PageRecord>, includeContent: bool): (ls: seq<string>)
    ensures |ls| == |pages| + 1
  {
    var rows := CsvRows(pages, includeContent);
    seq(|rows|, i requires 0 <= i < |rows| => CsvRow(rows[i]))
  }

  /** The row of page `i` in the CSV file reads back as that page. */
  lemma CsvPageLineRoundTrip(pages: seq<PageRecord>, includeContent: bool, i: nat)
    requires i < |pages|
    ensures ReadRow(CsvLines(pages, includeContent)[i + 1])
            == Some(if includeContent then [pages[i].url, pages[i].title] else [pages[i].url])
  {
    var rows := CsvRows(pages, includeContent);
    var row := if includeContent then [pages[i].url, pages[i].title] else [pages[i].url];
    assert rows[i + 1] == row;
    assert CsvLines(pages, includeContent)[i + 1] == CsvRow(row);
    CsvRowRoundTrip(row);
  }

  /** Reading the CSV file back gives the header, then every page's URL
      (and title, when content extraction is on), in crawl order. */
  lemma CsvRoundTrip(pages: seq<PageRecord>, includeContent: bool)
    ensures var ls := CsvLines(pages, includeContent);
            && ReadRow(ls[0]) == Some(if includeContent then ["url", "title"] else ["url"])
            && forall i :: 0 <= i < |pages| ==>
                 ReadRow(ls[i + 1]) == Some(if includeContent then [pages[i].url, pages[i].title] else [pages[i].url])
  {
    var header := if includeContent then ["url", "title"] else ["url"];
    assert CsvLines(pages, includeContent)[0] == CsvRow(header);
    CsvRowRoundTrip(header);
    forall i | 0 <= i < |pages|
      ensures ReadRow(CsvLines(pages, includeContent)[i + 1])
              == Some(if includeContent then [pages[i].url, pages[i].title] else [pages[i].url])
    {
      CsvPageLineRoundTrip(pages, includeContent, i);
    }
  }

  // ---- log_unusual_link ----

  const JournalSeparator := "  # Skipped due to: "

  /** The line `log_unusual_link(url, reason)` appends to the journal. */
  function JournalLine(e: JournalEntry): string {
    e.url + JournalSeparator + e.reason + "\n"
  }

  /** The first position where `sub` occurs in `s`, or -1. */
  function FindSub(s: string, sub: string, from: nat): (i: int)
    requires from <= |s|
    ensures i == -1 || (from <= i && OccursAt(s, sub, i))
    ensures i != -1 ==> forall j :: from <= j < i ==> !OccursAt(s, sub, j)
    ensures i == -1 ==> forall j :: from <= j <= |s| ==> !OccursAt(s, sub, j)
    decreases |s| - from
  {
    if OccursAt(s, sub, from) then from
    else if from == |s| then -1
    else FindSub(s, sub, from + 1)
  }

  /** A reader for one journal line: the URL before the first separator
      and the reason after it. */
  function ReadJournalLine(line: string): Option<JournalEntry> {
    if !EndsWith(line, "\n") then None
    else
      var body := line[..|line| - 1];
      var i := FindSub(body, JournalSeparator, 0);
      if i == -1 then None
      else Some(JournalEntry(body[..i], body[i + |JournalSeparator|..]))
  }

  /** A journal line gives back its URL and reason whenever the URL has
      no space (the separator starts with one). */
  lemma JournalLineRoundTrip(e: JournalEntry)
    requires ' ' !in e.url
    ensures ReadJournalLine(JournalLine(e)) == Some(e)
  {
    var line := JournalLine(e);
    var body := e.url + JournalSeparator + e.reason;
    assert line == body + "\n";
    assert line[..|line| - 1] == body;
    var n := |e.url|;
    assert OccursAt(body, JournalSeparator, n) by {
      assert body[n..n + |JournalSeparator|] == JournalSeparator;
    }
    forall j | 0 <= j < n ensures !OccursAt(body, JournalSeparator, j) {
      assert body[j] == e.url[j];
      assert body[j] != JournalSeparator[0];
    }
    assert body[..n] == e.url;
    assert body[n + |JournalSeparator|..] == e.reason;
  }
}
