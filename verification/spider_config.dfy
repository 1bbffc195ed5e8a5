/** The spider's constructor (`BasicSpider.__init__`): the seed URL is
    mandatory and gets "https://" when it has no scheme; the boolean
    options arrive either as strings (from `scrapy crawl -a`) or as
    Python booleans (from `run.py`), and the export selector is
    lower-cased. */
module SpiderConfig {
  import opened Wrappers
  import opened Text
  import opened Urls

  /** A value passed for `download` or `content`: left at the keyword
      default (`False`), a Python `bool`, or a string. */
  datatype FlagArg = Absent | BoolArg(b: bool) | StrArg(s: string)

  /** The spellings `__init__` accepts as "on". */
  const TrueSpellings: set<string> := {"1", "true", "True"}

  /** The flag test as written, `arg in ["1", "true", "True"]`: a Python
      `bool` never equals a string, so `True` reads as off. */
  function ParseFlagAsWritten(a: FlagArg): bool {
    match a
    case StrArg(s) => s in TrueSpellings
    case _ => false
  }

  /** `run.py` passes `download=args.download` with `args.download ==
      True`; the flag test as written turns it off. */
  lemma RunPyDownloadFlagIsLost()
    ensures !ParseFlagAsWritten(BoolArg(true))
  {
  }

  /** The evidently intended flag test: booleans are taken at face
      value, strings as before. */
  function ParseFlag(a: FlagArg): (on: bool)
    ensures a.BoolArg? ==> (on <==> a.b)
    ensures a.StrArg? ==> (on <==> a.s in TrueSpellings)
    ensures a.Absent? ==> !on
  {
    match a
    case Absent => false
    case BoolArg(b) => b
    case StrArg(s) => s in TrueSpellings
  }

  /** The corrected test differs from the written one only on booleans:
      for the string spellings and the default both agree. */
  lemma ParseFlagAgreesOnStrings(a: FlagArg)
    ensures !a.BoolArg? ==> ParseFlag(a) == ParseFlagAsWritten(a)
    ensures ParseFlag(BoolArg(true)) != ParseFlagAsWritten(BoolArg(true))
  {
  }

  const MissingUrl := "Missing required argument: url"

  /** The seed actually crawled: a missing or empty `url` raises; a
      seed without a recognisable scheme gets "https://" in front. */
  function EffectiveSeed(url: Option<string>): (r: Result<string, string>)
    ensures r.Failure? <==> (url.None? || url.value == "")
    ensures r.Failure? ==> r.error == MissingUrl
    ensures r.Success? ==> Scheme(r.value) != ""
    ensures r.Success? && Scheme(url.value) != "" ==> r.value == url.value
    ensures r.Success? && Scheme(url.value) == "" ==> r.value == "https://" + url.value
  {
    match url
    case None => Failure(MissingUrl)
    case Some(u) =>
      if u == "" then Failure(MissingUrl)
      else if Scheme(u) != "" then Success(u)
      else
        WebSchemeSplit("https", "//" + u);
        assert "https://" + u == "https" + ":" + ("//" + u);
        Success("https://" + u)
  }

  /** A bare host name is crawled over https. */
  lemma SeedWithoutScheme()
    ensures EffectiveSeed(Some("example.com")) == Success("https://example.com")
  {
    assert ':' !in "example.com";
    assert Scheme("example.com") == "";
    assert "https://" + "example.com" == "https://example.com";
  }

  lemma LocalhostIsSchemeToken()
    ensures IsSchemeToken("localhost")
  {
    var t := "localhost";
    assert t == ['l', 'o', 'c', 'a', 'l', 'h', 'o', 's', 't'];
    assert forall j :: 0 <= j < |t| ==> 'a' <= t[j] <= 'z';
  }

  /** "localhost:8000" has the scheme "localhost" as far as `urlparse`
      is concerned, so no "https://" is added. */
  lemma SeedWithPortKeepsItsText()
    ensures EffectiveSeed(Some("localhost:8000")) == Success("localhost:8000")
  {
    LocalhostIsSchemeToken();
    SchemeOfPrefixed("localhost", "8000");
    assert "localhost" + ":" + "8000" == "localhost:8000";
    assert |Lower("localhost")| == 9;
    assert Scheme("localhost:8000") != "";
  }

  /** The formats `closed()` dispatches on. */
  datatype ExportFormat = Html | Xml | Json | Csv | Unsupported(name: string)

  /** `export.lower()` followed by the dispatch in `closed()`. */
  function SelectFormat(selector: string): (f: ExportFormat)
    ensures f == Html <==> Lower(selector) == "html"
    ensures f == Xml <==> Lower(selector) == "xml"
    ensures f == Json <==> Lower(selector) == "json"
    ensures f == Csv <==> Lower(selector) == "csv"
    ensures f.Unsupported? <==> Lower(selector) !in {"html", "xml", "json", "csv"}
    ensures f.Unsupported? ==> f.name == Lower(selector)
  {
    var e := Lower(selector);
    if e == "html" then Html
    else if e == "xml" then Xml
    else if e == "json" then Json
    else if e == "csv" then Csv
    else Unsupported(e)
  }

  /** The selector's letter case never matters: a selector and its
      lower-cased form pick the same export. */
  lemma SelectFormatIgnoresCase(selector: string)
    ensures SelectFormat(Lower(selector)) == SelectFormat(selector)
  {
    LowerIsIdempotent(selector);
  }

  /** The immutable crawl target. */
  datatype Config = Config(
    seed: string,
    filter: Option<string>,
    pattern: Option<string>,
    download: bool,
    maxPages: int,
    format: ExportFormat,
    includeContent: bool)

  /** The part of `BasicSpider.__init__` that does not depend on how
      the two flags are read, minus the directory and file creation. */
  function BuildConfig(url: Option<string>, filter: Option<string>, pattern: Option<string>,
                       download: bool, maxPages: int, selector: string, content: bool)
    : (r: Result<Config, string>)
    ensures r.Failure? <==> (url.None? || url.value == "")
    ensures r.Failure? ==> r.error == MissingUrl
    ensures r.Success? ==> Scheme(r.value.seed) != "" && EffectiveSeed(url) == Success(r.value.seed)
    ensures r.Success? ==> r.value.filter == filter && r.value.pattern == pattern
                           && r.value.maxPages == maxPages && r.value.format == SelectFormat(selector)
    ensures r.Success? ==> r.value.download == download && r.value.includeContent == content
  {
    match EffectiveSeed(url)
    case Failure(e) => Failure(e)
    case Success(seed) =>
      Success(Config(seed, filter, pattern, download, maxPages, SelectFormat(selector), content))
  }

  /** `BasicSpider.__init__` as written: both flags go through the
      string-membership test. */
  function MakeConfigAsWritten(url: Option<string>, filter: Option<string>, pattern: Option<string>,
                               download: FlagArg, maxPages: int, selector: string, content: FlagArg)
    : (r: Result<Config, string>)
    ensures r.Failure? <==> (url.None? || url.value == "")
    ensures r.Success? ==> r.value.download == ParseFlagAsWritten(download)
                           && r.value.includeContent == ParseFlagAsWritten(content)
    ensures r.Success? ==> (r.value.download ==> download.StrArg?) && (r.value.includeContent ==> content.StrArg?)
  {
    BuildConfig(url, filter, pattern, ParseFlagAsWritten(download), maxPages, selector, ParseFlagAsWritten(content))
  }

  /** `BasicSpider.__init__` with the flag test corrected; the rest of
      the model crawls with this configuration. */
  function MakeConfig(url: Option<string>, filter: Option<string>, pattern: Option<string>,
                      download: FlagArg, maxPages: int, selector: string, content: FlagArg)
    : (r: Result<Config, string>)
    ensures r.Failure? <==> (url.None? || url.value == "")
    ensures r.Success? ==> Scheme(r.value.seed) != "" && EffectiveSeed(url) == Success(r.value.seed)
    ensures r.Success? ==> r.value.download == ParseFlag(download)
                           && r.value.includeContent == ParseFlag(content)
  {
    BuildConfig(url, filter, pattern, ParseFlag(download), maxPages, selector, ParseFlag(content))
  }

  /** The two constructors build the same configuration unless a flag
      arrives as a Python `bool`. */
  lemma MakeConfigAgreesOnStrings(url: Option<string>, filter: Option<string>, pattern: Option<string>,
                                  download: FlagArg, maxPages: int, selector: string, content: FlagArg)
    requires !download.BoolArg? && !content.BoolArg?
    ensures MakeConfigAsWritten(url, filter, pattern, download, maxPages, selector, content)
            == MakeConfig(url, filter, pattern, download, maxPages, selector, content)
  {
    ParseFlagAgreesOnStrings(download);
    ParseFlagAgreesOnStrings(content);
  }

  /** What `run.py --download --content` builds: as written, both flags
      end up off; corrected, both are on. */
  lemma RunPyConstructorDropsFlags(url: string, filter: Option<string>, pattern: Option<string>,
                                   maxPages: int, selector: string)
    requires url != ""
    ensures var w := MakeConfigAsWritten(Some(url), filter, pattern, BoolArg(true), maxPages, selector, BoolArg(true));
            w.Success? && !w.value.download && !w.value.includeContent
    ensures var c := MakeConfig(Some(url), filter, pattern, BoolArg(true), maxPages, selector, BoolArg(true));
            c.Success? && c.value.download && c.value.includeContent
  {
    RunPyDownloadFlagIsLost();
  }
}
