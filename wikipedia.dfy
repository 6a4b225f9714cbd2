/** The three Wikipedia tools of demo-tools/demo_tool_wikipedia.py, from the
    point where the HTTP response has been decoded. The request itself, URL
    encoding and JSON decoding are outside the model: a response arrives as
    `Fetched`, either the exception text of a failed call or the decoded
    data. */
module Wikipedia {
  import opened Common
  import opened PyText

  // ---------------------------------------------------------------------
  // search_wikipedia
  // ---------------------------------------------------------------------

  /** Items 1, 2 and 3 of an OpenSearch reply. */
  datatype OpenSearchData = OpenSearchData(titles: seq<string>, descriptions: seq<string>, urls: seq<string>)

  const SearchErrorPrefix: string := "Error searching Wikipedia: "

  function SearchNotFound(query: string): string {
    "No Wikipedia articles found for '" + query + "'."
  }

  function SearchHeader(query: string): string {
    "**Wikipedia Search Results for '" + query + "':**\n\n"
  }

  function Min3(a: nat, b: nat, c: nat): (m: nat)
    ensures m <= a && m <= b && m <= c
    ensures m == a || m == b || m == c
  {
    if a <= b && a <= c then a else if b <= c then b else c
  }

  /** How many triples `zip(titles, descriptions, urls)` yields. */
  function ZipLength(data: OpenSearchData): nat {
    Min3(|data.titles|, |data.descriptions|, |data.urls|)
  }

  /** The text of one numbered result; the description line is there only
      for a non-empty description. */
  function SearchEntry(n: nat, title: string, description: string, url: string): (r: string)
    ensures |r| == |TitleLine(n, title)| + |DescriptionLine(description)| + |UrlLine(url)|
    ensures r[..|TitleLine(n, title)|] == TitleLine(n, title)
    ensures r[|r| - |UrlLine(url)|..] == UrlLine(url)
    ensures description == "" ==> r == TitleLine(n, title) + UrlLine(url)
  {
    TitleLine(n, title) + DescriptionLine(description) + UrlLine(url)
  }

  function TitleLine(n: nat, title: string): string {
    NatToDecimal(n) + ". **" + title + "**\n"
  }

  function DescriptionLine(description: string): string {
    if description != "" then "   " + description + "\n" else ""
  }

  function UrlLine(url: string): string {
    "   " + url + "\n\n"
  }

  /** One entry per zipped triple, numbered from 1. */
  function SearchEntries(data: OpenSearchData): (r: seq<string>)
    ensures |r| == ZipLength(data)
  {
    seq(ZipLength(data), i requires 0 <= i < ZipLength(data) =>
      SearchEntry(i + 1, data.titles[i], data.descriptions[i], data.urls[i]))
  }

  /** All entries, in order, as one text. */
  function Concat(parts: seq<string>): string {
    ConcatPrefix(parts, |parts|)
  }

  /** The first `k` entries, in order, as one text. */
  function ConcatPrefix(parts: seq<string>, k: nat): string
    requires k <= |parts|
    decreases k
  {
    if k == 0 then "" else ConcatPrefix(parts, k - 1) + parts[k - 1]
  }

  /** Concatenation regrouped; kept apart from the entry context so the
      solver sees only these three terms. */
  lemma AppendAssoc(a: string, b: string, c: string)
    ensures (a + b) + c == a + (b + c)
  {
  }

  lemma AppendEntry(before: string, t: string, d: string, u: string)
    ensures ((before + t) + d) + u == before + ((t + d) + u)
  {
    AppendAssoc(before, t, d);
    AppendAssoc(before, t + d, u);
  }

  /** Appending the three lines of entry `i` extends the text by that
      entry. */
  lemma EntryStep(header: string, data: OpenSearchData, i: nat)
    requires i < ZipLength(data)
    ensures var entries := SearchEntries(data);
      ((header + ConcatPrefix(entries, i) + TitleLine(i + 1, data.titles[i]))
        + DescriptionLine(data.descriptions[i])) + UrlLine(data.urls[i])
      == header + ConcatPrefix(entries, i + 1)
  {
    var entries := SearchEntries(data);
    var t, d, u := TitleLine(i + 1, data.titles[i]), DescriptionLine(data.descriptions[i]), UrlLine(data.urls[i]);
    assert entries[i] == t + d + u;
    AppendEntry(header + ConcatPrefix(entries, i), t, d, u);
    AppendAssoc(header, ConcatPrefix(entries, i), entries[i]);
  }

  /** `search_wikipedia(query, limit)` once the reply is in; `limit` only
      shapes the request. */
  method SearchWikipedia(query: string, limit: int, response: Fetched<OpenSearchData>) returns (result: string)
    ensures response.Failed? ==> result == SearchErrorPrefix + response.reason
    ensures response.Got? && response.data.titles == [] ==> result == SearchNotFound(query)
    ensures response.Got? && response.data.titles != [] ==>
      result == SearchHeader(query) + Concat(SearchEntries(response.data))
  {
    match response
    case Failed(reason) =>
      return SearchErrorPrefix + reason;
    case Got(data) =>
      if data.titles == [] {
        return SearchNotFound(query);
      }
      var n := ZipLength(data);
      result := SearchHeader(query);
      var i := 0;
      while i < n
        invariant 0 <= i <= n
        invariant result == SearchHeader(query) + ConcatPrefix(SearchEntries(data), i)
      {
        var title, desc, url := data.titles[i], data.descriptions[i], data.urls[i];
        EntryStep(SearchHeader(query), data, i);
        result := result + TitleLine(i + 1, title);
        if desc != "" {
          result := result + DescriptionLine(desc);
        } else {
          assert result == result + DescriptionLine(desc);
        }
        result := result + UrlLine(url);
        i := i + 1;
      }
  }

  /** Every entry starts with its number, and that number is its position
      counted from 1. */
  lemma SearchEntryNumbered(data: OpenSearchData, i: nat)
    requires i < ZipLength(data)
    ensures var number := NatToDecimal(i + 1);
      |number| <= |SearchEntries(data)[i]|
      && SearchEntries(data)[i][..|number|] == number
      && DecimalValue(number) == i + 1
  {
    DecimalRoundTrip(i + 1);
  }

  /** A description adds one line of its own length plus four characters
      (three spaces of indent and the line break), and nothing when empty;
      a non-empty one is read back right after the title line. */
  lemma SearchDescriptionLine(n: nat, title: string, description: string, url: string)
    ensures |SearchEntry(n, title, description, url)|
      == |SearchEntry(n, title, "", url)| + (if description == "" then 0 else |description| + 4)
    ensures description != "" ==>
      var t := |TitleLine(n, title)|;
      SearchEntry(n, title, description, url)[t..t + |description| + 4] == "   " + description + "\n"
  {
    if description != "" {
      var t := |TitleLine(n, title)|;
      var line := "   " + description + "\n";
      var r := SearchEntry(n, title, description, url);
      assert r == TitleLine(n, title) + line + UrlLine(url);
      assert r[t..t + |line|] == line;
    }
  }

  /** Titles without descriptions (or without URLs) zip to nothing: the
      reply is the bare header. */
  method SearchHeaderOnly(query: string, limit: int, data: OpenSearchData) returns (result: string)
    requires data.titles != [] && (data.descriptions == [] || data.urls == [])
    ensures result == SearchHeader(query)
  {
    result := SearchWikipedia(query, limit, Got(data));
    assert SearchEntries(data) == [];
  }

  // ---------------------------------------------------------------------
  // get_wikipedia_summary
  // ---------------------------------------------------------------------

  /** The fields of a REST page-summary reply that the tool reads. */
  datatype SummaryData = SummaryData(
    kind: Option<string>,
    title: Option<string>,
    extract: Option<string>,
    contentUrls: Option<map<string, map<string, string>>>)

  const NotFoundType: string := "https://mediawiki.org/wiki/HyperSwitch/errors/not_found"
  const SummaryErrorPrefix: string := "Error getting Wikipedia summary: "

  function ArticleNotFound(title: string): string {
    "No Wikipedia article found for '" + title + "'."
  }

  /** `data.get('content_urls', {}).get('desktop', {}).get('page', '')`:
      the nested page link when every level is there, and "" otherwise. */
  function DesktopPageUrl(data: SummaryData): (r: string)
    ensures var present := data.contentUrls.Some? && "desktop" in data.contentUrls.value
      && "page" in data.contentUrls.value["desktop"];
      (present ==> r == data.contentUrls.value["desktop"]["page"]) && (!present ==> r == "")
  {
    var urls := data.contentUrls.GetOr(map[]);
    var desktop := if "desktop" in urls then urls["desktop"] else map[];
    if "page" in desktop then desktop["page"] else ""
  }

  /** `get_wikipedia_summary(title)` once the reply is in. */
  function GetWikipediaSummary(title: string, response: Fetched<SummaryData>): (r: string)
    ensures response.Failed? ==> r == SummaryErrorPrefix + response.reason
    ensures response.Got? && response.data.kind == Some(NotFoundType) ==> r == ArticleNotFound(title)
    ensures response.Got? && response.data.kind != Some(NotFoundType) ==>
      var data := response.data;
      r == "**" + data.title.GetOr("Unknown") + "**\n\n" + data.extract.GetOr("No summary available.")
        + "\n\nRead more: " + DesktopPageUrl(data)
  {
    match response
    case Failed(reason) => SummaryErrorPrefix + reason
    case Got(data) =>
      if data.kind == Some(NotFoundType) then ArticleNotFound(title)
      else
        "**" + data.title.GetOr("Unknown") + "**\n\n" + data.extract.GetOr("No summary available.")
          + "\n\nRead more: " + DesktopPageUrl(data)
  }

  /** A found page's answer holds, in order and each at a fixed place, the
      title or "Unknown" when it is missing, the extract or "No summary
      available." when it is missing, and the desktop URL, so each of the
      three can be read back from it. */
  lemma SummaryDefaults(title: string, data: SummaryData)
    requires data.kind != Some(NotFoundType)
    ensures var r := GetWikipediaSummary(title, Got(data));
      var t := if data.title.Some? then data.title.value else "Unknown";
      var e := if data.extract.Some? then data.extract.value else "No summary available.";
      var u := DesktopPageUrl(data);
      |r| == |t| + |e| + |u| + 19
      && r[..2] == "**" && r[2..2 + |t|] == t && r[2 + |t|..6 + |t|] == "**\n\n"
      && r[6 + |t|..6 + |t| + |e|] == e
      && r[6 + |t| + |e|..19 + |t| + |e|] == "\n\nRead more: "
      && r[19 + |t| + |e|..] == u
  {
    var r := GetWikipediaSummary(title, Got(data));
    var t := if data.title.Some? then data.title.value else "Unknown";
    var e := if data.extract.Some? then data.extract.value else "No summary available.";
    var u := DesktopPageUrl(data);
    assert r == "**" + t + "**\n\n" + e + "\n\nRead more: " + u;
    assert |"\n\nRead more: "| == 13;
    SliceOfConcat5("**", t, "**\n\n" + e, "\n\nRead more: ", u);
    SliceOfConcat5("**" + t, "**\n\n", e, "\n\nRead more: ", u);
  }

  /** The link falls back to "" whenever one level of the nesting is
      missing. */
  lemma SummaryUrlDefaults(data: SummaryData)
    requires data.contentUrls.None? || "desktop" !in data.contentUrls.value
      || "page" !in data.contentUrls.value["desktop"]
    ensures DesktopPageUrl(data) == ""
  {
  }

  /** The parts of `a + b + c + d + e` sit at their offsets; kept apart from
      the reply context so the solver sees only the five parts. */
  lemma SliceOfConcat5(a: string, b: string, c: string, d: string, e: string)
    ensures var x := a + b + c + d + e;
      x[..|a|] == a && x[|a|..|a| + |b|] == b && x[|a| + |b|..|a| + |b| + |c|] == c
      && x[|a| + |b| + |c|..|a| + |b| + |c| + |d|] == d && x[|a| + |b| + |c| + |d|..] == e
  {
  }

  // ---------------------------------------------------------------------
  // get_wikipedia_content
  // ---------------------------------------------------------------------

  /** One page object of a `query` reply; `missing` is whether it has the
      "missing" key. */
  datatype Page = Page(missing: bool, extract: Option<string>, title: Option<string>)

  /** `data['query']`, whose `pages` is listed by its values in order. */
  datatype QueryBlock = QueryBlock(pages: Option<seq<Page>>)

  datatype QueryData = QueryData(query: Option<QueryBlock>)

  const MaxContentLength: nat := 10000
  const ContentErrorPrefix: string := "Error getting Wikipedia content: "
  const ArticleBase: string := "https://en.wikipedia.org/wiki/"

  /** `data.get('query', {}).get('pages', {}).values()`. */
  function Pages(data: QueryData): (r: seq<Page>)
    ensures data.query.None? || data.query.value.pages.None? ==> r == []
    ensures data.query.Some? && data.query.value.pages.Some? ==> r == data.query.value.pages.value
  {
    match data.query
    case None => []
    case Some(block) => block.pages.GetOr([])
  }

  /** `s.replace(' ', '_')`. */
  function SpacesToUnderscores(s: string): (r: string)
    ensures |r| == |s|
    ensures forall i | 0 <= i < |s| :: r[i] == (if s[i] == ' ' then '_' else s[i])
  {
    seq(|s|, i requires 0 <= i < |s| => if s[i] == ' ' then '_' else s[i])
  }

  /** The text of a found page: title, link and the extract cut to
      `MaxContentLength`. */
  function ContentReport(pageTitle: string, pageUrl: string, extract: string): (r: string)
    ensures var body := Truncate(extract, MaxContentLength);
      |r| == |pageTitle| + |pageUrl| + |body| + 13
      && r[..2] == "**" && r[2..2 + |pageTitle|] == pageTitle
      && r[2 + |pageTitle|..11 + |pageTitle|] == "**\n\nURL: "
      && r[11 + |pageTitle| + |pageUrl|..13 + |pageTitle| + |pageUrl|] == "\n\n"
      && r[11 + |pageTitle|..11 + |pageTitle| + |pageUrl|] == pageUrl
      && r[13 + |pageTitle| + |pageUrl|..] == body
  {
    var body := Truncate(extract, MaxContentLength);
    var r := "**" + pageTitle + "**\n\nURL: " + pageUrl + ("\n\n" + body);
    var tail := "\n\n" + body;
    assert r == "**" + pageTitle + "**\n\nURL: " + pageUrl + tail;
    assert r[..2] == "**" && r[2..2 + |pageTitle|] == pageTitle;
    assert r[2 + |pageTitle|..11 + |pageTitle|] == "**\n\nURL: ";
    assert r[11 + |pageTitle|..11 + |pageTitle| + |pageUrl|] == pageUrl;
    assert r[11 + |pageTitle| + |pageUrl|..] == tail;
    assert tail[..2] == "\n\n" && tail[2..] == body;
    r
  }

  /** `get_wikipedia_content(title)` once the reply is in; `quote` is
      `requests.utils.quote`. No pages at all makes `next` raise
      StopIteration, whose text is empty. */
  function GetWikipediaContent(title: string, response: Fetched<QueryData>, quote: string -> string): (r: string)
    ensures response.Failed? ==> r == ContentErrorPrefix + response.reason
    ensures response.Got? && Pages(response.data) == [] ==> r == ContentErrorPrefix
    ensures response.Got? && Pages(response.data) != [] && Pages(response.data)[0].missing ==>
      r == ArticleNotFound(title)
    ensures response.Got? && Pages(response.data) != [] && !Pages(response.data)[0].missing ==>
      var page := Pages(response.data)[0];
      var pageTitle := page.title.GetOr(title);
      r == ContentReport(pageTitle, ArticleBase + quote(SpacesToUnderscores(pageTitle)),
        page.extract.GetOr("No content available."))
  {
    match response
    case Failed(reason) => ContentErrorPrefix + reason
    case Got(data) =>
      var pages := Pages(data);
      if pages == [] then ContentErrorPrefix + ""
      else
        var page := pages[0];
        if page.missing then ArticleNotFound(title)
        else
          var extract := page.extract.GetOr("No content available.");
          var pageTitle := page.title.GetOr(title);
          var pageUrl := ArticleBase + quote(SpacesToUnderscores(pageTitle));
          ContentReport(pageTitle, pageUrl, extract)
  }

  /** A found page's text ends with its extract when that has at most 10000
      characters, and otherwise with the first 10000 characters and the
      truncation marker; the extract part is never longer than 10000 plus
      the marker. */
  lemma ContentTruncation(pageTitle: string, pageUrl: string, extract: string)
    ensures var r := ContentReport(pageTitle, pageUrl, extract);
      var body := Truncate(extract, MaxContentLength);
      |body| <= MaxContentLength + |TruncationMarker|
      && |r| >= |body| && r[|r| - |body|..] == body
      && (|extract| <= MaxContentLength ==> body == extract)
      && (|extract| > MaxContentLength ==> body == extract[..MaxContentLength] + TruncationMarker)
  {
    var body := Truncate(extract, MaxContentLength);
    var r := ContentReport(pageTitle, pageUrl, extract);
    assert r == ("**" + pageTitle + "**\n\nURL: " + pageUrl + "\n\n") + body;
    TruncateBounds(extract, MaxContentLength);
  }
}
