/**
 * The BDGest scraper (`BDGestScraper`) once the page has been taken apart:
 * a search hit is a handful of tag texts, a detail page a heading, a table
 * of label/value rows, a summary and a cover. What is made of them follows
 * the scraper: the heading split by `(.+?)\s+Tome\s+(\d+)\s*[-:]\s*(.+)`,
 * the two-year window, the confidence tally and the label classification.
 *
 * Fetching a page is a parameter `fetch` (a request that raises is
 * `Raised`), and `urllib.parse.urljoin` is a parameter `join`.
 */
module BdgestScraper {
  import opened Wrappers
  import opened Text
  import opened Values
  import opened BaseScraper
  import opened Patterns
  import opened Listing

  const Name: string := "bdgest"
  const Priority: int := 20
  const BaseUrl: string := "https://www.bdgest.com"

  /**
   * A search hit: the href of its `/album-N` link, the stripped text of its
   * title tag, the text of its year tag and the stripped text of its
   * publisher tag, and the `src` of its image; `None` for a missing tag.
   */
  datatype Item = Item(
    albumHref: Option<string>,
    titleText: Option<string>,
    yearText: Option<string>,
    publisherText: Option<string>,
    imgSrc: Option<string>)

  /** The heading taken apart by BDGest's pattern. */
  function SplitTitle(t: string): Heading {
    Parse(TomeWord, t)
  }

  /** The year of a hit: the first four digits of its year tag. */
  function ItemYear(item: Item): Option<int> {
    match item.yearText
    case None => None
    case Some(t) => FirstYear(t)
  }

  /** The publisher tag's text without an "Éditeur:" or "Editeur:" label, stripped. */
  function Publisher(text: string): string {
    Strip(ReplaceAll(ReplaceAll(text, "Éditeur:", ""), "Editeur:", ""))
  }

  function ItemPublisher(item: Item): Option<string> {
    match item.publisherText
    case None => None
    case Some(t) => Some(Publisher(t))
  }

  /** The cover url: only an image with a non-empty `src` gives one. */
  function ItemCover(item: Item, join: (string, string) -> string): Option<string> {
    if item.imgSrc.Some? && item.imgSrc.value != [] then Some(join(BaseUrl, item.imgSrc.value)) else None
  }

  /** The search confidence: 70, and 10 more for each of a series with a volume, a year and a cover url. */
  function SearchConfidence(h: Heading, year: Option<int>, cover: Option<string>): (c: real)
    ensures 70.0 <= c <= 100.0
    ensures c == 100.0 <==> SeriesAndVolume(h) && Truthy(OptCell(year)) && Truthy(OptStr(cover))
    ensures c == 70.0 <==> !SeriesAndVolume(h) && !Truthy(OptCell(year)) && !Truthy(OptStr(cover))
  {
    70.0 + (if SeriesAndVolume(h) then 10.0 else 0.0)
    + (if Truthy(OptCell(year)) then 10.0 else 0.0)
    + (if Truthy(OptStr(cover)) then 10.0 else 0.0)
  }

  /** `_parse_search_result(item, filter_year)`. */
  function SearchResultOf(item: Item, filterYear: Option<int>, join: (string, string) -> string, now: int)
    : (r: Option<ScraperResult>)
    ensures r.Some? <==> item.albumHref.Some? && item.titleText.Some? && YearKept(filterYear, ItemYear(item))
    ensures r.Some? ==> r.value.source == Name && r.value.url == join(BaseUrl, item.albumHref.value)
    ensures r.Some? ==> 70.0 <= r.value.confidence <= 100.0
    ensures r.Some? ==>
              var h := SplitTitle(item.titleText.value);
              r.value.title == Str(h.title) && r.value.series == SeriesCell(h) && r.value.volume == VolumeCell(h)
    ensures r.Some? ==> r.value.year == OptCell(ItemYear(item)) && r.value.editor == OptStr(ItemPublisher(item))
    ensures r.Some? ==> r.value.coverUrl == OptStr(ItemCover(item, join))
    ensures r.Some? ==> forall f :: f !in {Title, Series, Volume, Editor, Year, CoverUrl} ==> Get(r.value, f) == Null
  {
    if item.albumHref.None? || item.titleText.None? then None
    else
      var h := SplitTitle(item.titleText.value);
      var year := ItemYear(item);
      if !YearKept(filterYear, year) then None
      else
        var cover := ItemCover(item, join);
        var base := NewResult(Name, join(BaseUrl, item.albumHref.value), SearchConfidence(h, year, cover),
                              h.title, None, None, now);
        Some(base.(series := SeriesCell(h), volume := VolumeCell(h), editor := OptStr(ItemPublisher(item)),
                   year := OptCell(year), coverUrl := OptStr(cover)))
  }

  /** `_parse_search_result` as written, with the confidence counted up step by step. */
  method ParseSearchResult(item: Item, filterYear: Option<int>, join: (string, string) -> string, now: int)
    returns (r: Option<ScraperResult>)
    ensures r == SearchResultOf(item, filterYear, join, now)
  {
    if item.albumHref.None? {
      return None;
    }
    var url := join(BaseUrl, item.albumHref.value);
    if item.titleText.None? {
      return None;
    }
    var h := SplitTitle(item.titleText.value);
    var year := ItemYear(item);
    if !YearKept(filterYear, year) {
      return None;
    }
    var publisher := ItemPublisher(item);
    var cover := ItemCover(item, join);
    var confidence := 70.0;
    if SeriesAndVolume(h) {
      confidence := confidence + 10.0;
    }
    if Truthy(OptCell(year)) {
      confidence := confidence + 10.0;
    }
    if Truthy(OptStr(cover)) {
      confidence := confidence + 10.0;
    }
    assert confidence == SearchConfidence(h, year, cover);
    var base := NewResult(Name, url, confidence, h.title, None, None, now);
    r := Some(base.(series := SeriesCell(h), volume := VolumeCell(h), editor := OptStr(publisher),
                    year := OptCell(year), coverUrl := OptStr(cover)));
  }

  /** `search(...)` on what the request returned: the first `limit` hits parsed, those with a result kept. */
  function SearchResults(q: Query, fetched: Outcome<seq<Item>>, join: (string, string) -> string, now: int)
    : seq<ScraperResult>
  {
    match fetched
    case Raised(_) => []
    case Returned(items) => Listed(PySliceTo(items, q.limit), (i: Item) => SearchResultOf(i, q.year, join, now))
  }

  /** `search(query, series, volume, year, limit)`: the request for the combined query, then the loop over the hits. */
  method Search(q: Query, fetch: string -> Outcome<seq<Item>>, join: (string, string) -> string, now: int)
    returns (results: seq<ScraperResult>)
    ensures results == SearchResults(q, fetch(SearchQuery(q.query, q.series)), join, now)
  {
    results := [];
    var fetched := fetch(SearchQuery(q.query, q.series));
    if fetched.Raised? {
      return;
    }
    var items := PySliceTo(fetched.value, q.limit);
    ghost var parse := (i: Item) => SearchResultOf(i, q.year, join, now);
    for j := 0 to |items|
      invariant results == Listed(items[..j], parse)
    {
      ListedNext(items, parse, j);
      results := KeepHit(results, items[j], q.year, join, now);
    }
    assert items[..|items|] == items;
  }

  /** The body of the search loop: the hit parsed, and appended when it gives a result with a positive confidence. */
  method KeepHit(results: seq<ScraperResult>, item: Item, filterYear: Option<int>, join: (string, string) -> string,
                 now: int)
    returns (results': seq<ScraperResult>)
    ensures results' == results + KeptOne(SearchResultOf(item, filterYear, join, now))
  {
    var r := ParseSearchResult(item, filterYear, join, now);
    results' := results;
    if r.Some? && r.value.confidence > 0.0 {
      results' := results' + [r.value];
    }
  }

  /**
   * What a search returns: at most `limit` results, each from BDGest with a
   * confidence in [70, 100] and a year inside the window; and since every
   * parsed hit has a positive confidence, every hit among the first `limit`
   * with a link, a title and a year inside the window is kept.
   */
  lemma SearchProperties(q: Query, fetched: Outcome<seq<Item>>, join: (string, string) -> string, now: int)
    ensures var rs := SearchResults(q, fetched, join, now);
            (q.limit >= 0 ==> |rs| <= q.limit)
            && forall x :: x in rs ==> x.source == Name && 70.0 <= x.confidence <= 100.0
    ensures fetched.Raised? ==> SearchResults(q, fetched, join, now) == []
    ensures fetched.Returned? ==>
              var items := PySliceTo(fetched.value, q.limit);
              forall i :: 0 <= i < |items| && items[i].albumHref.Some? && items[i].titleText.Some?
                          && YearKept(q.year, ItemYear(items[i]))
                          ==> SearchResultOf(items[i], q.year, join, now).value in SearchResults(q, fetched, join, now)
  {
    if fetched.Returned? {
      var items := PySliceTo(fetched.value, q.limit);
      var parse := (i: Item) => SearchResultOf(i, q.year, join, now);
      ListedFrom(items, parse);
      ListedKeepsAll(items, parse);
    }
  }

  // ---------------------------------------------------------------- details

  /** The label tests in the order the scraper tries them: each key with the words that select it. */
  const RoleTests: seq<(string, seq<string>)> :=
    [("writer", ["scénariste", "scenario"]), ("penciller", ["dessinateur", "dessin"]),
     ("colorist", ["coloriste", "couleur"]), ("inker", ["encreur"]), ("publisher", ["éditeur", "editeur"]),
     ("year", ["année", "annee", "date"]), ("isbn", ["isbn"]), ("pages", ["pages", "planches"]),
     ("format", ["format"])]

  /** The key a row's label is for: the first test that passes on the lower-cased label. */
  function Role(heading: string): Option<string> {
    FirstPassing(Lower(heading), RoleTests)
  }

  /**
   * What one row stores: the value text under its key; for a year, the
   * first four digits, and for pages the first run of digits, only when
   * found; for an ISBN its normalised form, `None` included.
   */
  function RowWrites(row: Row): (w: Option<(string, Cell)>)
    ensures Role(row.0).None? ==> w.None?
    ensures w.Some? ==> Role(row.0) == Some(w.value.0)
    ensures Role(row.0) == Some("year") ==>
              (w.Some? <==> FirstYear(row.1).Some?) && (w.Some? ==> w.value.1 == Integer(FirstYear(row.1).value))
    ensures Role(row.0) == Some("pages") ==>
              (w.Some? <==> FirstNumber(row.1).Some?) && (w.Some? ==> w.value.1 == Integer(FirstNumber(row.1).value))
    ensures Role(row.0) == Some("isbn") ==> w == Some(("isbn", OptStr(NormalizeIsbn(row.1))))
    ensures Role(row.0).Some? && Role(row.0).value !in {"year", "pages", "isbn"} ==> w == Some((Role(row.0).value, Str(row.1)))
  {
    match Role(row.0)
    case None => None
    case Some(k) =>
      if k == "year" then
        (match FirstYear(row.1)
         case None => None
         case Some(y) => Some(("year", Integer(y))))
      else if k == "pages" then
        (match FirstNumber(row.1)
         case None => None
         case Some(n) => Some(("pages", Integer(n))))
      else if k == "isbn" then Some(("isbn", OptStr(NormalizeIsbn(row.1))))
      else Some((k, Str(row.1)))
  }

  /** `metadata.get(key)`. */
  function Meta(m: map<string, Cell>, key: string): Cell {
    DictGet(m, key, Null)
  }

  /** The result of `get_details` on a page that was fetched. */
  function DetailsOf(url: string, page: DetailPage, join: (string, string) -> string, now: int)
    : (r: Option<ScraperResult>)
    ensures r.Some? <==> page.titleText.Some?
    ensures r.Some? ==> r.value.source == Name && r.value.url == url && r.value.confidence == 95.0
    ensures r.Some? ==>
              var h := SplitTitle(page.titleText.value);
              r.value.title == Str(h.title) && r.value.series == SeriesCell(h) && r.value.volume == VolumeCell(h)
    ensures r.Some? ==>
              var m := Fill(page.rows, RowWrites);
              r.value.writer == Meta(m, "writer") && r.value.penciller == Meta(m, "penciller")
              && r.value.colorist == Meta(m, "colorist") && r.value.inker == Meta(m, "inker")
              && r.value.editor == Meta(m, "publisher") && r.value.year == Meta(m, "year")
              && r.value.isbn == Meta(m, "isbn") && r.value.pages == Meta(m, "pages")
              && r.value.format == Meta(m, "format")
    ensures r.Some? ==> r.value.summary == OptStr(page.summary) && r.value.coverData == Null
  {
    match page.titleText
    case None => None
    case Some(t) =>
      var h := SplitTitle(t);
      var m := Fill(page.rows, RowWrites);
      var cover := if page.coverSrc.Some? && page.coverSrc.value != [] then Str(join(BaseUrl, page.coverSrc.value)) else Null;
      var base := NewResult(Name, url, 95.0, h.title, None, None, now);
      Some(base.(series := SeriesCell(h), volume := VolumeCell(h),
                 writer := Meta(m, "writer"), penciller := Meta(m, "penciller"),
                 colorist := Meta(m, "colorist"), inker := Meta(m, "inker"),
                 editor := Meta(m, "publisher"), year := Meta(m, "year"), isbn := Meta(m, "isbn"),
                 pages := Meta(m, "pages"), format := Meta(m, "format"),
                 summary := OptStr(page.summary), coverUrl := cover))
  }

  /** `get_details(url)`: `None` when the request raises or the page has no heading. */
  method GetDetails(url: string, fetch: string -> Outcome<DetailPage>, join: (string, string) -> string, now: int)
    returns (r: Option<ScraperResult>)
    ensures fetch(url).Raised? ==> r.None?
    ensures fetch(url).Returned? ==> r == DetailsOf(url, fetch(url).value, join, now)
  {
    var fetched := fetch(url);
    if fetched.Raised? {
      return None;
    }
    var page := fetched.value;
    if page.titleText.None? {
      return None;
    }
    var metadata: map<string, Cell> := map[];
    for i := 0 to |page.rows|
      invariant metadata == Fill(page.rows[..i], RowWrites)
    {
      metadata := Apply(metadata, RowWrites(page.rows[i]));
      FillNext(page.rows, RowWrites, i);
    }
    assert page.rows[..|page.rows|] == page.rows;
    var h := SplitTitle(page.titleText.value);
    var cover := Null;
    if page.coverSrc.Some? && page.coverSrc.value != [] {
      cover := Str(join(BaseUrl, page.coverSrc.value));
    }
    var base := NewResult(Name, url, 95.0, h.title, None, None, now);
    r := Some(base.(series := SeriesCell(h), volume := VolumeCell(h),
                    writer := Meta(metadata, "writer"), penciller := Meta(metadata, "penciller"),
                    colorist := Meta(metadata, "colorist"), inker := Meta(metadata, "inker"),
                    editor := Meta(metadata, "publisher"), year := Meta(metadata, "year"),
                    isbn := Meta(metadata, "isbn"), pages := Meta(metadata, "pages"),
                    format := Meta(metadata, "format"),
                    summary := OptStr(page.summary), coverUrl := cover));
  }

  /**
   * The writer of a detail result is the value of the last row whose label
   * is a writer's, and `None` when there is no such row.
   */
  lemma DetailsWriterIsLastRow(url: string, page: DetailPage, join: (string, string) -> string, now: int)
    requires page.titleText.Some?
    ensures var r := DetailsOf(url, page, join, now).value;
            (r.writer != Null <==> exists i :: 0 <= i < |page.rows| && Role(page.rows[i].0) == Some("writer"))
            && (r.writer != Null ==>
                  exists i :: 0 <= i < |page.rows| && Role(page.rows[i].0) == Some("writer")
                              && r.writer == Str(page.rows[i].1)
                              && forall j :: i < j < |page.rows| ==> Role(page.rows[j].0) != Some("writer"))
  {
    var rows := page.rows;
    var m := Fill(rows, RowWrites);
    FillLastWins(rows, RowWrites, "writer");
    forall i | 0 <= i < |rows|
      ensures WritesKey(RowWrites, rows[i], "writer") <==> Role(rows[i].0) == Some("writer")
      ensures WritesKey(RowWrites, rows[i], "writer") ==> RowWrites(rows[i]).value.1 == Str(rows[i].1)
    {
      WritesWriter(rows[i]);
    }
    assert DetailsOf(url, page, join, now).value.writer == Meta(m, "writer");
  }

  lemma WritesWriter(row: Row)
    ensures WritesKey(RowWrites, row, "writer") <==> Role(row.0) == Some("writer")
    ensures WritesKey(RowWrites, row, "writer") ==> RowWrites(row).value.1 == Str(row.1)
  {
  }
}
