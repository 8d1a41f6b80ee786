/**
 * The BDfugue scraper (`BDfugueScraper`) once the page has been taken
 * apart. A product listing is read with two heading patterns in turn, a
 * confidence tally of five parts and the two-year window; a product page's
 * table is read row by row by `_extract_metadata_field`.
 *
 * Fetching a page is a parameter `fetch` (a request that raises is
 * `Raised`), and `urllib.parse.urljoin` is a parameter `join`.
 */
module BdfugueScraper {
  import opened Wrappers
  import opened Text
  import opened Values
  import opened BaseScraper
  import opened Patterns
  import opened Listing

  const Name: string := "bdfugue"
  const Priority: int := 30
  const BaseUrl: string := "https://www.bdfugue.com"

  /**
   * A product in a listing: the href of its link, the stripped text of its
   * title tag; from its information block the stripped publisher text, the
   * year text and the stripped author text; and the `src` (or `data-src`,
   * or "") of its image. `None` for a missing tag.
   */
  datatype Product = Product(
    href: Option<string>,
    titleText: Option<string>,
    publisherText: Option<string>,
    yearText: Option<string>,
    writerText: Option<string>,
    imgSrc: Option<string>)

  /** A listing heading: "S - Tome N - T" first, then "S T.N - T". */
  function SplitTitle(t: string): Heading {
    var h := Parse(DashTome(true), t);
    if h.series.Some? then h else Parse(ShortTome, t)
  }

  /** A product page heading: "S - Tome N - T" (without `Vol`). */
  function SplitPageTitle(t: string): Heading {
    Parse(DashTome(false), t)
  }

  /** A listing reads "S - Tome N - T" into its three parts. */
  lemma SplitTitleDashForm(S: string, N: string, T: string)
    requires S != [] && '\n' !in S && !IsSpace(S[|S| - 1])
    requires forall i :: 0 <= i < |S| ==> !IsDash(S[i])
    requires N != [] && AllDigits(N)
    requires T != [] && '\n' !in T && !IsSpace(T[0])
    ensures SplitTitle(S + " - Tome " + N + " - " + T) == Heading(Some(Strip(S)), Some(DigitsValue(N)), Strip(T))
  {
    assert S + " - Tome " + N + " - " + T == S + [' ', '-', ' '] + "Tome " + N + [' ', '-', ' '] + T;
    DashTomeSplits(S, N, T, '-', '-', true);
  }

  /**
   * A listing falls back on "S T.N - T" when the first pattern finds
   * nothing, which it cannot when neither `S` nor `T` holds a dash.
   */
  lemma SplitTitleShortForm(S: string, N: string, T: string)
    requires S != [] && '\n' !in S && !IsSpace(S[|S| - 1])
    requires forall i :: 0 <= i < |S| ==> !IsDash(S[i]) && !IsDigit(S[i])
    requires N != [] && AllDigits(N)
    requires T != [] && '\n' !in T && !IsSpace(T[0])
    requires forall i :: 0 <= i < |T| ==> !IsDash(T[i])
    ensures SplitTitle(S + " T." + N + " - " + T) == Heading(Some(Strip(S)), Some(DigitsValue(N)), Strip(T))
  {
    assert S + " T." + N + " - " + T == S + " T." + N + [' ', '-', ' '] + T;
    ShortTomeNotDashTome(S, N, T, '-', true);
    ShortTomeSplits(S, N, T, '-');
  }

  function ProductYear(p: Product): Option<int> {
    match p.yearText
    case None => None
    case Some(t) => FirstYear(t)
  }

  /** An image tag always gives a cover url, even with an empty `src`. */
  function ProductCover(p: Product, join: (string, string) -> string): Option<string> {
    match p.imgSrc
    case None => None
    case Some(src) => Some(join(BaseUrl, src))
  }

  /** The listing confidence: 60, then 15 for a series with a volume, 10 for a year, 10 for a cover url and 5 for a publisher. */
  function ListingConfidence(h: Heading, year: Option<int>, cover: Option<string>, publisher: Option<string>): (c: real)
    ensures 60.0 <= c <= 100.0
    ensures c == 100.0 <==> SeriesAndVolume(h) && Truthy(OptCell(year)) && Truthy(OptStr(cover)) && Truthy(OptStr(publisher))
    ensures c == 60.0 <==> !SeriesAndVolume(h) && !Truthy(OptCell(year)) && !Truthy(OptStr(cover)) && !Truthy(OptStr(publisher))
  {
    60.0 + (if SeriesAndVolume(h) then 15.0 else 0.0)
    + (if Truthy(OptCell(year)) then 10.0 else 0.0)
    + (if Truthy(OptStr(cover)) then 10.0 else 0.0)
    + (if Truthy(OptStr(publisher)) then 5.0 else 0.0)
  }

  /** `_parse_product(product, filter_year)`. */
  function ProductResultOf(p: Product, filterYear: Option<int>, join: (string, string) -> string, now: int)
    : (r: Option<ScraperResult>)
    ensures r.Some? <==> p.href.Some? && p.href.value != [] && p.titleText.Some? && YearKept(filterYear, ProductYear(p))
    ensures r.Some? ==> r.value.source == Name && r.value.url == join(BaseUrl, p.href.value)
    ensures r.Some? ==> 60.0 <= r.value.confidence <= 100.0
    ensures r.Some? ==>
              var h := SplitTitle(p.titleText.value);
              r.value.title == Str(h.title) && r.value.series == SeriesCell(h) && r.value.volume == VolumeCell(h)
    ensures r.Some? ==> r.value.year == OptCell(ProductYear(p)) && r.value.editor == OptStr(p.publisherText)
                        && r.value.writer == OptStr(p.writerText)
    ensures r.Some? ==> r.value.coverUrl == OptStr(ProductCover(p, join))
    ensures r.Some? ==> forall f :: f !in {Title, Series, Volume, Writer, Editor, Year, CoverUrl} ==> Get(r.value, f) == Null
  {
    if p.href.None? || p.href.value == [] || p.titleText.None? then None
    else
      var h := SplitTitle(p.titleText.value);
      var year := ProductYear(p);
      if !YearKept(filterYear, year) then None
      else
        var cover := ProductCover(p, join);
        var base := NewResult(Name, join(BaseUrl, p.href.value), ListingConfidence(h, year, cover, p.publisherText),
                              h.title, None, None, now);
        Some(base.(series := SeriesCell(h), volume := VolumeCell(h), writer := OptStr(p.writerText),
                   editor := OptStr(p.publisherText), year := OptCell(year), coverUrl := OptStr(cover)))
  }

  /** `_parse_product` as written, with the confidence counted up step by step. */
  method ParseProduct(p: Product, filterYear: Option<int>, join: (string, string) -> string, now: int)
    returns (r: Option<ScraperResult>)
    ensures r == ProductResultOf(p, filterYear, join, now)
  {
    if p.href.None? || p.href.value == [] {
      return None;
    }
    var url := join(BaseUrl, p.href.value);
    if p.titleText.None? {
      return None;
    }
    var h := SplitTitle(p.titleText.value);
    var year := ProductYear(p);
    if !YearKept(filterYear, year) {
      return None;
    }
    var cover := ProductCover(p, join);
    var confidence := 60.0;
    if SeriesAndVolume(h) {
      confidence := confidence + 15.0;
    }
    if Truthy(OptCell(year)) {
      confidence := confidence + 10.0;
    }
    if Truthy(OptStr(cover)) {
      confidence := confidence + 10.0;
    }
    if Truthy(OptStr(p.publisherText)) {
      confidence := confidence + 5.0;
    }
    assert confidence == ListingConfidence(h, year, cover, p.publisherText);
    var base := NewResult(Name, url, confidence, h.title, None, None, now);
    r := Some(base.(series := SeriesCell(h), volume := VolumeCell(h), writer := OptStr(p.writerText),
                    editor := OptStr(p.publisherText), year := OptCell(year), coverUrl := OptStr(cover)));
  }

  /** `search(...)` on what the request returned: the first `limit` products parsed, those with a result kept. */
  function SearchResults(q: Query, fetched: Outcome<seq<Product>>, join: (string, string) -> string, now: int)
    : seq<ScraperResult>
  {
    match fetched
    case Raised(_) => []
    case Returned(ps) => Listed(PySliceTo(ps, q.limit), (p: Product) => ProductResultOf(p, q.year, join, now))
  }

  /** `search(query, series, volume, year, limit)`: the request for the combined query, then the loop over the products. */
  method Search(q: Query, fetch: string -> Outcome<seq<Product>>, join: (string, string) -> string, now: int)
    returns (results: seq<ScraperResult>)
    ensures results == SearchResults(q, fetch(SearchQuery(q.query, q.series)), join, now)
  {
    results := [];
    var fetched := fetch(SearchQuery(q.query, q.series));
    if fetched.Raised? {
      return;
    }
    var ps := PySliceTo(fetched.value, q.limit);
    ghost var parse := (p: Product) => ProductResultOf(p, q.year, join, now);
    for j := 0 to |ps|
      invariant results == Listed(ps[..j], parse)
    {
      var r := ParseProduct(ps[j], q.year, join, now);
      if r.Some? && r.value.confidence > 0.0 {
        results := results + [r.value];
      }
      ListedNext(ps, parse, j);
    }
    assert ps[..|ps|] == ps;
  }

  /**
   * What a search returns: for a non-negative `limit` at most `limit`
   * results, each from BDfugue with a confidence in [60, 100]; every product
   * among the first `limit` with a link, a title and a year inside the
   * window is kept.
   */
  lemma SearchProperties(q: Query, fetched: Outcome<seq<Product>>, join: (string, string) -> string, now: int)
    ensures var rs := SearchResults(q, fetched, join, now);
            (q.limit >= 0 ==> |rs| <= q.limit)
            && forall x :: x in rs ==> x.source == Name && 60.0 <= x.confidence <= 100.0
    ensures fetched.Raised? ==> SearchResults(q, fetched, join, now) == []
    ensures fetched.Returned? ==>
              var ps := PySliceTo(fetched.value, q.limit);
              forall i :: 0 <= i < |ps| && ps[i].href.Some? && ps[i].href.value != [] && ps[i].titleText.Some?
                          && YearKept(q.year, ProductYear(ps[i]))
                          ==> ProductResultOf(ps[i], q.year, join, now).value in SearchResults(q, fetched, join, now)
  {
    if fetched.Returned? {
      var ps := PySliceTo(fetched.value, q.limit);
      var parse := (p: Product) => ProductResultOf(p, q.year, join, now);
      ListedFrom(ps, parse);
      ListedKeepsAll(ps, parse);
    }
  }

  // ---------------------------------------------------------------- details

  /** The label tests of `_extract_metadata_field`, in order: each key with the words that select it. */
  const FieldTests: seq<(string, seq<string>)> :=
    [("writer", ["scénariste", "scenario", "auteur"]), ("penciller", ["dessinateur", "dessin"]),
     ("colorist", ["coloriste"]), ("publisher", ["éditeur", "editeur"]),
     ("year", ["date", "parution", "année"]), ("isbn", ["isbn", "ean"]), ("pages", ["pages", "planches"]),
     ("format", ["format", "reliure"])]

  /** The key a label is for: the first test that passes on the lower-cased label. */
  function FieldOf(heading: string): Option<string> {
    FirstPassing(Lower(heading), FieldTests)
  }

  /**
   * What `_extract_metadata_field(label, value, metadata)` stores: the
   * value under its key; for a year the first four digits and for pages the
   * first run of digits, only when found; for an ISBN its normalised form,
   * `None` included.
   */
  function FieldWrites(row: Row): (w: Option<(string, Cell)>)
    ensures FieldOf(row.0).None? ==> w.None?
    ensures w.Some? ==> FieldOf(row.0) == Some(w.value.0)
    ensures FieldOf(row.0) == Some("year") ==>
              (w.Some? <==> FirstYear(row.1).Some?) && (w.Some? ==> w.value.1 == Integer(FirstYear(row.1).value))
    ensures FieldOf(row.0) == Some("pages") ==>
              (w.Some? <==> FirstNumber(row.1).Some?) && (w.Some? ==> w.value.1 == Integer(FirstNumber(row.1).value))
    ensures FieldOf(row.0) == Some("isbn") ==> w == Some(("isbn", OptStr(NormalizeIsbn(row.1))))
    ensures FieldOf(row.0).Some? && FieldOf(row.0).value !in {"year", "pages", "isbn"} ==> w == Some((FieldOf(row.0).value, Str(row.1)))
  {
    match FieldOf(row.0)
    case None => None
    case Some(k) =>
      if k == "year" then
        (match FirstYear(row.1)
         case None => None
         case Some(y) => Some(("year", Integer(y))))
      else if k == "pages" then
        (match FirstNumber(row.1)
         case None => None
         case Some(n) => Some(("pages", Integer(n))))
      else if k == "isbn" then Some(("isbn", OptStr(NormalizeIsbn(row.1))))
      else Some((k, Str(row.1)))
  }

  /**
   * `_extract_metadata_field`: the dictionary with at most the label's key
   * written; an unmatched label, a year without four digits and pages
   * without digits leave it as it was.
   */
  method ExtractMetadataField(heading: string, value: string, metadata: map<string, Cell>)
    returns (updated: map<string, Cell>)
    ensures updated == Apply(metadata, FieldWrites((heading, value)))
    ensures FieldOf(heading).None? ==> updated == metadata
    ensures forall k :: k in metadata ==> k in updated
    ensures forall k :: k in updated && (FieldOf(heading).None? || k != FieldOf(heading).value)
                        ==> k in metadata && updated[k] == metadata[k]
  {
    var l := Lower(heading);
    updated := metadata;
    if AnyIn(l, FieldTests[0].1) {
      updated := updated["writer" := Str(value)];
    } else if AnyIn(l, FieldTests[1].1) {
      updated := updated["penciller" := Str(value)];
    } else if AnyIn(l, FieldTests[2].1) {
      updated := updated["colorist" := Str(value)];
    } else if AnyIn(l, FieldTests[3].1) {
      updated := updated["publisher" := Str(value)];
    } else if AnyIn(l, FieldTests[4].1) {
      var y := FirstYear(value);
      if y.Some? {
        updated := updated["year" := Integer(y.value)];
      }
    } else if AnyIn(l, FieldTests[5].1) {
      updated := updated["isbn" := OptStr(NormalizeIsbn(value))];
    } else if AnyIn(l, FieldTests[6].1) {
      var n := FirstNumber(value);
      if n.Some? {
        updated := updated["pages" := Integer(n.value)];
      }
    } else if AnyIn(l, FieldTests[7].1) {
      updated := updated["format" := Str(value)];
    }
    FieldOfSteps(l);
  }

  /** `FirstPassing` over the eight tests, one test at a time. */
  lemma FieldOfSteps(l: string)
    ensures FirstPassing(l, FieldTests) ==
            if AnyIn(l, FieldTests[0].1) then Some("writer")
            else if AnyIn(l, FieldTests[1].1) then Some("penciller")
            else if AnyIn(l, FieldTests[2].1) then Some("colorist")
            else if AnyIn(l, FieldTests[3].1) then Some("publisher")
            else if AnyIn(l, FieldTests[4].1) then Some("year")
            else if AnyIn(l, FieldTests[5].1) then Some("isbn")
            else if AnyIn(l, FieldTests[6].1) then Some("pages")
            else if AnyIn(l, FieldTests[7].1) then Some("format")
            else None
  {
    var T := FieldTests;
    assert T[0..] == T;
    FirstPassingAt(l, T, 0);
    FirstPassingAt(l, T, 1);
    FirstPassingAt(l, T, 2);
    FirstPassingAt(l, T, 3);
    FirstPassingAt(l, T, 4);
    FirstPassingAt(l, T, 5);
    FirstPassingAt(l, T, 6);
    FirstPassingAt(l, T, 7);
    assert T[8..] == [];
  }

  function Meta(m: map<string, Cell>, key: string): Cell {
    DictGet(m, key, Null)
  }

  /** The cover url of a product page: any cover tag gives one. */
  function PageCover(page: DetailPage, join: (string, string) -> string): Cell {
    match page.coverSrc
    case None => Null
    case Some(src) => Str(join(BaseUrl, src))
  }

  /** The result of `get_details` on a page that was fetched. */
  function DetailsOf(url: string, page: DetailPage, join: (string, string) -> string, now: int)
    : (r: Option<ScraperResult>)
    ensures r.Some? <==> page.titleText.Some?
    ensures r.Some? ==> r.value.source == Name && r.value.url == url && r.value.confidence == 90.0
    ensures r.Some? ==>
              var h := SplitPageTitle(page.titleText.value);
              r.value.title == Str(h.title) && r.value.series == SeriesCell(h) && r.value.volume == VolumeCell(h)
    ensures r.Some? ==>
              var m := Fill(page.rows, FieldWrites);
              r.value.writer == Meta(m, "writer") && r.value.penciller == Meta(m, "penciller")
              && r.value.colorist == Meta(m, "colorist") && r.value.editor == Meta(m, "publisher")
              && r.value.year == Meta(m, "year") && r.value.isbn == Meta(m, "isbn")
              && r.value.pages == Meta(m, "pages") && r.value.format == Meta(m, "format")
    ensures r.Some? ==> r.value.inker == Null && r.value.summary == OptStr(page.summary)
  {
    match page.titleText
    case None => None
    case Some(t) =>
      var h := SplitPageTitle(t);
      var m := Fill(page.rows, FieldWrites);
      var base := NewResult(Name, url, 90.0, h.title, None, None, now);
      Some(base.(series := SeriesCell(h), volume := VolumeCell(h),
                 writer := Meta(m, "writer"), penciller := Meta(m, "penciller"),
                 colorist := Meta(m, "colorist"), editor := Meta(m, "publisher"),
                 year := Meta(m, "year"), isbn := Meta(m, "isbn"),
                 pages := Meta(m, "pages"), format := Meta(m, "format"),
                 summary := OptStr(page.summary), coverUrl := PageCover(page, join)))
  }

  /** `get_details(url)`: `None` when the request raises or the page has no heading. */
  method GetDetails(url: string, fetch: string -> Outcome<DetailPage>, join: (string, string) -> string, now: int)
    returns (r: Option<ScraperResult>)
    ensures fetch(url).Raised? ==> r.None?
    ensures fetch(url).Returned? ==> r == DetailsOf(url, fetch(url).value, join, now)
  {
    var fetched := fetch(url);
    if fetched.Raised? {
      return None;
    }
    var page := fetched.value;
    if page.titleText.None? {
      return None;
    }
    var metadata: map<string, Cell> := map[];
    for i := 0 to |page.rows|
      invariant metadata == Fill(page.rows[..i], FieldWrites)
    {
      metadata := ExtractMetadataField(page.rows[i].0, page.rows[i].1, metadata);
      FillNext(page.rows, FieldWrites, i);
    }
    assert page.rows[..|page.rows|] == page.rows;
    var h := SplitPageTitle(page.titleText.value);
    var base := NewResult(Name, url, 90.0, h.title, None, None, now);
    r := Some(base.(series := SeriesCell(h), volume := VolumeCell(h),
                    writer := Meta(metadata, "writer"), penciller := Meta(metadata, "penciller"),
                    colorist := Meta(metadata, "colorist"), editor := Meta(metadata, "publisher"),
                    year := Meta(metadata, "year"), isbn := Meta(metadata, "isbn"),
                    pages := Meta(metadata, "pages"), format := Meta(metadata, "format"),
                    summary := OptStr(page.summary), coverUrl := PageCover(page, join)));
  }
}
