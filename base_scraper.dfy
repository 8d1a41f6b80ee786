/**
 * The record every scraper returns (`ScraperResult`) and the helpers the
 * abstract `BaseScraper` gives to all scrapers: configuration defaults,
 * ISBN normalisation and result validation.
 */
module BaseScraper {
  import opened Wrappers
  import opened Text
  import opened Values

  /** The metadata fields of a `ScraperResult`, in the order the merger fills them. */
  datatype Field =
    | Title | Series | Volume | Writer | Penciller | Colorist | Inker | Editor
    | Year | Isbn | Pages | Format | Summary | CoverUrl | CoverData

  const AllFields: seq<Field> :=
    [Title, Series, Volume, Writer, Penciller, Colorist, Inker, Editor,
     Year, Isbn, Pages, Format, Summary, CoverUrl, CoverData]

  lemma AllFieldsListed(f: Field)
    ensures f in AllFields
  {
  }

  /**
   * One scraped album. Every metadata field holds a value or `Null`
   * (Python's `None`); `retrievedAt` is a timestamp.
   */
  datatype ScraperResult = ScraperResult(
    source: string,
    url: string,
    confidence: real,
    title: Cell,
    series: Cell,
    volume: Cell,
    writer: Cell,
    penciller: Cell,
    colorist: Cell,
    inker: Cell,
    editor: Cell,
    year: Cell,
    isbn: Cell,
    pages: Cell,
    format: Cell,
    summary: Cell,
    coverUrl: Cell,
    coverData: Cell,
    extra: map<string, Cell>,
    retrievedAt: int)

  /** `getattr(result, field)`. */
  function Get(r: ScraperResult, f: Field): Cell {
    match f
    case Title => r.title
    case Series => r.series
    case Volume => r.volume
    case Writer => r.writer
    case Penciller => r.penciller
    case Colorist => r.colorist
    case Inker => r.inker
    case Editor => r.editor
    case Year => r.year
    case Isbn => r.isbn
    case Pages => r.pages
    case Format => r.format
    case Summary => r.summary
    case CoverUrl => r.coverUrl
    case CoverData => r.coverData
  }

  /** `setattr(result, field, v)`. */
  function Set(r: ScraperResult, f: Field, v: Cell): (r': ScraperResult)
    ensures Get(r', f) == v
    ensures forall g :: g != f ==> Get(r', g) == Get(r, g)
    ensures SameHeader(r', r)
  {
    match f
    case Title => r.(title := v)
    case Series => r.(series := v)
    case Volume => r.(volume := v)
    case Writer => r.(writer := v)
    case Penciller => r.(penciller := v)
    case Colorist => r.(colorist := v)
    case Inker => r.(inker := v)
    case Editor => r.(editor := v)
    case Year => r.(year := v)
    case Isbn => r.(isbn := v)
    case Pages => r.(pages := v)
    case Format => r.(format := v)
    case Summary => r.(summary := v)
    case CoverUrl => r.(coverUrl := v)
    case CoverData => r.(coverData := v)
  }

  /** Source, url, confidence, extra data and timestamp agree. */
  predicate SameHeader(a: ScraperResult, b: ScraperResult) {
    a.source == b.source && a.url == b.url && a.confidence == b.confidence
    && a.extra == b.extra && a.retrievedAt == b.retrievedAt
  }

  /** Two results that agree on every field and on the header are equal. */
  lemma ResultExt(a: ScraperResult, b: ScraperResult)
    requires SameHeader(a, b) && forall f :: Get(a, f) == Get(b, f)
    ensures a == b
  {
    assert a.title == b.title by { assert Get(a, Title) == Get(b, Title); }
    assert a.series == b.series by { assert Get(a, Series) == Get(b, Series); }
    assert a.volume == b.volume by { assert Get(a, Volume) == Get(b, Volume); }
    assert a.writer == b.writer by { assert Get(a, Writer) == Get(b, Writer); }
    assert a.penciller == b.penciller by { assert Get(a, Penciller) == Get(b, Penciller); }
    assert a.colorist == b.colorist by { assert Get(a, Colorist) == Get(b, Colorist); }
    assert a.inker == b.inker by { assert Get(a, Inker) == Get(b, Inker); }
    assert a.editor == b.editor by { assert Get(a, Editor) == Get(b, Editor); }
    assert a.year == b.year by { assert Get(a, Year) == Get(b, Year); }
    assert a.isbn == b.isbn by { assert Get(a, Isbn) == Get(b, Isbn); }
    assert a.pages == b.pages by { assert Get(a, Pages) == Get(b, Pages); }
    assert a.format == b.format by { assert Get(a, Format) == Get(b, Format); }
    assert a.summary == b.summary by { assert Get(a, Summary) == Get(b, Summary); }
    assert a.coverUrl == b.coverUrl by { assert Get(a, CoverUrl) == Get(b, CoverUrl); }
    assert a.coverData == b.coverData by { assert Get(a, CoverData) == Get(b, CoverData); }
  }

  /**
   * The dataclass constructor with only the required fields given and
   * `__post_init__`: an omitted `extra` becomes `{}` and an omitted
   * `retrieved_at` becomes the current time `now`.
   */
  function NewResult(source: string, url: string, confidence: real, title: string,
                     extra: Option<map<string, Cell>>, retrievedAt: Option<int>,
                     now: int): (r: ScraperResult)
    ensures r.source == source && r.url == url && r.confidence == confidence
    ensures Get(r, Title) == Str(title)
    ensures forall f :: f != Title ==> Get(r, f) == Null
    ensures extra.None? ==> r.extra == map[]
    ensures extra.Some? ==> r.extra == extra.value
    ensures retrievedAt.None? ==> r.retrievedAt == now
    ensures retrievedAt.Some? ==> r.retrievedAt == retrievedAt.value
  {
    ScraperResult(source, url, confidence, Str(title), Null, Null, Null, Null, Null,
                  Null, Null, Null, Null, Null, Null, Null, Null, Null,
                  extra.GetOr(map[]), retrievedAt.GetOr(now))
  }

  /** The field types the dataclass declares: strings, integers and bytes, or `None`. */
  predicate WellTyped(r: ScraperResult) {
    r.title.Str?
    && (forall f :: f in TextFields ==> Get(r, f).Null? || Get(r, f).Str?)
    && (r.volume.Null? || r.volume.Integer?)
    && (r.year.Null? || r.year.Integer?)
    && (r.pages.Null? || r.pages.Integer?)
    && (r.coverData.Null? || r.coverData.Blob?)
  }

  const TextFields: set<Field> :=
    {Series, Writer, Penciller, Colorist, Inker, Editor, Isbn, Format, Summary, CoverUrl}

  /** The arguments of `search(query, series, volume, year, limit)`. */
  datatype Query = Query(query: string, series: Option<string>, volume: Option<int>, year: Option<int>, limit: int)

  /** The settings `BaseScraper.__init__` reads from its configuration dictionary. */
  datatype ScraperSettings = ScraperSettings(
    config: map<string, Cell>,
    timeout: Cell,
    maxRetries: Cell,
    enabled: Cell)

  /** `BaseScraper.__init__(config)`: defaults timeout 30, max_retries 3, enabled True. */
  function Configure(config: Option<map<string, Cell>>): (s: ScraperSettings)
    ensures config.None? ==> s.config == map[]
    ensures config.Some? ==> s.config == config.value
    ensures "timeout" in s.config ==> s.timeout == s.config["timeout"]
    ensures "timeout" !in s.config ==> s.timeout == Integer(30)
    ensures "max_retries" in s.config ==> s.maxRetries == s.config["max_retries"]
    ensures "max_retries" !in s.config ==> s.maxRetries == Integer(3)
    ensures "enabled" in s.config ==> s.enabled == s.config["enabled"]
    ensures "enabled" !in s.config ==> s.enabled == Boolean(true)
  {
    var c := config.GetOr(map[]);
    ScraperSettings(c, DictGet(c, "timeout", Integer(30)),
                    DictGet(c, "max_retries", Integer(3)),
                    DictGet(c, "enabled", Boolean(true)))
  }

  /** A scraper built without configuration is enabled. */
  lemma DefaultSettings()
    ensures var s := Configure(None);
            s.timeout == Integer(30) && s.maxRetries == Integer(3) && IsEnabled(s)
  {
  }

  /** The `is_enabled` property. */
  predicate IsEnabled(s: ScraperSettings) {
    Truthy(s.enabled)
  }

  // ---------------------------------------------------------------- ISBN

  /** `isbn.replace('-', '').replace(' ', '').strip()`. */
  function IsbnText(isbn: string): string {
    Strip(ReplaceAll(ReplaceAll(isbn, "-", ""), " ", ""))
  }

  /** `normalize_isbn`: the separator-free text when it is 10 or 13 ASCII digits. */
  function NormalizeIsbn(isbn: string): (r: Option<string>)
    ensures isbn == [] ==> r == None
    ensures r.Some? ==> (|r.value| == 10 || |r.value| == 13) && AllDigits(r.value)
    ensures r.Some? ==> '-' !in r.value && ' ' !in r.value
    ensures r.Some? ==> r.value == Strip(WithoutSeparators(isbn))
    ensures isbn != [] ==>
              (r.Some? <==> var d := Strip(WithoutSeparators(isbn)); (|d| == 10 || |d| == 13) && AllDigits(d))
  {
    IsbnTextDrops(isbn);
    if isbn == [] then None
    else
      var normalized := IsbnText(isbn);
      if (|normalized| == 10 || |normalized| == 13) && AllDigits(normalized) then Some(normalized)
      else None
  }

  /** The text with every hyphen and every space left out. */
  function WithoutSeparators(s: string): (r: string)
    ensures '-' !in r && ' ' !in r
  {
    if s == [] then []
    else if s[0] == '-' || s[0] == ' ' then WithoutSeparators(s[1..])
    else [s[0]] + WithoutSeparators(s[1..])
  }

  /** Every `c` replaced by nothing is every `c` left out. */
  lemma {:induction false} ReplaceCharByNothing(s: string, c: char)
    ensures ReplaceAll(s, [c], "") == DropChar(s, c)
    decreases |s|
  {
    if s != [] {
      ReplaceCharByNothing(s[1..], c);
      if s[0] == c {
        assert [c] <= s;
      } else {
        assert !([c] <= s);
      }
    }
  }

  function DropChar(s: string, c: char): string {
    if s == [] then [] else if s[0] == c then DropChar(s[1..], c) else [s[0]] + DropChar(s[1..], c)
  }

  lemma {:induction false} DropBoth(s: string)
    ensures DropChar(DropChar(s, '-'), ' ') == WithoutSeparators(s)
    decreases |s|
  {
    if s != [] {
      DropBoth(s[1..]);
    }
  }

  /** The `replace` calls leave out exactly the hyphens and the spaces. */
  lemma IsbnTextDrops(isbn: string)
    ensures IsbnText(isbn) == Strip(WithoutSeparators(isbn))
  {
    var a := ReplaceAll(isbn, "-", "");
    ReplaceCharByNothing(isbn, '-');
    ReplaceCharByNothing(a, ' ');
    DropBoth(isbn);
  }

  /**
   * An ISBN written with hyphens or spaces anywhere, such as 978-2-203-00101-1,
   * is accepted as its digits.
   */
  lemma SeparatedIsbnAccepted(isbn: string)
    requires var d := WithoutSeparators(isbn); (|d| == 10 || |d| == 13) && AllDigits(d)
    ensures NormalizeIsbn(isbn) == Some(WithoutSeparators(isbn))
  {
    var d := WithoutSeparators(isbn);
    assert !IsSpace(d[0]) && !IsSpace(d[|d| - 1]);
    assert RStrip(d) == d;
    assert LStrip(d) == d;
    assert isbn != [];
  }

  /** Ten or thirteen ASCII digits are already normalised. */
  lemma NormalizeIsbnFixes(v: string)
    requires (|v| == 10 || |v| == 13) && AllDigits(v)
    ensures NormalizeIsbn(v) == Some(v)
  {
    DigitsLackChar(v, '-');
    ReplaceAbsent(v, "-", "");
    DigitsLackChar(v, ' ');
    ReplaceAbsent(v, " ", "");
    assert !IsSpace(v[0]) && !IsSpace(v[|v| - 1]);
    assert RStrip(v) == v;
    assert LStrip(v) == v;
  }

  /** Normalising a normalised ISBN gives it back unchanged. */
  lemma NormalizeIsbnIdempotent(isbn: string)
    requires NormalizeIsbn(isbn).Some?
    ensures NormalizeIsbn(NormalizeIsbn(isbn).value) == NormalizeIsbn(isbn)
  {
    NormalizeIsbnFixes(NormalizeIsbn(isbn).value);
  }

  /** A character that is neither a digit, a separator nor whitespace makes the ISBN invalid. */
  lemma NormalizeIsbnRejects(isbn: string, x: char)
    requires x in isbn && !IsDigit(x) && x != '-' && !IsSpace(x)
    ensures NormalizeIsbn(isbn) == None
  {
    var a := ReplaceAll(isbn, "-", "");
    var b := ReplaceAll(a, " ", "");
    ReplaceKeeps(isbn, '-', x);
    ReplaceKeeps(a, ' ', x);
    StripKeeps(b, x);
    var n := IsbnText(isbn);
    var i :| 0 <= i < |n| && n[i] == x;
    assert !IsDigit(n[i]);
  }

  /** An ISBN-10 whose check character is 'X', such as 2-87129-035-X, is rejected. */
  lemma IsbnCheckXRejected(isbn: string)
    requires 'X' in isbn
    ensures NormalizeIsbn(isbn) == None
  {
    NormalizeIsbnRejects(isbn, 'X');
  }

  /** The ISBN-10 check of ISO 2108: the weighted digit sum is divisible by 11. */
  predicate Isbn10CheckDigitOk(s: string)
    requires |s| == 10 && AllDigits(s)
  {
    WeightedSum(s, 10) % 11 == 0
  }

  /** Sum of the digits of `s` weighted `w`, `w - 1`, ... from the left. */
  function WeightedSum(s: string, w: int): int
    requires AllDigits(s)
  {
    if s == [] then 0 else w * DigitValue(s[0]) + WeightedSum(s[1..], w - 1)
  }

  /** The check digit is not verified: "0000000001" is accepted though its check fails. */
  lemma CheckDigitNotVerified()
    ensures NormalizeIsbn("0000000001") == Some("0000000001")
    ensures !Isbn10CheckDigitOk("0000000001")
  {
    var v := "0000000001";
    assert AllDigits(v);
    NormalizeIsbnFixes(v);
    CheckDigitFails();
  }

  lemma CheckDigitFails()
    ensures AllDigits("0000000001") && !Isbn10CheckDigitOk("0000000001")
  {
    var v := "0000000001";
    assert v == Zeros(9) + "1";
    WeightedZerosThenOne(9);
  }

  function Zeros(n: nat): (z: string)
    ensures |z| == n
  {
    if n == 0 then [] else "0" + Zeros(n - 1)
  }

  lemma {:induction false} ZerosDigits(n: nat)
    ensures AllDigits(Zeros(n) + "1")
  {
    if n > 0 {
      ZerosDigits(n - 1);
      assert Zeros(n) + "1" == "0" + (Zeros(n - 1) + "1");
    }
  }

  lemma {:induction false} WeightedZerosThenOne(n: nat)
    ensures AllDigits(Zeros(n) + "1")
    ensures WeightedSum(Zeros(n) + "1", n + 1) == 1
  {
    ZerosDigits(n);
    if n > 0 {
      WeightedZerosThenOne(n - 1);
      assert (Zeros(n) + "1")[1..] == Zeros(n - 1) + "1";
    }
  }

  lemma {:induction false} DigitsLackChar(s: string, c: char)
    requires AllDigits(s) && !IsDigit(c)
    ensures !Contains(s, [c])
    decreases |s|
  {
    if s != [] {
      assert s[0] != c;
      DigitsLackChar(s[1..], c);
    }
  }

  /** Removing every `c` keeps every other character. */
  lemma {:induction false} ReplaceKeeps(s: string, c: char, x: char)
    requires x in s && x != c
    ensures x in ReplaceAll(s, [c], "")
    decreases |s|
  {
    if s[0] == x {
      assert !([c] <= s);
    } else {
      assert x in s[1..];
      ReplaceKeeps(s[1..], c, x);
    }
  }

  /** `strip` removes only whitespace. */
  lemma StripKeeps(s: string, x: char)
    requires x in s && !IsSpace(x)
    ensures x in Strip(s)
  {
    var r := RStrip(s);
    var i :| 0 <= i < |s| && s[i] == x;
    assert i < |r| && r[i] == x;
    var l := LStrip(r);
    assert |r| - |l| <= i;
    assert l[i - (|r| - |l|)] == x;
  }

  // ---------------------------------------------------------------- validation

  /**
   * `validate_result`: a title and a source, a confidence in [0, 100] and a
   * url starting with "http".
   */
  function ValidateResult(r: ScraperResult): (ok: bool)
    ensures ok <==> Truthy(r.title) && r.source != []
                    && 0.0 <= r.confidence <= 100.0 && "http" <= r.url
  {
    if !Truthy(r.title) || r.source == [] then false
    else if r.confidence < 0.0 || r.confidence > 100.0 then false
    else if r.url == [] || !("http" <= r.url) then false
    else true
  }

  /** Each of the three checks alone makes a result invalid. */
  lemma ValidateRejects(r: ScraperResult)
    ensures r.title == Str("") ==> !ValidateResult(r)
    ensures r.confidence > 100.0 ==> !ValidateResult(r)
    ensures !("http" <= r.url) ==> !ValidateResult(r)
  {
  }
}
