/**
 * What the two HTML scrapers (BDGest and BDfugue) do alike once the page
 * has been taken apart: the search text they send, the window of two years
 * around a wanted year, the listing they keep, the series and volume read
 * from a heading, and the detail table read row by row into a dictionary.
 */
module Listing {
  import opened Wrappers
  import opened Text
  import opened Values
  import opened BaseScraper
  import opened Patterns

  /** The text searched for: `f"{series} {query}"` when a non-empty series is given, the query otherwise. */
  function SearchQuery(query: string, series: Option<string>): (q: string)
    ensures |q| >= |query| && q[|q| - |query|..] == query
    ensures series.None? || series.value == [] ==> q == query
    ensures series.Some? && series.value != [] ==>
              |q| == |series.value| + 1 + |query| && q[..|series.value|] == series.value && q[|series.value|] == ' '
  {
    if series.Some? && series.value != [] then series.value + " " + query else query
  }

  function Abs(x: int): nat {
    if x < 0 then -x else x
  }

  /**
   * `not (filter_year and year and abs(year - filter_year) > 2)`: a result
   * is kept unless both years are given and non-zero and lie more than two
   * years apart.
   */
  predicate YearKept(filterYear: Option<int>, year: Option<int>) {
    !(filterYear.Some? && filterYear.value != 0 && year.Some? && year.value != 0
      && Abs(year.value - filterYear.value) > 2)
  }

  /** The year window stated as a range: either year missing or zero, or within two years of each other. */
  lemma YearWindow(filterYear: Option<int>, year: Option<int>)
    ensures YearKept(filterYear, year)
            <==> filterYear.None? || filterYear.value == 0 || year.None? || year.value == 0
                 || filterYear.value - 2 <= year.value <= filterYear.value + 2
  {
  }

  /** The heading's series as a result field: the text, or `None`. */
  function SeriesCell(h: Heading): (c: Cell)
    ensures c.Null? <==> h.series.None?
    ensures h.series.Some? ==> c == Str(h.series.value)
  {
    match h.series
    case None => Null
    case Some(s) => Str(s)
  }

  /** The heading's volume as a result field: the number, or `None`. */
  function VolumeCell(h: Heading): (c: Cell)
    ensures c.Null? <==> h.volume.None?
    ensures h.volume.Some? ==> c == Integer(h.volume.value)
  {
    match h.volume
    case None => Null
    case Some(v) => Integer(v)
  }

  /** `series and volume`: a non-empty series and a non-zero volume were read. */
  predicate SeriesAndVolume(h: Heading) {
    Truthy(SeriesCell(h)) && Truthy(VolumeCell(h))
  }

  /** An optional value as a result field. */
  function OptCell(y: Option<int>): (c: Cell)
    ensures y.None? ==> c == Null
    ensures y.Some? ==> c == Integer(y.value)
  {
    match y
    case None => Null
    case Some(v) => Integer(v)
  }

  function OptStr(s: Option<string>): (c: Cell)
    ensures s.None? ==> c == Null
    ensures s.Some? ==> c == Str(s.value)
  {
    match s
    case None => Null
    case Some(v) => Str(v)
  }

  // ---------------------------------------------------------------- the listing

  /**
   * The loop of `search`: each item is parsed in turn and the result kept
   * when there is one and its confidence is positive (an item whose parsing
   * raises counts as no result).
   */
  function Listed<I>(items: seq<I>, parse: I -> Option<ScraperResult>): (r: seq<ScraperResult>)
    ensures |r| <= |items|
    ensures forall k :: 0 <= k < |r| ==> r[k].confidence > 0.0
  {
    if items == [] then []
    else Listed(items[..|items| - 1], parse) + KeptOne(parse(items[|items| - 1]))
  }

  /** Every listed result is what parsing some item gave. */
  lemma {:induction false} ListedFrom<I>(items: seq<I>, parse: I -> Option<ScraperResult>)
    ensures forall x :: x in Listed(items, parse) ==> exists i :: 0 <= i < |items| && parse(items[i]) == Some(x)
    decreases |items|
  {
    if items != [] {
      var init := items[..|items| - 1];
      ListedFrom(init, parse);
      forall x | x in Listed(items, parse)
        ensures exists i :: 0 <= i < |items| && parse(items[i]) == Some(x)
      {
        if x in Listed(init, parse) {
          var i :| 0 <= i < |init| && parse(init[i]) == Some(x);
          assert items[i] == init[i];
        } else {
          assert parse(items[|items| - 1]) == Some(x);
        }
      }
    }
  }

  /** `[result] if result and result.confidence > 0 else []`. */
  function KeptOne(o: Option<ScraperResult>): (r: seq<ScraperResult>)
    ensures |r| <= 1
    ensures r != [] <==> o.Some? && o.value.confidence > 0.0
    ensures r != [] ==> r[0] == o.value
  {
    if o.Some? && o.value.confidence > 0.0 then [o.value] else []
  }

  /** One item further along the listing. */
  lemma ListedNext<I>(items: seq<I>, parse: I -> Option<ScraperResult>, j: nat)
    requires j < |items|
    ensures Listed(items[..j + 1], parse) == Listed(items[..j], parse) + KeptOne(parse(items[j]))
  {
    assert items[..j + 1][..j] == items[..j];
  }

  /** When every parsed item has a positive confidence, every parsed item is listed. */
  lemma {:induction false} ListedKeepsAll<I>(items: seq<I>, parse: I -> Option<ScraperResult>)
    requires forall i :: 0 <= i < |items| && parse(items[i]).Some? ==> parse(items[i]).value.confidence > 0.0
    ensures forall i :: 0 <= i < |items| && parse(items[i]).Some? ==> parse(items[i]).value in Listed(items, parse)
    decreases |items|
  {
    if items != [] {
      var init := items[..|items| - 1];
      ListedKeepsAll(init, parse);
      forall i | 0 <= i < |items| && parse(items[i]).Some?
        ensures parse(items[i]).value in Listed(items, parse)
      {
        if i < |init| {
          assert items[i] == init[i];
        }
      }
    }
  }

  /** Does one of `words` occur in `l`? */
  predicate AnyIn(l: string, words: seq<string>) {
    words != [] && (Contains(l, words[0]) || AnyIn(l, words[1..]))
  }

  lemma AnyInPair(l: string, a: string, b: string)
    ensures AnyIn(l, [a]) == Contains(l, a)
    ensures AnyIn(l, [a, b]) == (Contains(l, a) || Contains(l, b))
  {
    assert [a, b][1..] == [b];
    assert [b][1..] == [];
  }

  /**
   * The key of the first test whose words occur in `l`: a chain of `if` /
   * `elif` tests on a label, read as a table.
   */
  function FirstPassing(l: string, tests: seq<(string, seq<string>)>): (k: Option<string>)
    ensures k.None? <==> forall i :: 0 <= i < |tests| ==> !AnyIn(l, tests[i].1)
    ensures k.Some? ==> exists i :: 0 <= i < |tests| && tests[i].0 == k.value && AnyIn(l, tests[i].1)
                                    && forall j :: 0 <= j < i ==> !AnyIn(l, tests[j].1)
  {
    if tests == [] then None
    else if AnyIn(l, tests[0].1) then Some(tests[0].0)
    else
      var k := FirstPassing(l, tests[1..]);
      assert forall i :: 1 <= i < |tests| ==> tests[i] == tests[1..][i - 1];
      k
  }

  /** The table read one test at a time from position `i`. */
  lemma FirstPassingAt(l: string, tests: seq<(string, seq<string>)>, i: nat)
    requires i < |tests|
    ensures FirstPassing(l, tests[i..]) ==
            if AnyIn(l, tests[i].1) then Some(tests[i].0) else FirstPassing(l, tests[i + 1..])
  {
    assert tests[i..][1..] == tests[i + 1..];
  }

  // ---------------------------------------------------------------- the detail table

  /** A row of a detail table: its label and its value, as text. */
  type Row = (string, string)

  /**
   * A detail page: the stripped text of its heading, the label/value rows
   * of its table, its summary, and the `src` of its cover image (`None` for
   * a missing tag).
   */
  datatype DetailPage = DetailPage(
    titleText: Option<string>,
    rows: seq<Row>,
    summary: Option<string>,
    coverSrc: Option<string>)

  /** A dictionary after one `metadata[key] = value`, or unchanged when nothing is written. */
  function Apply(m: map<string, Cell>, w: Option<(string, Cell)>): (m': map<string, Cell>)
    ensures w.None? ==> m' == m
    ensures w.Some? ==> m' == m[w.value.0 := w.value.1]
  {
    match w
    case None => m
    case Some((k, v)) => m[k := v]
  }

  /** The dictionary filled from the rows in order, `writes` saying what each row stores. */
  function Fill(rows: seq<Row>, writes: Row -> Option<(string, Cell)>): map<string, Cell> {
    if rows == [] then map[]
    else Apply(Fill(rows[..|rows| - 1], writes), writes(rows[|rows| - 1]))
  }

  /** One row further along the table. */
  lemma FillNext(rows: seq<Row>, writes: Row -> Option<(string, Cell)>, j: nat)
    requires j < |rows|
    ensures Fill(rows[..j + 1], writes) == Apply(Fill(rows[..j], writes), writes(rows[j]))
  {
    assert rows[..j + 1][..j] == rows[..j];
  }

  predicate WritesKey(writes: Row -> Option<(string, Cell)>, row: Row, k: string) {
    writes(row).Some? && writes(row).value.0 == k
  }

  /**
   * After the table is read, a key is present exactly when some row writes
   * it, and holds what the last such row wrote: later rows overwrite
   * earlier ones.
   */
  lemma {:induction false} FillLastWins(rows: seq<Row>, writes: Row -> Option<(string, Cell)>, k: string)
    ensures k in Fill(rows, writes) <==> exists i :: 0 <= i < |rows| && WritesKey(writes, rows[i], k)
    ensures k in Fill(rows, writes) ==>
              exists i :: 0 <= i < |rows| && WritesKey(writes, rows[i], k)
                          && Fill(rows, writes)[k] == writes(rows[i]).value.1
                          && forall j :: i < j < |rows| ==> !WritesKey(writes, rows[j], k)
    decreases |rows|
  {
    if rows != [] {
      var n := |rows| - 1;
      var init := rows[..n];
      FillLastWins(init, writes, k);
      if WritesKey(writes, rows[n], k) {
        assert Fill(rows, writes)[k] == writes(rows[n]).value.1;
      } else {
        assert k in Fill(rows, writes) <==> k in Fill(init, writes);
        if k in Fill(rows, writes) {
          assert Fill(rows, writes)[k] == Fill(init, writes)[k];
          var i :| 0 <= i < |init| && WritesKey(writes, init[i], k)
                   && Fill(init, writes)[k] == writes(init[i]).value.1
                   && forall j :: i < j < |init| ==> !WritesKey(writes, init[j], k);
          assert rows[i] == init[i];
          assert forall j :: i < j < |rows| ==> !WritesKey(writes, rows[j], k) by {
            forall j | i < j < |rows|
              ensures !WritesKey(writes, rows[j], k)
            {
              if j < n {
                assert rows[j] == init[j];
              }
            }
          }
        } else {
          forall i | 0 <= i < |rows|
            ensures !WritesKey(writes, rows[i], k)
          {
            if i < n {
              assert rows[i] == init[i];
            }
          }
        }
      }
    }
  }
}
