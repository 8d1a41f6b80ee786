/**
 * The catalogue of the library (`CatalogManager`): the groupings by series,
 * publisher and year, the search, the statistics and the row selection of
 * the CSV and JSON exports.
 *
 * Every query reads the join of `processed_files` with `bdgest_albums` on
 * `bdgest_id = id`, restricted to the files whose status is `success` or
 * `manual`. That relation is `Catalog(files, albums)`: the file rows in
 * table order, each followed by the albums it references in table order.
 * `json.loads` is a parameter `parse` (`None` when the text does not parse).
 */
module CatalogManager {
  import opened Wrappers
  import opened Text
  import opened Values
  import opened Seqs
  import opened Database

  /** A row of `bdgest_albums`; `title` is `NOT NULL`, the other columns may be NULL. */
  datatype Album = Album(
    id: int,
    title: string,
    series: Option<string>,
    volume: Option<int>,
    editor: Option<string>,
    year: Option<int>,
    isbn: Option<string>,
    pages: Option<int>,
    url: Option<string>,
    metadata: Option<string>)

  /** `pf.status IN ('success', 'manual')`. */
  predicate Done(f: FileRow) {
    f.status.Str? && f.status.s in DoneStatuses
  }

  /** `pf.bdgest_id = b.id`. */
  predicate Joins(f: FileRow, a: Album) {
    f.bdgestId == Integer(a.id)
  }

  type Row = (FileRow, Album)

  /** The joined rows of one file. */
  function JoinedTo(f: FileRow, albums: seq<Album>): (rs: seq<Row>)
    ensures forall r :: r in rs <==> r.0 == f && r.1 in albums && Joins(f, r.1)
    decreases |albums|
  {
    if albums == [] then []
    else
      var n := |albums| - 1;
      assert forall a :: a in albums <==> a in albums[..n] || a == albums[n] by {
        assert albums == albums[..n] + [albums[n]];
      }
      JoinedTo(f, albums[..n]) + if Joins(f, albums[n]) then [(f, albums[n])] else []
  }

  /** The join the queries read: done files paired with the albums they reference. */
  function Catalog(files: seq<FileRow>, albums: seq<Album>): (rs: seq<Row>)
    ensures forall r :: r in rs <==> r.0 in files && Done(r.0) && r.1 in albums && Joins(r.0, r.1)
    decreases |files|
  {
    if files == [] then []
    else
      var n := |files| - 1;
      assert forall f :: f in files <==> f in files[..n] || f == files[n] by {
        assert files == files[..n] + [files[n]];
      }
      Catalog(files[..n], albums) + if Done(files[n]) then JoinedTo(files[n], albums) else []
  }

  // ---------------------------------------------------------------- list_by_series, list_by_publisher

  /** The column a listing groups by. */
  datatype Column = SeriesColumn | EditorColumn

  function ValueOf(c: Column, a: Album): Option<string> {
    match c
    case SeriesColumn => a.series
    case EditorColumn => a.editor
  }

  /** `name` is a non-empty value of the column in some row. */
  ghost predicate Appears(rows: seq<Row>, c: Column, name: string) {
    name != "" && exists i :: 0 <= i < |rows| && ValueOf(c, rows[i].1) == Some(name)
  }

  lemma AppearsLast(rows: seq<Row>, c: Column)
    requires rows != []
    ensures forall x :: Appears(rows, c, x) <==>
              Appears(rows[..|rows| - 1], c, x) || (x != "" && ValueOf(c, rows[|rows| - 1].1) == Some(x))
  {
    var n := |rows| - 1;
    forall x
      ensures Appears(rows, c, x) <==> Appears(rows[..n], c, x) || (x != "" && ValueOf(c, rows[n].1) == Some(x))
    {
      if Appears(rows, c, x) && ValueOf(c, rows[n].1) != Some(x) {
        var i :| 0 <= i < |rows| && ValueOf(c, rows[i].1) == Some(x);
        assert rows[..n][i] == rows[i];
      }
      if Appears(rows[..n], c, x) {
        var i :| 0 <= i < n && ValueOf(c, rows[..n][i].1) == Some(x);
        assert rows[i] == rows[..n][i];
      }
    }
  }

  /** The distinct non-empty values of the column, ascending. */
  function Names(rows: seq<Row>, c: Column): (h: seq<string>)
    ensures Ascending(h)
    ensures forall x :: x in h <==> Appears(rows, c, x)
    decreases |rows|
  {
    if rows == [] then []
    else
      var n := |rows| - 1;
      var before := Names(rows[..n], c);
      var v := ValueOf(c, rows[n].1);
      AppearsLast(rows, c);
      InsertSortedAscending(v.GetOr(""), before);
      if v.Some? && v.value != "" then InsertSorted(v.value, before) else before
  }

  /** `COUNT(*)` of a group: the rows whose column holds `name`. */
  function Count(rows: seq<Row>, c: Column, name: string): nat {
    |Filter((r: Row) => ValueOf(c, r.1) == Some(name), rows)|
  }

  lemma CountPositive(rows: seq<Row>, c: Column, name: string)
    requires Appears(rows, c, name)
    ensures Count(rows, c, name) >= 1
  {
    var i :| 0 <= i < |rows| && ValueOf(c, rows[i].1) == Some(name);
    FilterMembers((r: Row) => ValueOf(c, r.1) == Some(name), rows);
    assert rows[i] in rows;
  }

  /** A result row: a name and its count. */
  type Group = (string, int)

  /** `ORDER BY count DESC, name ASC`. */
  predicate GroupBefore(a: Group, b: Group) {
    a.1 > b.1 || (a.1 == b.1 && !StrLess(b.0, a.0))
  }

  lemma GroupOrderTotal()
    ensures TotalPreorder(GroupBefore)
  {
    forall a: Group, b: Group
      ensures GroupBefore(a, b) || GroupBefore(b, a)
    {
      if StrLess(a.0, b.0) && StrLess(b.0, a.0) {
        StrLessTransitive(a.0, b.0, a.0);
        StrLessIrreflexive(a.0);
      }
    }
    forall a: Group, b: Group, d: Group | GroupBefore(a, b) && GroupBefore(b, d)
      ensures GroupBefore(a, d)
    {
      if a.1 == b.1 == d.1 && StrLess(d.0, a.0) {
        StrLessTotal(a.0, b.0);
        if a.0 != b.0 {
          StrLessTransitive(d.0, a.0, b.0);
        }
      }
    }
  }

  /** `g` is the group of one of the names, with its count. */
  ghost predicate IsGroupOf(rows: seq<Row>, c: Column, g: Group) {
    Appears(rows, c, g.0) && g.1 == Count(rows, c, g.0)
  }

  /** The result of `GROUP BY`, before ordering. */
  function Groups(rows: seq<Row>, c: Column): (gs: seq<Group>)
    ensures |gs| == |Names(rows, c)|
  {
    Map((n: string) => (n, Count(rows, c, n)), Names(rows, c))
  }

  lemma GroupsFacts(rows: seq<Row>, c: Column)
    ensures Distinct(Groups(rows, c))
    ensures forall g :: g in Groups(rows, c) <==> IsGroupOf(rows, c, g)
  {
    var names, gs := Names(rows, c), Groups(rows, c);
    AscendingDistinct(names);
    forall g
      ensures g in gs <==> IsGroupOf(rows, c, g)
    {
      if g in gs {
        var i :| 0 <= i < |gs| && gs[i] == g;
        assert names[i] in names;
      }
      if IsGroupOf(rows, c, g) {
        var i :| 0 <= i < |names| && names[i] == g.0;
        assert gs[i] == g;
      }
    }
  }

  /** Every group in the listing order. */
  function Ranking(rows: seq<Row>, c: Column): (r: seq<Group>)
    ensures |r| == |Names(rows, c)|
  {
    SortBy(Groups(rows, c), GroupBefore)
  }

  /** The ranking holds each group once, by count descending and then by name ascending. */
  lemma RankingFacts(rows: seq<Row>, c: Column)
    ensures forall g :: g in Ranking(rows, c) <==> IsGroupOf(rows, c, g)
    ensures forall i, j :: 0 <= i < j < |Ranking(rows, c)| ==>
              Ranking(rows, c)[i].1 > Ranking(rows, c)[j].1
              || (Ranking(rows, c)[i].1 == Ranking(rows, c)[j].1 && StrLess(Ranking(rows, c)[i].0, Ranking(rows, c)[j].0))
  {
    var gs, r := Groups(rows, c), Ranking(rows, c);
    GroupsFacts(rows, c);
    GroupOrderTotal();
    SortBySorted(gs, GroupBefore);
    DistinctPermutation(gs, r);
    forall g
      ensures g in r <==> IsGroupOf(rows, c, g)
    {
      assert g in r <==> g in multiset(r);
      assert g in gs <==> g in multiset(gs);
    }
    forall i, j | 0 <= i < j < |r|
      ensures r[i].1 > r[j].1 || (r[i].1 == r[j].1 && StrLess(r[i].0, r[j].0))
    {
      assert GroupBefore(r[i], r[j]);
      assert r[i] in r && r[j] in r;
      if r[i].1 == r[j].1 {
        StrLessTotal(r[i].0, r[j].0);
      }
    }
  }

  /** `list_by_series` / `list_by_publisher` over the join: the first `limit` groups of the ranking. */
  function ListBy(rows: seq<Row>, c: Column, limit: int): (r: seq<Group>)
    ensures r <= Ranking(rows, c)
    ensures limit >= 0 ==> |r| <= limit
    ensures var n := |Ranking(rows, c)|;
            |r| == if 0 <= limit < n then limit else n
  {
    SqlLimit(Ranking(rows, c), limit)
  }

  /**
   * The listing names only non-empty values present in the rows, each once
   * with its number of rows, by count descending and then name ascending.
   */
  lemma ListByRanked(rows: seq<Row>, c: Column, limit: int)
    ensures forall i :: 0 <= i < |ListBy(rows, c, limit)| ==>
              IsGroupOf(rows, c, ListBy(rows, c, limit)[i]) && ListBy(rows, c, limit)[i].1 >= 1
    ensures forall i, j :: 0 <= i < j < |ListBy(rows, c, limit)| ==>
              ListBy(rows, c, limit)[i].1 > ListBy(rows, c, limit)[j].1
              || (ListBy(rows, c, limit)[i].1 == ListBy(rows, c, limit)[j].1
                  && StrLess(ListBy(rows, c, limit)[i].0, ListBy(rows, c, limit)[j].0))
  {
    var r, all := ListBy(rows, c, limit), Ranking(rows, c);
    RankingFacts(rows, c);
    forall i | 0 <= i < |r|
      ensures IsGroupOf(rows, c, r[i]) && r[i].1 >= 1
    {
      assert r[i] == all[i] && all[i] in all;
      CountPositive(rows, c, r[i].0);
    }
    forall i, j | 0 <= i < j < |r|
      ensures r[i].1 > r[j].1 || (r[i].1 == r[j].1 && StrLess(r[i].0, r[j].0))
    {
      assert r[i] == all[i] && r[j] == all[j];
    }
  }

  /** A group left out by the limit ranks after every group listed. */
  lemma ListByTop(rows: seq<Row>, c: Column, limit: int, g: Group)
    requires IsGroupOf(rows, c, g) && g !in ListBy(rows, c, limit)
    ensures forall i :: 0 <= i < |ListBy(rows, c, limit)| ==>
              ListBy(rows, c, limit)[i].1 > g.1 || (ListBy(rows, c, limit)[i].1 == g.1 && StrLess(ListBy(rows, c, limit)[i].0, g.0))
  {
    var r, all := ListBy(rows, c, limit), Ranking(rows, c);
    RankingFacts(rows, c);
    var j :| 0 <= j < |all| && all[j] == g;
    assert forall k :: 0 <= k < |r| ==> r[k] == all[k];
    assert j >= |r|;
    forall i | 0 <= i < |r|
      ensures r[i].1 > g.1 || (r[i].1 == g.1 && StrLess(r[i].0, g.0))
    {
      assert r[i] == all[i];
    }
  }

  /** Without a binding limit every group is listed. */
  lemma ListByComplete(rows: seq<Row>, c: Column, limit: int)
    requires limit < 0 || |Names(rows, c)| <= limit
    ensures forall g :: IsGroupOf(rows, c, g) ==> g in ListBy(rows, c, limit)
  {
    RankingFacts(rows, c);
    assert ListBy(rows, c, limit) == Ranking(rows, c);
  }

  /** `list_by_series(limit)`. */
  function ListBySeries(files: seq<FileRow>, albums: seq<Album>, limit: int): seq<Group> {
    ListBy(Catalog(files, albums), SeriesColumn, limit)
  }

  /** `list_by_publisher(limit)`. */
  function ListByPublisher(files: seq<FileRow>, albums: seq<Album>, limit: int): seq<Group> {
    ListBy(Catalog(files, albums), EditorColumn, limit)
  }

  // ---------------------------------------------------------------- list_by_year

  predicate Descending(h: seq<int>) {
    forall i, j :: 0 <= i < j < |h| ==> h[i] > h[j]
  }

  /** `y` put in its place in a descending list, once. */
  function InsertDesc(y: int, h: seq<int>): (r: seq<int>)
    ensures forall x :: x in r <==> x == y || x in h
    decreases |h|
  {
    if h == [] then [y]
    else if y == h[0] then h
    else if y > h[0] then [y] + h
    else [h[0]] + InsertDesc(y, h[1..])
  }

  lemma {:induction false} InsertDescDescending(y: int, h: seq<int>)
    requires Descending(h)
    ensures Descending(InsertDesc(y, h))
    decreases |h|
  {
    if h != [] && y < h[0] {
      InsertDescDescending(y, h[1..]);
      var t := InsertDesc(y, h[1..]);
      forall j | 0 <= j < |t|
        ensures h[0] > t[j]
      {
        assert t[j] in t;
        if t[j] != y {
          var k :| 0 <= k < |h[1..]| && h[1..][k] == t[j];
          assert h[k + 1] == t[j];
        }
      }
    }
  }

  /** `y` is a positive year of some row. */
  ghost predicate Dated(rows: seq<Row>, y: int) {
    y > 0 && exists i :: 0 <= i < |rows| && rows[i].1.year == Some(y)
  }

  lemma DatedLast(rows: seq<Row>)
    requires rows != []
    ensures forall y :: Dated(rows, y) <==>
              Dated(rows[..|rows| - 1], y) || (y > 0 && rows[|rows| - 1].1.year == Some(y))
  {
    var n := |rows| - 1;
    forall y
      ensures Dated(rows, y) <==> Dated(rows[..n], y) || (y > 0 && rows[n].1.year == Some(y))
    {
      if Dated(rows, y) && rows[n].1.year != Some(y) {
        var i :| 0 <= i < |rows| && rows[i].1.year == Some(y);
        assert rows[..n][i] == rows[i];
      }
      if Dated(rows[..n], y) {
        var i :| 0 <= i < n && rows[..n][i].1.year == Some(y);
        assert rows[i] == rows[..n][i];
      }
    }
  }

  /** The distinct positive years, descending. */
  function Years(rows: seq<Row>): (h: seq<int>)
    ensures Descending(h)
    ensures forall y :: y in h <==> Dated(rows, y)
    decreases |rows|
  {
    if rows == [] then []
    else
      var n := |rows| - 1;
      var before := Years(rows[..n]);
      var y := rows[n].1.year;
      DatedLast(rows);
      InsertDescDescending(y.GetOr(0), before);
      if y.Some? && y.value > 0 then InsertDesc(y.value, before) else before
  }

  /** `COUNT(*)` of a year. */
  function YearCount(rows: seq<Row>, y: int): nat {
    |Filter((r: Row) => r.1.year == Some(y), rows)|
  }

  /** `list_by_year(limit)` over the join. */
  function ListByYear(rows: seq<Row>, limit: int): (r: seq<(int, int)>)
    ensures limit >= 0 ==> |r| <= limit
    ensures forall i, j :: 0 <= i < j < |r| ==> r[i].0 > r[j].0
    ensures forall i :: 0 <= i < |r| ==> Dated(rows, r[i].0) && r[i].1 == YearCount(rows, r[i].0)
    ensures r <= Map((y: int) => (y, YearCount(rows, y)), Years(rows))
    ensures var n := |Years(rows)|;
            |r| == if 0 <= limit < n then limit else n
  {
    var ys := Years(rows);
    var all := Map((y: int) => (y, YearCount(rows, y)), ys);
    assert forall i :: 0 <= i < |ys| ==> ys[i] in ys;
    SqlLimit(all, limit)
  }

  /** A year some row carries has at least one album. */
  lemma YearCountPositive(rows: seq<Row>, y: int)
    requires Dated(rows, y)
    ensures YearCount(rows, y) >= 1
  {
    var k :| 0 <= k < |rows| && rows[k].1.year == Some(y);
    FilterMembers((r: Row) => r.1.year == Some(y), rows);
    assert rows[k] in rows;
  }

  /** A year the limit leaves out is older than every year listed. */
  lemma ListByYearMostRecent(rows: seq<Row>, limit: int, y: int)
    requires Dated(rows, y)
    requires forall i :: 0 <= i < |ListByYear(rows, limit)| ==> ListByYear(rows, limit)[i].0 != y
    ensures forall i :: 0 <= i < |ListByYear(rows, limit)| ==> ListByYear(rows, limit)[i].0 > y
  {
    var ys := Years(rows);
    var r := ListByYear(rows, limit);
    var all := Map((y: int) => (y, YearCount(rows, y)), ys);
    var j :| 0 <= j < |ys| && ys[j] == y;
    assert forall i :: 0 <= i < |r| ==> r[i] == all[i] && r[i].0 == ys[i];
    assert forall i :: 0 <= i < |r| ==> ys[i] != y;
    assert j >= |r|;
  }

  /** Every listed year has at least one album, and without a binding limit every year is listed. */
  lemma ListByYearCounts(rows: seq<Row>, limit: int)
    ensures forall i :: 0 <= i < |ListByYear(rows, limit)| ==> ListByYear(rows, limit)[i].1 >= 1
    ensures limit < 0 || |Years(rows)| <= limit ==>
              forall y :: Dated(rows, y) ==> (y, YearCount(rows, y)) in ListByYear(rows, limit)
  {
    var r := ListByYear(rows, limit);
    forall i | 0 <= i < |r|
      ensures r[i].1 >= 1
    {
      YearCountPositive(rows, r[i].0);
    }
    if limit < 0 || |Years(rows)| <= limit {
      var ys := Years(rows);
      var all := Map((y: int) => (y, YearCount(rows, y)), ys);
      assert r == SqlLimit(all, limit);
      assert r == all;
      forall y | Dated(rows, y)
        ensures (y, YearCount(rows, y)) in r
      {
        var k :| 0 <= k < |ys| && ys[k] == y;
        assert all[k] == (y, YearCount(rows, y));
      }
    }
  }

  // ---------------------------------------------------------------- get_stats

  /** The dictionary `get_stats` returns. */
  datatype Stats = Stats(
    totalAlbums: nat,
    totalSeries: nat,
    totalPublishers: nat,
    yearRange: string,
    minYear: int,
    maxYear: int,
    topSeries: seq<Group>,
    topPublishers: seq<Group>)

  /** `MIN(b.year)` / `MAX(b.year)` over the positive years, 0 when there is none. */
  function MinYear(ys: seq<int>): int {
    if ys == [] then 0 else ys[|ys| - 1]
  }

  function MaxYear(ys: seq<int>): int {
    if ys == [] then 0 else ys[0]
  }

  /** The statistics of the join `rows`, `total` done files in all. */
  function StatsOf(total: nat, rows: seq<Row>): (s: Stats)
    ensures s.totalAlbums == total
    ensures s.minYear <= s.maxYear
    ensures s.minYear == 0 <==> s.maxYear == 0
    ensures s.yearRange == "N/A" <==> s.minYear == 0
    ensures s.minYear != 0 ==> s.yearRange == IntToStr(s.minYear) + "-" + IntToStr(s.maxYear)
    ensures |s.topSeries| <= 5 && s.topSeries <= Ranking(rows, SeriesColumn)
    ensures |s.topPublishers| <= 5 && s.topPublishers <= Ranking(rows, EditorColumn)
  {
    var ys := Years(rows);
    var lo, hi := MinYear(ys), MaxYear(ys);
    assert ys != [] ==> lo > 0 && hi > 0 by {
      if ys != [] {
        assert ys[0] in ys && ys[|ys| - 1] in ys;
      }
    }
    var range := if lo != 0 && hi != 0 then IntToStr(lo) + "-" + IntToStr(hi) else "N/A";
    assert lo != 0 ==> range != "N/A" by {
      if lo != 0 {
        assert range[|IntToStr(lo)|] == '-';
        assert '-' !in "N/A";
      }
    }
    Stats(total, |Names(rows, SeriesColumn)|, |Names(rows, EditorColumn)|, range, lo, hi,
          ListBy(rows, SeriesColumn, 5), ListBy(rows, EditorColumn, 5))
  }

  /** `get_stats`: the album total counts every done file, whether or not it references an album. */
  function GetStats(files: seq<FileRow>, albums: seq<Album>): (s: Stats)
    ensures s.totalAlbums == |Filter(Done, files)|
    ensures s.totalAlbums <= |files|
  {
    StatsOf(|Filter(Done, files)|, Catalog(files, albums))
  }

  /** The least and greatest positive years are the ends of the descending list, 0 when it is empty. */
  lemma YearsSpan(rows: seq<Row>)
    ensures MinYear(Years(rows)) == 0 <==> forall y :: !Dated(rows, y)
    ensures forall y :: Dated(rows, y) ==> MinYear(Years(rows)) <= y <= MaxYear(Years(rows))
    ensures MinYear(Years(rows)) != 0 ==> Dated(rows, MinYear(Years(rows))) && Dated(rows, MaxYear(Years(rows)))
  {
    var ys := Years(rows);
    if ys != [] {
      assert ys[0] in ys && ys[|ys| - 1] in ys;
      forall y | Dated(rows, y)
        ensures ys[|ys| - 1] <= y <= ys[0]
      {
        var k :| 0 <= k < |ys| && ys[k] == y;
      }
    } else {
      forall y
        ensures !Dated(rows, y)
      {
        assert y !in ys;
      }
    }
  }

  /** The year range spans exactly the positive years of the join. */
  lemma StatsYears(total: nat, rows: seq<Row>)
    ensures StatsOf(total, rows).minYear == 0 <==> forall y :: !Dated(rows, y)
    ensures forall y :: Dated(rows, y) ==> StatsOf(total, rows).minYear <= y <= StatsOf(total, rows).maxYear
    ensures StatsOf(total, rows).minYear != 0 ==>
              Dated(rows, StatsOf(total, rows).minYear) && Dated(rows, StatsOf(total, rows).maxYear)
  {
    assert StatsOf(total, rows).minYear == MinYear(Years(rows));
    assert StatsOf(total, rows).maxYear == MaxYear(Years(rows));
    YearsSpan(rows);
  }

  /** The distinct non-empty values of a column, as a set. */
  ghost function NameSet(rows: seq<Row>, c: Column): set<string> {
    set i | 0 <= i < |rows| && ValueOf(c, rows[i].1).Some? && ValueOf(c, rows[i].1).value != "" :: ValueOf(c, rows[i].1).value
  }

  /** `COUNT(DISTINCT ...)`: the series and publisher totals count each non-empty value once. */
  lemma StatsDistinct(total: nat, rows: seq<Row>)
    ensures StatsOf(total, rows).totalSeries == |NameSet(rows, SeriesColumn)|
    ensures StatsOf(total, rows).totalPublishers == |NameSet(rows, EditorColumn)|
  {
    NamesCount(rows, SeriesColumn);
    NamesCount(rows, EditorColumn);
  }

  lemma NamesCount(rows: seq<Row>, c: Column)
    ensures |Names(rows, c)| == |NameSet(rows, c)|
  {
    var names := Names(rows, c);
    AscendingDistinct(names);
    assert Distinct(names);
    forall x
      ensures x in NameSet(rows, c) <==> x in names
    {
      if x in NameSet(rows, c) {
        var i :| 0 <= i < |rows| && ValueOf(c, rows[i].1) == Some(x) && x != "";
        assert Appears(rows, c, x);
      }
      if x in names {
        assert Appears(rows, c, x);
        var i :| 0 <= i < |rows| && ValueOf(c, rows[i].1) == Some(x);
      }
    }
    DistinctCard(names);
    assert NameSet(rows, c) == set x | x in names;
  }

  lemma {:induction false} DistinctCard(h: seq<string>)
    requires Distinct(h)
    ensures |set x | x in h| == |h|
    decreases |h|
  {
    if h != [] {
      var t := h[1..];
      assert Distinct(t) by {
        forall i, j | 0 <= i < j < |t|
          ensures t[i] != t[j]
        {
          assert t[i] == h[i + 1] && t[j] == h[j + 1];
        }
      }
      DistinctCard(t);
      assert h[0] !in t by {
        forall j | 0 <= j < |t|
          ensures t[j] != h[0]
        {
          assert t[j] == h[j + 1];
        }
      }
      assert (set x | x in h) == {h[0]} + set x | x in t by {
        assert h == [h[0]] + t;
      }
    }
  }

  // ---------------------------------------------------------------- search

  /** SQLite folds only the ASCII letters for `LIKE`. */
  function Fold(c: char): (d: char)
    ensures 'A' <= c <= 'Z' ==> 'a' <= d <= 'z'
    ensures !('A' <= c <= 'Z') ==> d == c
  {
    if 'A' <= c <= 'Z' then (c as int + 32) as char else c
  }

  function FoldAll(s: string): (t: string)
    ensures |t| == |s|
    decreases |s|
  {
    if s == [] then [] else [Fold(s[0])] + FoldAll(s[1..])
  }

  /** `s LIKE p`: `%` any run of characters, `_` any one character, ASCII letters in either case. */
  predicate Like(s: string, p: string)
    decreases |s| + |p|
  {
    if p == [] then s == []
    else if p[0] == '%' then Like(s, p[1..]) || (s != [] && Like(s[1..], p))
    else s != [] && (p[0] == '_' || Fold(s[0]) == Fold(p[0])) && Like(s[1..], p[1..])
  }

  predicate NoWildcards(q: string) {
    '%' !in q && '_' !in q
  }

  lemma {:induction false} LikeAnything(s: string)
    ensures Like(s, "%")
    decreases |s|
  {
    if s != [] {
      LikeAnything(s[1..]);
    }
  }

  lemma {:induction false} LikeStartsWith(s: string, q: string)
    requires NoWildcards(q)
    ensures Like(s, q + "%") <==> FoldAll(q) <= FoldAll(s)
    decreases |q|
  {
    if q == [] {
      assert q + "%" == "%";
      LikeAnything(s);
    } else {
      var p := q + "%";
      assert p[0] == q[0] && p[1..] == q[1..] + "%";
      assert q[1..] == [] || q[1..][0] in q;
      assert NoWildcards(q[1..]) by {
        forall k | 0 <= k < |q[1..]|
          ensures q[1..][k] != '%' && q[1..][k] != '_'
        {
          assert q[1..][k] == q[k + 1];
        }
      }
      assert q[0] in q;
      if s != [] {
        LikeStartsWith(s[1..], q[1..]);
        assert Like(s, p) <==> Fold(s[0]) == Fold(q[0]) && Like(s[1..], q[1..] + "%");
        ConsPrefix(Fold(q[0]), FoldAll(q[1..]), Fold(s[0]), FoldAll(s[1..]));
      }
    }
  }

  lemma ConsPrefix(a: char, x: string, b: char, y: string)
    ensures [a] + x <= [b] + y <==> a == b && x <= y
  {
    if [a] + x <= [b] + y {
      assert ([a] + x)[0] == ([b] + y)[0];
      assert x == ([a] + x)[1..] && y == ([b] + y)[1..];
    }
  }

  /** For a query without wildcards, `LIKE '%q%'` is a case-insensitive substring test. */
  lemma {:induction false} LikeContains(s: string, q: string)
    requires NoWildcards(q)
    ensures Like(s, "%" + q + "%") <==> Contains(FoldAll(s), FoldAll(q))
    decreases |s|
  {
    var p := "%" + q + "%";
    assert p[0] == '%' && p[1..] == q + "%";
    LikeStartsWith(s, q);
    if s != [] {
      LikeContains(s[1..], q);
      assert FoldAll(s)[1..] == FoldAll(s[1..]);
    }
  }

  /** The album's title, series or metadata text matches the pattern. */
  predicate Mentions(a: Album, pattern: string) {
    Like(a.title, pattern)
    || (a.series.Some? && Like(a.series.value, pattern))
    || (a.metadata.Some? && Like(a.metadata.value, pattern))
  }

  /** The search's `WHERE`: the query pattern, then the publisher and year only when they are truthy. */
  predicate SearchKeeps(q: string, publisher: Option<string>, year: Option<int>, r: Row) {
    Mentions(r.1, "%" + q + "%")
    && (publisher.Some? && publisher.value != "" ==> r.1.editor == publisher)
    && (year.Some? && year.value != 0 ==> r.1.year == year)
  }

  /** `NULL` sorts first, then code-point order. */
  predicate TextBefore(x: Option<string>, y: Option<string>) {
    (x.None? && y.Some?) || (x.Some? && y.Some? && StrLess(x.value, y.value))
  }

  predicate NumberAtMost(x: Option<int>, y: Option<int>) {
    x.None? || (y.Some? && x.value <= y.value)
  }

  /** `ORDER BY b.series, b.volume`. */
  predicate ShelfBefore(a: Row, b: Row) {
    TextBefore(a.1.series, b.1.series) || (a.1.series == b.1.series && NumberAtMost(a.1.volume, b.1.volume))
  }

  lemma ShelfOrderTotal()
    ensures TotalPreorder(ShelfBefore)
  {
    forall a: Row, b: Row
      ensures ShelfBefore(a, b) || ShelfBefore(b, a)
    {
      if a.1.series.Some? && b.1.series.Some? {
        StrLessTotal(a.1.series.value, b.1.series.value);
      }
    }
    forall a: Row, b: Row, d: Row | ShelfBefore(a, b) && ShelfBefore(b, d)
      ensures ShelfBefore(a, d)
    {
      if a.1.series.Some? && b.1.series.Some? && d.1.series.Some?
         && StrLess(a.1.series.value, b.1.series.value) && StrLess(b.1.series.value, d.1.series.value) {
        StrLessTransitive(a.1.series.value, b.1.series.value, d.1.series.value);
      }
    }
  }

  /** The rows `search` selects, in its order, at most `limit` of them. */
  function Found(rows: seq<Row>, q: string, publisher: Option<string>, year: Option<int>, limit: int): (sel: seq<Row>)
    ensures limit >= 0 ==> |sel| <= limit
    ensures forall i :: 0 <= i < |sel| ==> sel[i] in rows && SearchKeeps(q, publisher, year, sel[i])
    ensures sel <= SortBy(Filter((r: Row) => SearchKeeps(q, publisher, year, r), rows), ShelfBefore)
    ensures var n := |Filter((r: Row) => SearchKeeps(q, publisher, year, r), rows)|;
            |sel| == if 0 <= limit < n then limit else n
  {
    var sel := SqlLimit(SortBy(Filter((r: Row) => SearchKeeps(q, publisher, year, r), rows), ShelfBefore), limit);
    FoundRowsKept(rows, q, publisher, year, sel);
    sel
  }

  /** A prefix of the sorted matches holds only rows of the join that the search keeps. */
  lemma FoundRowsKept(rows: seq<Row>, q: string, publisher: Option<string>, year: Option<int>, sel: seq<Row>)
    requires sel <= SortBy(Filter((r: Row) => SearchKeeps(q, publisher, year, r), rows), ShelfBefore)
    ensures forall i :: 0 <= i < |sel| ==> sel[i] in rows && SearchKeeps(q, publisher, year, sel[i])
  {
    var kept := Filter((r: Row) => SearchKeeps(q, publisher, year, r), rows);
    var sorted := SortBy(kept, ShelfBefore);
    forall i | 0 <= i < |sel|
      ensures sel[i] in rows && SearchKeeps(q, publisher, year, sel[i])
    {
      assert sel[i] == sorted[i] && sorted[i] in multiset(sorted);
      assert sel[i] in multiset(kept);
      var k :| 0 <= k < |kept| && kept[k] == sel[i];
      assert kept[k] in multiset(rows);
    }
  }

  /** The search keeps the order of the shelf, and without a binding limit it finds every matching row. */
  lemma FoundOrderedComplete(rows: seq<Row>, q: string, publisher: Option<string>, year: Option<int>, limit: int)
    ensures SortedBy(Found(rows, q, publisher, year, limit), ShelfBefore)
    ensures limit < 0 || |rows| <= limit ==>
              forall r :: r in rows && SearchKeeps(q, publisher, year, r) ==> r in Found(rows, q, publisher, year, limit)
  {
    var kept := Filter((r: Row) => SearchKeeps(q, publisher, year, r), rows);
    FilterMembers((r: Row) => SearchKeeps(q, publisher, year, r), rows);
    var sorted := SortBy(kept, ShelfBefore);
    ShelfOrderTotal();
    SortBySorted(kept, ShelfBefore);
    var sel := Found(rows, q, publisher, year, limit);
    assert forall i :: 0 <= i < |sel| ==> sel[i] == sorted[i];
    if limit < 0 || |rows| <= limit {
      assert sel == sorted;
      forall r | r in rows && SearchKeeps(q, publisher, year, r)
        ensures r in sel
      {
        assert r in kept;
        assert r in multiset(kept);
      }
    }
  }

  /** A matching row the limit leaves out comes after every row found, by series and then volume. */
  lemma FoundFirstOnShelf(rows: seq<Row>, q: string, publisher: Option<string>, year: Option<int>, limit: int, x: Row)
    requires x in rows && SearchKeeps(q, publisher, year, x)
    requires x !in Found(rows, q, publisher, year, limit)
    ensures forall i :: 0 <= i < |Found(rows, q, publisher, year, limit)| ==>
              ShelfBefore(Found(rows, q, publisher, year, limit)[i], x)
  {
    var kept := Filter((r: Row) => SearchKeeps(q, publisher, year, r), rows);
    var sorted := SortBy(kept, ShelfBefore);
    var sel := Found(rows, q, publisher, year, limit);
    FilterMembers((r: Row) => SearchKeeps(q, publisher, year, r), rows);
    ShelfOrderTotal();
    SortBySorted(kept, ShelfBefore);
    assert x in multiset(kept);
    assert x in multiset(sorted);
    var j :| 0 <= j < |sorted| && sorted[j] == x;
    assert forall i :: 0 <= i < |sel| ==> sel[i] == sorted[i];
    assert j >= |sel|;
  }

  /** A query without wildcards finds the rows whose title, series or metadata contains it, ignoring ASCII case. */
  lemma FoundContains(rows: seq<Row>, q: string, publisher: Option<string>, year: Option<int>, limit: int, i: nat)
    requires NoWildcards(q) && i < |Found(rows, q, publisher, year, limit)|
    ensures var a := Found(rows, q, publisher, year, limit)[i].1;
            Contains(FoldAll(a.title), FoldAll(q))
            || (a.series.Some? && Contains(FoldAll(a.series.value), FoldAll(q)))
            || (a.metadata.Some? && Contains(FoldAll(a.metadata.value), FoldAll(q)))
  {
    var a := Found(rows, q, publisher, year, limit)[i].1;
    LikeContains(a.title, q);
    if a.series.Some? {
      LikeContains(a.series.value, q);
    }
    if a.metadata.Some? {
      LikeContains(a.metadata.value, q);
    }
  }

  /**
   * The dictionary read from the metadata text: `{}` when it is NULL, empty
   * or does not parse; a value that parses to something other than a JSON
   * object has no `.get`, and that `AttributeError` escapes the call.
   */
  function Metadata(a: Album, parse: string -> Option<Cell>): (m: Outcome<map<string, Cell>>)
    ensures m.Raised? <==> a.metadata.Some? && a.metadata.value != ""
                           && parse(a.metadata.value).Some? && !parse(a.metadata.value).value.Dict?
    ensures m.Raised? ==> m.error == "AttributeError"
    ensures m.Returned? && a.metadata.Some? && a.metadata.value != "" && parse(a.metadata.value).Some? ==>
              m.value == parse(a.metadata.value).value.entries
  {
    if a.metadata.None? || a.metadata.value == "" then Returned(map[])
    else match parse(a.metadata.value)
      case None => Returned(map[])
      case Some(Dict(d)) => Returned(d)
      case Some(_) => Raised("AttributeError")
  }

  /** One dictionary per row, in row order, or the first row's `AttributeError`. */
  function Each<T>(rows: seq<Row>, parse: string -> Option<Cell>, render: (Row, map<string, Cell>) -> T): (out: Outcome<seq<T>>)
    ensures out.Returned? <==> forall i :: 0 <= i < |rows| ==> Metadata(rows[i].1, parse).Returned?
    ensures out.Raised? ==> out.error == "AttributeError"
    ensures out.Returned? ==> |out.value| == |rows|
    ensures out.Returned? ==> forall i :: 0 <= i < |rows| ==> out.value[i] == render(rows[i], Metadata(rows[i].1, parse).value)
    decreases |rows|
  {
    if rows == [] then Returned([])
    else
      var n := |rows| - 1;
      assert forall i :: 0 <= i < n ==> rows[..n][i] == rows[i];
      match Each(rows[..n], parse, render)
      case Raised(e) => Raised(e)
      case Returned(before) =>
        match Metadata(rows[n].1, parse)
        case Raised(e) => Raised(e)
        case Returned(m) => Returned(before + [render(rows[n], m)])
  }

  /** A dictionary of the search's result. */
  datatype Hit = Hit(
    filePath: string,
    series: Option<string>,
    number: Option<int>,
    title: string,
    publisher: Option<string>,
    year: Option<int>,
    isbn: Option<string>,
    url: Option<string>,
    writer: Cell,
    penciller: Cell)

  /** A missing writer or penciller is shown as `N/A`. */
  function HitOf(r: Row, m: map<string, Cell>): (h: Hit)
    ensures h.filePath == r.0.path && h.title == r.1.title && h.series == r.1.series && h.publisher == r.1.editor
    ensures h.year == r.1.year && h.number == r.1.volume
    ensures "Writer" !in m ==> h.writer == Str("N/A")
    ensures "Penciller" !in m ==> h.penciller == Str("N/A")
  {
    Hit(r.0.path, r.1.series, r.1.volume, r.1.title, r.1.editor, r.1.year, r.1.isbn, r.1.url,
        DictGet(m, "Writer", Str("N/A")), DictGet(m, "Penciller", Str("N/A")))
  }

  /** `search(query, publisher, year, limit)` over the join. */
  function Search(rows: seq<Row>, q: string, publisher: Option<string>, year: Option<int>, limit: int,
                  parse: string -> Option<Cell>): (out: Outcome<seq<Hit>>)
    ensures out.Returned? <==> forall i :: 0 <= i < |Found(rows, q, publisher, year, limit)| ==>
                                 Metadata(Found(rows, q, publisher, year, limit)[i].1, parse).Returned?
    ensures out.Returned? ==> |out.value| == |Found(rows, q, publisher, year, limit)|
    ensures out.Returned? ==> forall i :: 0 <= i < |out.value| ==>
              out.value[i] == HitOf(Found(rows, q, publisher, year, limit)[i],
                                    Metadata(Found(rows, q, publisher, year, limit)[i].1, parse).value)
  {
    Each(Found(rows, q, publisher, year, limit), parse, HitOf)
  }

  // ---------------------------------------------------------------- export_csv, export_json

  /** The `publisher`, `year` and `series` entries of the filters dictionary, `None` when absent. */
  datatype Filters = Filters(publisher: Option<string>, year: Option<int>, series: Option<string>)

  /** The exports' `WHERE`: each filter applies only when it is truthy, and they combine with AND. */
  predicate ExportKeeps(f: Filters, r: Row) {
    (f.publisher.Some? && f.publisher.value != "" ==> r.1.editor == f.publisher)
    && (f.year.Some? && f.year.value != 0 ==> r.1.year == f.year)
    && (f.series.Some? && f.series.value != "" ==> r.1.series == f.series)
  }

  /** The rows an export writes, in `ORDER BY b.series, b.volume`. */
  function Exported(rows: seq<Row>, f: Filters): (sel: seq<Row>)
    ensures |sel| == |Filter((r: Row) => ExportKeeps(f, r), rows)|
  {
    SortBy(Filter((r: Row) => ExportKeeps(f, r), rows), ShelfBefore)
  }

  /** Exactly the rows every truthy filter accepts, ordered by series and then volume. */
  lemma ExportedRows(rows: seq<Row>, f: Filters)
    ensures forall r :: r in Exported(rows, f) <==> r in rows && ExportKeeps(f, r)
    ensures SortedBy(Exported(rows, f), ShelfBefore)
  {
    var kept := Filter((r: Row) => ExportKeeps(f, r), rows);
    FilterMembers((r: Row) => ExportKeeps(f, r), rows);
    ShelfOrderTotal();
    SortBySorted(kept, ShelfBefore);
    forall r
      ensures r in Exported(rows, f) <==> r in rows && ExportKeeps(f, r)
    {
      assert r in Exported(rows, f) <==> r in multiset(kept);
      if r in kept {
        var i :| 0 <= i < |kept| && kept[i] == r;
      }
    }
  }

  /** Without a truthy filter every row of the join is exported. */
  lemma ExportAllUnfiltered(rows: seq<Row>, f: Filters)
    requires f.publisher.None? || f.publisher.value == ""
    requires f.year.None? || f.year.value == 0
    requires f.series.None? || f.series.value == ""
    ensures multiset(Exported(rows, f)) == multiset(rows)
  {
    FilterAll((r: Row) => ExportKeeps(f, r), rows);
  }

  /** A metadata entry, or `''`. */
  function EntryOr(m: map<string, Cell>, k: string): (v: Cell)
    ensures k in m ==> v == m[k]
    ensures k !in m ==> v == Str("")
  {
    DictGet(m, k, Str(""))
  }

  /** A CSV row, its columns in the order of the header. */
  datatype CsvRow = CsvRow(
    filePath: string,
    series: Option<string>,
    number: Option<int>,
    title: string,
    writer: Cell,
    penciller: Cell,
    publisher: Option<string>,
    year: Option<int>,
    isbn: Option<string>,
    format: Cell,
    pages: Option<int>,
    url: Option<string>)

  /** The album's columns, and the writer, penciller and format entries of its metadata or `''`. */
  function CsvRecord(r: Row, m: map<string, Cell>): (rec: CsvRow)
    ensures rec.filePath == r.0.path && rec.title == r.1.title && rec.series == r.1.series && rec.number == r.1.volume
    ensures "Writer" !in m ==> rec.writer == Str("")
    ensures "Penciller" !in m ==> rec.penciller == Str("")
    ensures "Format" !in m ==> rec.format == Str("")
  {
    CsvRow(r.0.path, r.1.series, r.1.volume, r.1.title, EntryOr(m, "Writer"), EntryOr(m, "Penciller"),
           r.1.editor, r.1.year, r.1.isbn, EntryOr(m, "Format"), r.1.pages, r.1.url)
  }

  /** A JSON album: the CSV row's entries and the summary. */
  datatype JsonAlbum = JsonAlbum(row: CsvRow, summary: Cell)

  function JsonRecord(r: Row, m: map<string, Cell>): (rec: JsonAlbum)
    ensures rec.row == CsvRecord(r, m)
    ensures "Summary" !in m ==> rec.summary == Str("")
  {
    JsonAlbum(CsvRecord(r, m), EntryOr(m, "Summary"))
  }

  /** `export_csv`: the rows written, and the count returned. */
  function ExportCsv(rows: seq<Row>, f: Filters, parse: string -> Option<Cell>): (out: Outcome<(seq<CsvRow>, nat)>)
    ensures out.Raised? <==> exists i :: 0 <= i < |Exported(rows, f)| && Metadata(Exported(rows, f)[i].1, parse).Raised?
    ensures out.Returned? ==> out.value.1 == |Exported(rows, f)| == |out.value.0|
    ensures out.Returned? ==> forall i :: 0 <= i < |out.value.0| ==>
              var row := Exported(rows, f)[i];
              out.value.0[i] == CsvRecord(row, Metadata(row.1, parse).value)
  {
    match Each(Exported(rows, f), parse, CsvRecord)
    case Raised(e) => Raised(e)
    case Returned(recs) => Returned((recs, |Exported(rows, f)|))
  }

  /** The JSON document an export writes. */
  datatype JsonDocument = JsonDocument(total: nat, albums: seq<JsonAlbum>)

  /** `export_json`: the document written, and the count returned. */
  function ExportJson(rows: seq<Row>, f: Filters, parse: string -> Option<Cell>): (out: Outcome<(JsonDocument, nat)>)
    ensures out.Raised? <==> exists i :: 0 <= i < |Exported(rows, f)| && Metadata(Exported(rows, f)[i].1, parse).Raised?
    ensures out.Returned? ==> out.value.1 == |Exported(rows, f)| == out.value.0.total == |out.value.0.albums|
    ensures out.Returned? ==> forall i :: 0 <= i < |out.value.0.albums| ==>
              var row := Exported(rows, f)[i];
              out.value.0.albums[i] == JsonRecord(row, Metadata(row.1, parse).value)
  {
    match Each(Exported(rows, f), parse, JsonRecord)
    case Raised(e) => Raised(e)
    case Returned(albums) => Returned((JsonDocument(|albums|, albums), |Exported(rows, f)|))
  }
}
