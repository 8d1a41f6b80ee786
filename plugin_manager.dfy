/**
 * `PluginManager`: the registry of metadata scrapers. Loading keeps the
 * enabled scrapers ordered by priority; searches and detail look-ups go
 * through them in that order, and a scraper that raises is skipped.
 *
 * Discovery by module import is outside the model: the manager is given the
 * scraper classes discovery would find, in discovery order. What a scraper
 * answers to a search or a detail request is a function of the request.
 */
module PluginManager {
  import opened Wrappers
  import opened Text
  import opened Values
  import opened Seqs
  import opened BaseScraper

  /** A scraper class found by discovery: its class name, `name` and `priority`. */
  datatype ScraperClass = ScraperClass(className: string, name: string, priority: int)

  /**
   * What the scrapers answer, by class name: `search` to a query and
   * `get_details` to a url. Each answer either returns or raises.
   */
  datatype Backend = Backend(
    search: (string, Query) -> Outcome<seq<ScraperResult>>,
    details: (string, string) -> Outcome<Option<ScraperResult>>)

  /** A scraper instance: its class and the settings it was configured with. */
  datatype Scraper = Scraper(cls: ScraperClass, settings: ScraperSettings)
  {
    function Name(): string { cls.name }
    function Priority(): int { cls.priority }
    predicate Enabled() { IsEnabled(settings) }
    function Search(b: Backend, q: Query): Outcome<seq<ScraperResult>> { b.search(cls.className, q) }
    function Details(b: Backend, url: string): Outcome<Option<ScraperResult>> { b.details(cls.className, url) }
  }

  /** `attr(config=self.config.get(attr_name, {}))`. */
  function Instantiate(config: map<string, map<string, Cell>>, cls: ScraperClass): (s: Scraper)
    ensures s.cls == cls
    ensures s.settings == Configure(Some(if cls.className in config then config[cls.className] else map[]))
  {
    Scraper(cls, Configure(Some(if cls.className in config then config[cls.className] else map[])))
  }

  /** The enabled instances of `classes`, in discovery order. */
  function EnabledOf(config: map<string, map<string, Cell>>, classes: seq<ScraperClass>): (ss: seq<Scraper>)
    ensures forall i :: 0 <= i < |ss| ==> ss[i].Enabled()
    ensures |ss| <= |classes|
  {
    if classes == [] then []
    else
      var s := Instantiate(config, classes[|classes| - 1]);
      EnabledOf(config, classes[..|classes| - 1]) + if s.Enabled() then [s] else []
  }

  /** Ascending priority as a descending key, so that the stable descending sort orders by priority. */
  function PriorityKey(): (key: Scraper -> real)
    ensures forall s :: key(s) == -(s.Priority() as real)
  {
    (s: Scraper) => -(s.Priority() as real)
  }

  /** `self.scrapers.sort(key=lambda s: s.priority)`. */
  function ByPriority(ss: seq<Scraper>): seq<Scraper> {
    SortDesc(ss, PriorityKey())
  }

  predicate AscendingPriority(ss: seq<Scraper>) {
    forall i, j :: 0 <= i < j < |ss| ==> ss[i].Priority() <= ss[j].Priority()
  }

  /** The loaded scrapers are exactly the enabled ones, each once, in ascending priority. */
  lemma LoadedOrder(config: map<string, map<string, Cell>>, classes: seq<ScraperClass>)
    ensures var ss := ByPriority(EnabledOf(config, classes));
            multiset(ss) == multiset(EnabledOf(config, classes))
            && AscendingPriority(ss)
            && forall i :: 0 <= i < |ss| ==> ss[i].Enabled()
  {
    var ss := ByPriority(EnabledOf(config, classes));
    SortDescOrdered(EnabledOf(config, classes), PriorityKey());
    forall i | 0 <= i < |ss|
      ensures ss[i].Enabled()
    {
      assert ss[i] in multiset(EnabledOf(config, classes));
    }
  }

  /** Scrapers of equal priority keep their discovery order. */
  lemma LoadedTiesKeepOrder(config: map<string, map<string, Cell>>, classes: seq<ScraperClass>, s: Scraper)
    ensures var le := KeyDesc(PriorityKey());
            Level(ByPriority(EnabledOf(config, classes)), le, s) == Level(EnabledOf(config, classes), le, s)
  {
    SortDescStable(EnabledOf(config, classes), PriorityKey());
  }

  /** The first scraper named `name`, if any. */
  function FirstNamed(ss: seq<Scraper>, name: string): (r: Option<Scraper>)
    ensures r.Some? ==> exists i :: 0 <= i < |ss| && ss[i] == r.value && r.value.Name() == name
                          && forall j :: 0 <= j < i ==> ss[j].Name() != name
    ensures r.None? ==> forall i :: 0 <= i < |ss| ==> ss[i].Name() != name
  {
    if ss == [] then None
    else if ss[0].Name() == name then Some(ss[0])
    else
      var r := FirstNamed(ss[1..], name);
      if r.Some? then
        var i :| 0 <= i < |ss[1..]| && ss[1..][i] == r.value && r.value.Name() == name
                 && forall j :: 0 <= j < i ==> ss[1..][j].Name() != name;
        assert ss[i + 1] == r.value;
        r
      else r
  }

  /** An insertion-ordered dictionary from scraper name to results. */
  type NameDict = seq<(string, seq<ScraperResult>)>

  predicate DistinctKeys(d: NameDict) {
    forall i, j :: 0 <= i < j < |d| ==> d[i].0 != d[j].0
  }

  /** Where `k` sits in `d`: the first index holding it, `|d|` when it is absent. */
  function KeyIndex(d: NameDict, k: string): (i: nat)
    ensures i <= |d|
    ensures i < |d| ==> d[i].0 == k
    ensures forall j :: 0 <= j < i ==> d[j].0 != k
  {
    if d == [] then 0 else if d[0].0 == k then 0 else 1 + KeyIndex(d[1..], k)
  }

  /** `d[k] = v`: a present key keeps its position and takes the new value; a new key goes last. */
  function Put(d: NameDict, k: string, v: seq<ScraperResult>): (d': NameDict)
    requires DistinctKeys(d)
    ensures DistinctKeys(d')
    ensures |d'| == if KeyIndex(d, k) < |d| then |d| else |d| + 1
    ensures forall i :: 0 <= i < |d| ==> d'[i] == if d[i].0 == k then (k, v) else d[i]
    ensures KeyIndex(d, k) == |d| ==> d'[|d|] == (k, v)
  {
    var i := KeyIndex(d, k);
    if i < |d| then d[i := (k, v)] else d + [(k, v)]
  }

  /** The results a scraper contributes: what its search returns, `[]` when it raises. */
  function ResultsOf(b: Backend, s: Scraper, q: Query): seq<ScraperResult> {
    match s.Search(b, q)
    case Returned(rs) => rs
    case Raised(_) => []
  }

  /** The dictionary `search_all` builds, scraper by scraper. */
  function SearchDict(b: Backend, ss: seq<Scraper>, q: Query): (d: NameDict)
    ensures DistinctKeys(d)
  {
    if ss == [] then [] else Put(SearchDict(b, ss[..|ss| - 1], q), ss[|ss| - 1].Name(), ResultsOf(b, ss[|ss| - 1], q))
  }

  /** Every scraper's name is a key, and a key maps to the results of the last scraper with that name. */
  lemma {:induction false} SearchDictKeys(b: Backend, ss: seq<Scraper>, q: Query, k: nat)
    requires k < |ss| && forall j :: k < j < |ss| ==> ss[j].Name() != ss[k].Name()
    ensures exists i :: 0 <= i < |SearchDict(b, ss, q)| && SearchDict(b, ss, q)[i] == (ss[k].Name(), ResultsOf(b, ss[k], q))
    decreases |ss|
  {
    var init := ss[..|ss| - 1];
    var d := SearchDict(b, init, q);
    assert SearchDict(b, ss, q) == Put(d, ss[|ss| - 1].Name(), ResultsOf(b, ss[|ss| - 1], q));
    if k < |init| {
      assert init[k] == ss[k];
      SearchDictKeys(b, init, q, k);
      var i :| 0 <= i < |d| && d[i] == (ss[k].Name(), ResultsOf(b, ss[k], q));
      assert SearchDict(b, ss, q)[i] == d[i];
    } else {
      var i := KeyIndex(d, ss[k].Name());
      assert SearchDict(b, ss, q)[i] == (ss[k].Name(), ResultsOf(b, ss[k], q));
    }
  }

  /** Every key is the name of some scraper. */
  lemma {:induction false} SearchDictOnlyNames(b: Backend, ss: seq<Scraper>, q: Query, i: nat)
    requires i < |SearchDict(b, ss, q)|
    ensures exists k :: 0 <= k < |ss| && ss[k].Name() == SearchDict(b, ss, q)[i].0
    decreases |ss|
  {
    var init := ss[..|ss| - 1];
    var d := SearchDict(b, init, q);
    if i < |d| && d[i].0 != ss[|ss| - 1].Name() {
      SearchDictOnlyNames(b, init, q, i);
      var k :| 0 <= k < |init| && init[k].Name() == d[i].0;
      assert ss[k] == init[k];
    }
  }

  /** The values of the dictionary laid end to end, in key order. */
  function Flatten(d: NameDict): seq<ScraperResult> {
    if d == [] then [] else Flatten(d[..|d| - 1]) + d[|d| - 1].1
  }

  /** `r.confidence >= min_confidence`. */
  function AtLeast(minConfidence: real): (p: ScraperResult -> bool)
    ensures forall r :: p(r) == (r.confidence >= minConfidence)
  {
    (r: ScraperResult) => r.confidence >= minConfidence
  }

  function Confidence(r: ScraperResult): real {
    r.confidence
  }

  /** What `search_best` returns for a dictionary of results. */
  function BestOf(d: NameDict, minConfidence: real, limit: int): seq<ScraperResult> {
    PySliceTo(SortDesc(Filter(AtLeast(minConfidence), Flatten(d)), Confidence), limit)
  }

  /**
   * Every result `search_best` returns reaches `min_confidence`, the list is
   * in non-increasing confidence, is no longer than a non-negative `limit`,
   * and each result came from some scraper's answer.
   */
  lemma BestOfProperties(d: NameDict, minConfidence: real, limit: int)
    ensures var r := BestOf(d, minConfidence, limit);
            (forall i :: 0 <= i < |r| ==> r[i].confidence >= minConfidence)
            && (forall i, j :: 0 <= i < j < |r| ==> r[i].confidence >= r[j].confidence)
            && (limit >= 0 ==> |r| <= limit)
            && multiset(r) <= multiset(Flatten(d))
            && r <= SortDesc(Filter(AtLeast(minConfidence), Flatten(d)), Confidence)
            && (limit >= 0 ==> var n := |Filter(AtLeast(minConfidence), Flatten(d))|;
                               |r| == if limit < n then limit else n)
  {
    var kept := Filter(AtLeast(minConfidence), Flatten(d));
    var sorted := SortDesc(kept, Confidence);
    SortDescOrdered(kept, Confidence);
    var r := BestOf(d, minConfidence, limit);
    assert sorted == r + sorted[|r|..];
    assert multiset(sorted) == multiset(r) + multiset(sorted[|r|..]);
    forall i | 0 <= i < |r|
      ensures r[i].confidence >= minConfidence
    {
      assert r[i] in multiset(kept);
    }
  }

  /** In a list ordered by descending key, an element past a prefix has a key no larger than the prefix's. */
  lemma PastPrefixNotAbove(r: seq<ScraperResult>, sorted: seq<ScraperResult>, x: ScraperResult)
    requires r <= sorted && x in sorted && x !in r
    requires forall i, j :: 0 <= i < j < |sorted| ==> sorted[i].confidence >= sorted[j].confidence
    ensures forall i :: 0 <= i < |r| ==> r[i].confidence >= x.confidence
  {
    var j :| 0 <= j < |sorted| && sorted[j] == x;
    assert forall i :: 0 <= i < |r| ==> r[i] == sorted[i];
    assert j >= |r|;
  }

  /** A result reaching the threshold that the limit leaves out is no more confident than any result returned. */
  lemma BestOfKeepsMostConfident(d: NameDict, minConfidence: real, limit: int, x: ScraperResult)
    requires x in Flatten(d) && x.confidence >= minConfidence
    requires x !in BestOf(d, minConfidence, limit)
    ensures forall i :: 0 <= i < |BestOf(d, minConfidence, limit)| ==>
              BestOf(d, minConfidence, limit)[i].confidence >= x.confidence
  {
    var kept := Filter(AtLeast(minConfidence), Flatten(d));
    var sorted := SortDesc(kept, Confidence);
    SortDescOrdered(kept, Confidence);
    assert x in kept by {
      FilterMembers(AtLeast(minConfidence), Flatten(d));
      assert AtLeast(minConfidence)(x);
    }
    assert x in sorted by {
      assert x in multiset(kept);
      assert x in multiset(sorted);
    }
    PastPrefixNotAbove(BestOf(d, minConfidence, limit), sorted, x);
  }

  /** A result at or above the threshold that would fit is not dropped: with room for all, all are kept. */
  lemma BestOfKeepsAll(d: NameDict, minConfidence: real, limit: int)
    requires limit >= |Flatten(d)|
    ensures multiset(BestOf(d, minConfidence, limit)) == multiset(Filter(AtLeast(minConfidence), Flatten(d)))
  {
    var kept := Filter(AtLeast(minConfidence), Flatten(d));
    SortDescOrdered(kept, Confidence);
    assert |SortDesc(kept, Confidence)| == |kept| by {
      assert |multiset(SortDesc(kept, Confidence))| == |multiset(kept)|;
    }
    assert |kept| <= |Flatten(d)| by {
      assert |multiset(kept)| <= |multiset(Flatten(d))|;
    }
  }

  /** Does `url` name the scraper (`name` or `name` without underscores occurs in it)? */
  predicate Matches(s: Scraper, url: string) {
    Contains(url, s.Name()) || Contains(url, ReplaceAll(s.Name(), "_", ""))
  }

  /** Is `s` the scraper for `url`, and does its `get_details` return rather than raise? */
  predicate Answers(b: Backend, s: Scraper, url: string) {
    Matches(s, url) && s.Details(b, url).Returned?
  }

  /**
   * The detail answer of the first scraper named in `url` whose `get_details`
   * does not raise (which may itself be `None`); `None` when there is none.
   */
  function DetailsByUrl(b: Backend, ss: seq<Scraper>, url: string): (r: Option<ScraperResult>)
    ensures (forall i :: 0 <= i < |ss| ==> !Answers(b, ss[i], url)) ==> r == None
    ensures forall i :: 0 <= i < |ss| && Answers(b, ss[i], url) && (forall j :: 0 <= j < i ==> !Answers(b, ss[j], url))
                        ==> r == ss[i].Details(b, url).value
  {
    if ss == [] then None
    else if Answers(b, ss[0], url) then ss[0].Details(b, url).value
    else
      assert forall i :: 1 <= i < |ss| ==> ss[i] == ss[1..][i - 1];
      DetailsByUrl(b, ss[1..], url)
  }

  /** The counts `get_stats` reports. */
  datatype PluginStats = PluginStats(total: nat, enabled: nat, disabled: nat, names: seq<string>)

  function StatsOf(ss: seq<Scraper>): (st: PluginStats)
    ensures st.total == st.enabled + st.disabled
    ensures |st.names| == st.total
  {
    var enabled := (s: Scraper) => s.Enabled();
    var disabled := (s: Scraper) => !s.Enabled();
    FilterPartition(enabled, disabled, ss);
    var en := Filter(enabled, ss);
    var dis := Filter(disabled, ss);
    PluginStats(|ss|, |en|, |dis|, Map((s: Scraper) => s.Name(), ss))
  }

  lemma SearchDictNext(b: Backend, ss: seq<Scraper>, q: Query, i: nat)
    requires i < |ss|
    ensures SearchDict(b, ss[..i + 1], q) == Put(SearchDict(b, ss[..i], q), ss[i].Name(), ResultsOf(b, ss[i], q))
  {
    assert ss[..i + 1][..i] == ss[..i];
  }

  lemma FlattenNext(d: NameDict, i: nat)
    requires i < |d|
    ensures Flatten(d[..i + 1]) == Flatten(d[..i]) + d[i].1
  {
    assert d[..i + 1][..i] == d[..i];
  }

  /** One step of the inner loop of `search_best`: the next result is appended iff it reaches `minConfidence`. */
  lemma KeepStep(merged: seq<ScraperResult>, scraperResults: seq<ScraperResult>, minConfidence: real, j: nat)
    requires j < |scraperResults|
    ensures merged + Filter(AtLeast(minConfidence), scraperResults[..j + 1])
            == merged + Filter(AtLeast(minConfidence), scraperResults[..j])
               + (if scraperResults[j].confidence >= minConfidence then [scraperResults[j]] else [])
  {
    FilterNext(AtLeast(minConfidence), scraperResults, j);
    assert AtLeast(minConfidence)(scraperResults[j]) == (scraperResults[j].confidence >= minConfidence);
  }

  /** The inner loop of `search_best`: append the results of one scraper that reach `minConfidence`. */
  method KeepConfident(merged: seq<ScraperResult>, scraperResults: seq<ScraperResult>, minConfidence: real)
    returns (merged': seq<ScraperResult>)
    ensures merged' == merged + Filter(AtLeast(minConfidence), scraperResults)
  {
    merged' := merged;
    for j := 0 to |scraperResults|
      invariant merged' == merged + Filter(AtLeast(minConfidence), scraperResults[..j])
    {
      var result := scraperResults[j];
      KeepStep(merged, scraperResults, minConfidence, j);
      if result.confidence >= minConfidence {
        merged' := merged' + [result];
      }
    }
    assert scraperResults[..|scraperResults|] == scraperResults;
  }

  /** The sequential loop of `search_all`: ask each scraper in turn, `[]` for one that raises. */
  method SearchEach(b: Backend, ss: seq<Scraper>, q: Query) returns (results: NameDict)
    ensures results == SearchDict(b, ss, q)
  {
    results := [];
    for i := 0 to |ss|
      invariant results == SearchDict(b, ss[..i], q)
    {
      var scraper := ss[i];
      var scraperResults;
      match scraper.Search(b, q) {
        case Returned(rs) =>
          scraperResults := rs;
        case Raised(_) =>
          scraperResults := [];
      }
      SearchDictNext(b, ss, q, i);
      results := Put(results, scraper.Name(), scraperResults);
    }
    assert ss[..|ss|] == ss;
  }

  /** The flattening loop of `search_best`: every result reaching `minConfidence`, in dictionary order. */
  method MergeConfident(allResults: NameDict, minConfidence: real) returns (merged: seq<ScraperResult>)
    ensures merged == Filter(AtLeast(minConfidence), Flatten(allResults))
  {
    merged := [];
    for i := 0 to |allResults|
      invariant merged == Filter(AtLeast(minConfidence), Flatten(allResults[..i]))
    {
      merged := KeepConfident(merged, allResults[i].1, minConfidence);
      FlattenNext(allResults, i);
      FilterAppend(AtLeast(minConfidence), Flatten(allResults[..i]), allResults[i].1);
    }
    assert allResults[..|allResults|] == allResults;
  }

  /** One entry of `list_scrapers`. */
  datatype ScraperInfo = ScraperInfo(name: string, priority: int, enabled: bool, className: string)

  function InfoOf(s: Scraper): ScraperInfo {
    ScraperInfo(s.Name(), s.Priority(), s.Enabled(), s.cls.className)
  }

  // ---------------------------------------------------------------- the manager

  class PluginManager {
    /** The per-class configuration dictionaries (`self.config`). */
    const config: map<string, map<string, Cell>>
    /** The scraper classes discovery finds, in discovery order. */
    const discovered: seq<ScraperClass>
    /** How the scrapers answer searches and detail requests. */
    const backend: Backend
    var scrapers: seq<Scraper>
    var loaded: bool

    /** Before loading there are no scrapers; afterwards they are the enabled ones by priority. */
    ghost predicate Valid()
      reads this
    {
      (!loaded ==> scrapers == [])
      && (loaded ==> scrapers == ByPriority(EnabledOf(config, discovered)))
    }

    /** `PluginManager(config)`: `config or {}`, nothing loaded yet. */
    constructor(config: Option<map<string, map<string, Cell>>>, discovered: seq<ScraperClass>, backend: Backend)
      ensures Valid() && !loaded && scrapers == []
      ensures this.config == config.GetOr(map[]) && this.discovered == discovered && this.backend == backend
    {
      this.config := config.GetOr(map[]);
      this.discovered := discovered;
      this.backend := backend;
      scrapers := [];
      loaded := false;
    }

    /**
     * `load_scrapers`: instantiate each discovered class with its
     * configuration, keep the enabled ones, sort them by priority. A second
     * call changes nothing.
     */
    method LoadScrapers()
      requires Valid()
      modifies this
      ensures Valid() && loaded
      ensures old(loaded) ==> scrapers == old(scrapers)
      ensures scrapers == ByPriority(EnabledOf(config, discovered))
    {
      if loaded {
        return;
      }
      for i := 0 to |discovered|
        invariant scrapers == EnabledOf(config, discovered[..i])
      {
        var scraper := Instantiate(config, discovered[i]);
        if scraper.Enabled() {
          scrapers := scrapers + [scraper];
        }
        assert discovered[..i + 1][..i] == discovered[..i];
      }
      assert discovered[..|discovered|] == discovered;
      scrapers := ByPriority(scrapers);
      loaded := true;
    }

    /** `get_scraper(name)`: the first loaded scraper with that name, or `None`. */
    method GetScraper(name: string) returns (scraper: Option<Scraper>)
      ensures scraper == FirstNamed(scrapers, name)
    {
      for i := 0 to |scrapers|
        invariant FirstNamed(scrapers, name) == FirstNamed(scrapers[i..], name)
      {
        if scrapers[i].Name() == name {
          return Some(scrapers[i]);
        }
        assert scrapers[i..][1..] == scrapers[i + 1..];
      }
      return None;
    }

    /**
     * `search_all` on its sequential path: every scraper's name maps to what
     * its search returned, or to `[]` when it raised.
     */
    method SearchAll(q: Query) returns (results: NameDict)
      requires Valid()
      modifies this
      ensures Valid() && loaded
      ensures scrapers == ByPriority(EnabledOf(config, discovered))
      ensures results == SearchDict(backend, scrapers, q)
    {
      if !loaded {
        LoadScrapers();
      }
      results := SearchEach(backend, scrapers, q);
    }

    /**
     * `search_best`: the results of all scrapers that reach `minConfidence`,
     * most confident first, at most `limit` of them.
     */
    method SearchBest(query: string, series: Option<string>, volume: Option<int>, year: Option<int>,
                      minConfidence: real, limit: int)
      returns (best: seq<ScraperResult>)
      requires Valid()
      modifies this
      ensures Valid() && loaded
      ensures best == BestOf(SearchDict(backend, scrapers, Query(query, series, volume, year, limit)), minConfidence, limit)
    {
      var allResults := SearchAll(Query(query, series, volume, year, limit));
      var merged := MergeConfident(allResults, minConfidence);
      best := PySliceTo(SortDesc(merged, Confidence), limit);
    }

    /**
     * `get_details(url, scraper_name)`: a non-empty name picks that scraper
     * (none found, or a raising one, gives `None`); otherwise the first
     * scraper named in the url that does not raise answers.
     */
    method GetDetails(url: string, scraperName: Option<string>) returns (details: Option<ScraperResult>)
      requires Valid()
      modifies this
      ensures Valid() && loaded
      ensures scraperName.Some? && scraperName.value != [] ==>
                details == match FirstNamed(scrapers, scraperName.value)
                           case None => None
                           case Some(s) => if s.Details(backend, url).Returned? then s.Details(backend, url).value else None
      ensures !(scraperName.Some? && scraperName.value != []) ==> details == DetailsByUrl(backend, scrapers, url)
    {
      if !loaded {
        LoadScrapers();
      }
      if scraperName.Some? && scraperName.value != [] {
        var scraper := GetScraper(scraperName.value);
        if scraper.Some? {
          match scraper.value.Details(backend, url)
          case Returned(d) =>
            return d;
          case Raised(_) =>
        }
        return None;
      }
      for i := 0 to |scrapers|
        invariant DetailsByUrl(backend, scrapers, url) == DetailsByUrl(backend, scrapers[i..], url)
      {
        var scraper := scrapers[i];
        assert scrapers[i..][1..] == scrapers[i + 1..];
        if Matches(scraper, url) {
          match scraper.Details(backend, url)
          case Returned(d) =>
            return d;
          case Raised(_) =>
        }
      }
      return None;
    }

    /** `list_scrapers`: one entry per loaded scraper, in priority order. */
    method ListScrapers() returns (infos: seq<ScraperInfo>)
      requires Valid()
      modifies this
      ensures Valid() && loaded
      ensures |infos| == |scrapers|
      ensures forall i :: 0 <= i < |infos| ==> infos[i] == InfoOf(scrapers[i]) && infos[i].enabled
    {
      if !loaded {
        LoadScrapers();
      }
      LoadedOrder(config, discovered);
      infos := Map(InfoOf, scrapers);
    }

    /** `get_stats`: after loading, every scraper counts as enabled. */
    method GetStats() returns (stats: PluginStats)
      requires Valid()
      modifies this
      ensures Valid() && loaded
      ensures stats == StatsOf(scrapers)
      ensures stats.disabled == 0 && stats.total == |EnabledOf(config, discovered)|
    {
      if !loaded {
        LoadScrapers();
      }
      stats := StatsOf(scrapers);
      LoadedOrder(config, discovered);
      assert |scrapers| == |multiset(scrapers)| == |multiset(EnabledOf(config, discovered))|;
    }
  }
}
