/**
 * The batch configuration (`BatchConfig`) and the sitemap cache age test
 * (`SitemapCache.get_cache`): the worker count, the batch log and the
 * summary and header written with it.
 *
 * The output directory, the log file names and the clock are left to the
 * caller: a timestamp is a parameter, and the files written are modelled by
 * the values written into them.
 */
module BatchConfig {
  import opened Wrappers
  import opened Text
  import opened Values
  import opened BatchProcessor
  import opened BatchWorker

  /** `min(max(num_workers, 1), 8)`. */
  function ClampWorkers(n: int): (w: int)
    ensures 1 <= w <= 8
    ensures 1 <= n <= 8 ==> w == n
    ensures n < 1 ==> w == 1
    ensures n > 8 ==> w == 8
  {
    if n < 1 then 1 else if n > 8 then 8 else n
  }

  /** `{**result, 'timestamp': now}`: every key kept, `timestamp` set. */
  function Stamped(r: Record, now: string): (s: Record)
    ensures s.Keys == r.Keys + {"timestamp"}
    ensures s["timestamp"] == Str(now)
    ensures forall k :: k in r && k != "timestamp" ==> s[k] == r[k]
  {
    r["timestamp" := Str(now)]
  }

  class Config {
    const batchMode: bool
    const strictMode: bool
    const numWorkers: int
    var results: seq<Record>

    constructor(batchMode: bool, strictMode: bool, numWorkers: int)
      ensures this.batchMode == batchMode && this.strictMode == strictMode
      ensures this.numWorkers == ClampWorkers(numWorkers)
      ensures results == []
    {
      this.batchMode := batchMode;
      this.strictMode := strictMode;
      this.numWorkers := ClampWorkers(numWorkers);
      results := [];
    }

    /** `add_result`: the result, stamped with the time it was added, goes at the end of the log. */
    method AddResult(result: Record, now: string)
      modifies this
      ensures results == old(results) + [Stamped(result, now)]
    {
      results := results + [Stamped(result, now)];
    }
  }

  // ---------------------------------------------------------------- the JSON summary

  /** Python's `v < bound` for a number bound: `None`, text, bytes and dictionaries raise `TypeError`. */
  function LessThan(v: Cell, bound: real): (r: Outcome<bool>)
    ensures r.Returned? <==> IsNumber(v)
    ensures r.Returned? ==> r.value == (Num(v) < bound)
  {
    if IsNumber(v) then Returned(Num(v) < bound) else Raised("TypeError")
  }

  /** `r.get('score', 1) < 0.70`: a missing score counts as 1. */
  function ScoreBelow(r: Record): Outcome<bool> {
    LessThan(DictGet(r, "score", Integer(1)), 0.70)
  }

  /** `r.get('success')` is truthy. */
  predicate Succeeded(r: Record) {
    Truthy(DictGet(r, "success", Null))
  }

  function CountSucceeded(rs: seq<Record>): (n: nat)
    ensures n <= |rs|
  {
    if rs == [] then 0 else CountSucceeded(rs[..|rs| - 1]) + if Succeeded(rs[|rs| - 1]) then 1 else 0
  }

  function CountFailed(rs: seq<Record>): (n: nat)
    ensures n <= |rs|
  {
    if rs == [] then 0 else CountFailed(rs[..|rs| - 1]) + if Succeeded(rs[|rs| - 1]) then 0 else 1
  }

  /** `sum(1 for r in results if r.get('score', 1) < 0.70)`: raises at the first score that does not compare. */
  function CountLow(rs: seq<Record>): (n: Outcome<nat>)
    ensures n.Returned? ==> n.value <= |rs|
  {
    if rs == [] then Returned(0)
    else
      match CountLow(rs[..|rs| - 1])
      case Raised(e) => Raised(e)
      case Returned(k) =>
        match ScoreBelow(rs[|rs| - 1])
        case Raised(e) => Raised(e)
        case Returned(b) => Returned(k + if b then 1 else 0)
  }

  /** The counts of the JSON log. */
  datatype LogSummary = LogSummary(totalFiles: nat, successful: nat, failed: nat, lowConfidence: nat)

  /**
   * The counts `save_json_log` writes, or `None` when computing them raised
   * (the error is logged and no file is written).
   */
  function JsonSummary(rs: seq<Record>): (s: Option<LogSummary>)
    ensures s.Some? <==> CountLow(rs).Returned?
    ensures s.Some? ==> s.value.totalFiles == |rs| && s.value.lowConfidence <= |rs|
  {
    match CountLow(rs)
    case Raised(_) => None
    case Returned(low) => Some(LogSummary(|rs|, CountSucceeded(rs), CountFailed(rs), low))
  }

  /** Every logged result is counted once, as a success or as a failure. */
  lemma {:induction false} SucceededPlusFailed(rs: seq<Record>)
    ensures CountSucceeded(rs) + CountFailed(rs) == |rs|
    decreases |rs|
  {
    if rs != [] {
      SucceededPlusFailed(rs[..|rs| - 1]);
    }
  }

  /** A score that is a number or missing never raises. */
  predicate ComparableScore(r: Record) {
    "score" in r ==> IsNumber(r["score"])
  }

  /** The summary is written whenever every score compares: the worker's results always do. */
  lemma {:induction false} SummaryWritten(rs: seq<Record>)
    requires forall i :: 0 <= i < |rs| ==> ComparableScore(rs[i])
    ensures JsonSummary(rs).Some?
    ensures JsonSummary(rs).value.successful + JsonSummary(rs).value.failed == JsonSummary(rs).value.totalFiles
    decreases |rs|
  {
    SucceededPlusFailed(rs);
    if rs != [] {
      SummaryWritten(rs[..|rs| - 1]);
      assert ComparableScore(rs[|rs| - 1]);
    }
  }

  /** The worker's result dictionaries have a number as their score. */
  lemma WorkerScoresCompare(r: ProcessingResult, filename: string, error: string, now: string)
    ensures ComparableScore(Stamped(AsRecord(r), now))
    ensures ComparableScore(Stamped(Failed(filename, error), now))
  {
  }

  // ---------------------------------------------------------------- the CSV header

  /** The keys of some result. */
  function KeysOf(rs: seq<Record>): (ks: set<string>)
    ensures forall k :: k in ks <==> exists i :: 0 <= i < |rs| && k in rs[i]
  {
    if rs == [] then {}
    else
      var n := |rs| - 1;
      var before := KeysOf(rs[..n]);
      assert forall i :: 0 <= i < n ==> rs[..n][i] == rs[i];
      before + rs[n].Keys
  }

  /** `sorted(names)`. */
  method Sorted(names: set<string>) returns (h: seq<string>)
    ensures Ascending(h)
    ensures forall y :: y in h <==> y in names
  {
    h := [];
    var rest := names;
    while rest != {}
      invariant rest <= names
      invariant Ascending(h)
      invariant forall y :: y in h <==> y in names && y !in rest
      decreases |rest|
    {
      var x :| x in rest;
      InsertSortedAscending(x, h);
      h := InsertSorted(x, h);
      rest := rest - {x};
    }
  }

  /**
   * The header `save_csv_log` writes: every key of every result, ascending
   * and each once; with no results, nothing is written.
   */
  method CsvHeader(results: seq<Record>) returns (header: Option<seq<string>>)
    ensures header.None? <==> results == []
    ensures header.Some? ==> Ascending(header.value)
    ensures header.Some? ==> forall k :: k in header.value <==> exists i :: 0 <= i < |results| && k in results[i]
  {
    if results == [] {
      return None;
    }
    var names: set<string> := {};
    for i := 0 to |results|
      invariant names == KeysOf(results[..i])
    {
      assert results[..i + 1][..i] == results[..i];
      names := names + results[i].Keys;
    }
    assert results[..|results|] == results;
    var h := Sorted(names);
    return Some(h);
  }

  // ---------------------------------------------------------------- the sitemap cache

  /** `CACHE_VALIDITY_HOURS`. */
  const CacheValidityHours: real := 24.0

  /**
   * `get_cache`: the cached sitemaps when the cache file exists, is at most
   * 24 hours old and reads back; `None` otherwise. The file's age in
   * seconds and the outcome of reading it are given.
   */
  function GetCache(present: bool, ageSeconds: real, read: Outcome<map<string, Cell>>): (c: Option<map<string, Cell>>)
    ensures c.Some? <==> present && ageSeconds <= 86400.0 && read.Returned?
    ensures c.Some? ==> c.value == read.value
  {
    if !present then None
    else if ageSeconds / 3600.0 > CacheValidityHours then None
    else match read
      case Raised(_) => None
      case Returned(cache) => Some(cache)
  }
}
