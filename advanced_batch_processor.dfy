/**
 * The batch processor of the batch mode (`AdvancedBatchProcessor`): the
 * sequential run over a list of files, the low-confidence list and the
 * counts of the summary.
 *
 * What one call of the worker does with one file is a parameter `run`: its
 * result dictionary, an ordinary exception, or the user's interrupt.
 */
module AdvancedBatchProcessor {
  import opened Wrappers
  import opened Values
  import opened BatchProcessor
  import opened BatchWorker
  import opened BatchConfig

  /** What calling the worker on one file gives. */
  datatype Call = Finished(record: Record) | Failure(error: string) | Interrupted

  /** The user interrupted the run at one of these files. */
  predicate Stopped(files: seq<string>, run: string -> Call) {
    exists i :: 0 <= i < |files| && run(files[i]).Interrupted?
  }

  /**
   * The results of the sequential run: one per file whose call finished, in
   * file order, up to the first interrupt; a file whose call raised is
   * skipped.
   */
  function Collected(files: seq<string>, run: string -> Call): (rs: seq<Record>)
    ensures |rs| <= |files|
  {
    if files == [] then []
    else
      var n := |files| - 1;
      var before := Collected(files[..n], run);
      if Stopped(files[..n], run) then before
      else match run(files[n])
        case Finished(r) => before + [r]
        case Failure(_) => before
        case Interrupted => before
  }

  /** Some file's call finished with this result. */
  ghost predicate FinishedBy(files: seq<string>, run: string -> Call, r: Record) {
    exists i :: 0 <= i < |files| && run(files[i]) == Finished(r)
  }

  /** Without an interrupt, every finished file contributes its result, in file order. */
  lemma {:induction false} CollectedAll(files: seq<string>, run: string -> Call)
    requires !Stopped(files, run)
    ensures forall i :: 0 <= i < |files| && run(files[i]).Finished? ==> run(files[i]).record in Collected(files, run)
    ensures forall k :: 0 <= k < |Collected(files, run)| ==> FinishedBy(files, run, Collected(files, run)[k])
    decreases |files|
  {
    if files != [] {
      var n := |files| - 1;
      var init := files[..n];
      assert !Stopped(init, run) by {
        forall i | 0 <= i < |init|
          ensures !run(init[i]).Interrupted?
        {
          assert init[i] == files[i];
        }
      }
      CollectedAll(init, run);
      forall i | 0 <= i < n && run(files[i]).Finished?
        ensures run(files[i]).record in Collected(files, run)
      {
        assert files[i] == init[i];
      }
      forall k | 0 <= k < |Collected(init, run)|
        ensures FinishedBy(files, run, Collected(init, run)[k])
      {
        var i :| 0 <= i < |init| && run(init[i]) == Finished(Collected(init, run)[k]);
        assert files[i] == init[i];
      }
      if run(files[n]).Finished? && Collected(files, run) != Collected(init, run) {
        assert FinishedBy(files, run, run(files[n]).record);
      }
    }
  }

  /** An interrupt ends the run: nothing after the first interrupted file is collected. */
  lemma InterruptStops(files: seq<string>, run: string -> Call, i: nat)
    requires i < |files| && run(files[i]).Interrupted?
    ensures Collected(files[..i + 1], run) == Collected(files[..i], run)
  {
    assert files[..i + 1][..i] == files[..i];
  }

  /** The log entries added for a run's results, the entry at position `p` of the log stamped `clock(p)`. */
  function StampedFrom(rs: seq<Record>, clock: nat -> string, start: nat): (log: seq<Record>)
    ensures |log| == |rs|
    ensures forall k :: 0 <= k < |rs| ==> log[k] == Stamped(rs[k], clock(start + k))
  {
    seq(|rs|, k requires 0 <= k < |rs| => Stamped(rs[k], clock(start + k)))
  }

  /**
   * The loop of `process_files_sequential`: each result both returned and
   * added to the batch log, the time of each addition read from `clock`
   * by its position in the log.
   */
  method RunSequential(config: Config, files: seq<string>, run: string -> Call, clock: nat -> string)
    returns (results: seq<Record>)
    modifies config
    ensures results == Collected(files, run)
    ensures config.results == old(config.results) + StampedFrom(results, clock, |old(config.results)|)
  {
    results := [];
    var start := |config.results|;
    var i := 0;
    while i < |files|
      invariant 0 <= i <= |files|
      invariant !Stopped(files[..i], run)
      invariant results == Collected(files[..i], run)
      invariant config.results == old(config.results) + StampedFrom(results, clock, start)
    {
      assert files[..i + 1][..i] == files[..i];
      var call := run(files[i]);
      match call {
        case Interrupted =>
          assert forall j :: i < j <= |files| ==> files[..j][..i + 1] == files[..i + 1];
          StoppedAfter(files, run, i);
          return;
        case Failure(_) =>
        case Finished(r) =>
          config.AddResult(r, clock(start + |results|));
          assert StampedFrom(results + [r], clock, start) == StampedFrom(results, clock, start) + [Stamped(r, clock(start + |results|))];
          results := results + [r];
      }
      var upto := files[..i + 1];
      assert !Stopped(upto, run) by {
        forall j | 0 <= j < |upto|
          ensures !run(upto[j]).Interrupted?
        {
          if j < i {
            assert upto[j] == files[..i][j];
          }
        }
      }
      i := i + 1;
    }
    assert files[..|files|] == files;
  }

  /** Once the run is stopped at file `i`, no later file is collected. */
  lemma {:induction false} StoppedAfter(files: seq<string>, run: string -> Call, i: nat)
    requires i < |files| && run(files[i]).Interrupted?
    ensures Collected(files, run) == Collected(files[..i], run)
  {
    InterruptStops(files, run, i);
    var j := i + 1;
    while j < |files|
      invariant i + 1 <= j <= |files|
      invariant Collected(files[..j], run) == Collected(files[..i], run)
    {
      assert files[..j + 1][..j] == files[..j];
      assert files[..j][i] == files[i];
      assert Stopped(files[..j], run);
      j := j + 1;
    }
    assert files[..|files|] == files;
  }

  // ---------------------------------------------------------------- low confidence and the summary

  /** `not result.get('success') or result.get('score', 1) < 0.70`: the score is only compared for a success. */
  function IsLow(r: Record): (low: Outcome<bool>)
    ensures !Succeeded(r) ==> low == Returned(true)
    ensures Succeeded(r) ==> low == ScoreBelow(r)
  {
    if !Succeeded(r) then Returned(true) else ScoreBelow(r)
  }

  /** The filenames `get_low_confidence_files` lists, or the exception a comparison raised. */
  function LowFiles(rs: seq<Record>): (names: Outcome<seq<Cell>>)
    ensures names.Returned? ==> |names.value| <= |rs|
  {
    if rs == [] then Returned([])
    else
      var n := |rs| - 1;
      match LowFiles(rs[..n])
      case Raised(e) => Raised(e)
      case Returned(before) =>
        match IsLow(rs[n])
        case Raised(e) => Raised(e)
        case Returned(b) => Returned(before + if b then [DictGet(rs[n], "filename", Null)] else [])
  }

  /** The loop of `get_low_confidence_files`. */
  method GetLowConfidenceFiles(results: seq<Record>) returns (names: Outcome<seq<Cell>>)
    ensures names == LowFiles(results)
  {
    var low: seq<Cell> := [];
    for i := 0 to |results|
      invariant LowFiles(results[..i]) == Returned(low)
    {
      LowFilesNext(results, i);
      var b := IsLow(results[i]);
      if b.Raised? {
        LowFilesRaisedStays(results, i + 1);
        return Raised(b.error);
      }
      if b.value {
        low := low + [DictGet(results[i], "filename", Null)];
      } else {
        assert low + [] == low;
      }
    }
    assert results[..|results|] == results;
    return Returned(low);
  }

  /** One result further along the list. */
  lemma LowFilesNext(rs: seq<Record>, i: nat)
    requires i < |rs| && LowFiles(rs[..i]).Returned?
    ensures IsLow(rs[i]).Raised? ==> LowFiles(rs[..i + 1]) == Raised(IsLow(rs[i]).error)
    ensures IsLow(rs[i]).Returned? ==>
              LowFiles(rs[..i + 1]) ==
              Returned(LowFiles(rs[..i]).value + if IsLow(rs[i]).value then [DictGet(rs[i], "filename", Null)] else [])
  {
    assert rs[..i + 1][..i] == rs[..i];
  }

  /** Once a comparison has raised, the whole call raises the same exception. */
  lemma {:induction false} LowFilesRaisedStays(rs: seq<Record>, i: nat)
    requires i <= |rs| && LowFiles(rs[..i]).Raised?
    ensures LowFiles(rs) == LowFiles(rs[..i])
  {
    var j := i;
    while j < |rs|
      invariant i <= j <= |rs|
      invariant LowFiles(rs[..j]) == LowFiles(rs[..i])
    {
      assert rs[..j + 1][..j] == rs[..j];
      j := j + 1;
    }
    assert rs[..|rs|] == rs;
  }

  /** Every failed result is listed, so the list is at least as long as the failures. */
  lemma {:induction false} FailuresListed(rs: seq<Record>)
    requires LowFiles(rs).Returned?
    ensures |LowFiles(rs).value| >= CountFailed(rs)
    decreases |rs|
  {
    if rs != [] {
      var n := |rs| - 1;
      assert LowFiles(rs[..n]).Returned?;
      FailuresListed(rs[..n]);
    }
  }

  /** The worker's result dictionaries always compare, so the list is always produced. */
  lemma {:induction false} LowFilesOfComparable(rs: seq<Record>)
    requires forall i :: 0 <= i < |rs| ==> ComparableScore(rs[i])
    ensures LowFiles(rs).Returned?
    decreases |rs|
  {
    if rs != [] {
      LowFilesOfComparable(rs[..|rs| - 1]);
      assert ComparableScore(rs[|rs| - 1]);
    }
  }

  /** The counts `print_summary` reports. */
  datatype RunSummary = RunSummary(total: nat, successful: nat, failed: int, lowConfidence: nat, successRate: real)

  /** The summary counts, or the exception listing the low-confidence files raised. */
  function SummaryOf(rs: seq<Record>): (s: Outcome<RunSummary>)
    ensures s.Returned? <==> LowFiles(rs).Returned?
    ensures s.Returned? ==> s.value.total == |rs| && s.value.successful == CountSucceeded(rs)
                            && s.value.failed == s.value.total - s.value.successful
    ensures s.Returned? && s.value.total == 0 ==> s.value.successRate == 0.0
  {
    match LowFiles(rs)
    case Raised(e) => Raised(e)
    case Returned(low) =>
      var total := |rs|;
      var successful := CountSucceeded(rs);
      Returned(RunSummary(total, successful, total - successful, |low|,
                          if total > 0 then successful as real / total as real * 100.0 else 0.0))
  }

  /** The failures counted are the results that did not succeed, all of them among the low-confidence ones. */
  lemma SummaryCounts(rs: seq<Record>)
    requires SummaryOf(rs).Returned?
    ensures SummaryOf(rs).value.failed == CountFailed(rs)
    ensures SummaryOf(rs).value.failed <= SummaryOf(rs).value.lowConfidence
    ensures 0.0 <= SummaryOf(rs).value.successRate <= 100.0
  {
    SucceededPlusFailed(rs);
    FailuresListed(rs);
    if |rs| > 0 {
      Percentage(CountSucceeded(rs), |rs|);
    }
  }

  /**
   * The low-confidence section of `print_summary` as written: it slices
   * `low_confidence`, which by then holds the count (an `int`), so it raises
   * `TypeError` as soon as one file is listed, and the logs saved after it
   * are not written.
   */
  function LowSectionAsWritten(low: seq<Cell>): (r: Outcome<seq<Cell>>)
    ensures r.Returned? <==> low == []
    ensures r.Returned? ==> r.value == []
  {
    if |low| > 0 then Raised("TypeError") else Returned([])
  }

  /** The section as intended: the first ten low-confidence filenames. */
  function LowSection(low: seq<Cell>): (shown: seq<Cell>)
    ensures |shown| <= 10 && shown <= low
    ensures |low| <= 10 ==> shown == low
    ensures |low| > 10 ==> |shown| == 10
  {
    if |low| <= 10 then low else low[..10]
  }

  /** A single failed file is enough for the summary as written to raise; the intended one shows it. */
  lemma FailureBreaksSummary(rs: seq<Record>)
    requires LowFiles(rs).Returned? && CountFailed(rs) > 0
    ensures LowSectionAsWritten(LowFiles(rs).value).Raised?
    ensures |LowSection(LowFiles(rs).value)| >= 1
  {
    FailuresListed(rs);
  }

  class Processor {
    const config: Config

    constructor(batchMode: bool, strictMode: bool, numWorkers: int)
      ensures fresh(config)
      ensures config.batchMode == batchMode && config.strictMode == strictMode
      ensures config.numWorkers == ClampWorkers(numWorkers) && config.results == []
    {
      config := new Config(batchMode, strictMode, numWorkers);
    }

    /** `process_files_sequential`. */
    method ProcessFilesSequential(files: seq<string>, run: string -> Call, clock: nat -> string)
      returns (results: seq<Record>)
      modifies config
      ensures results == Collected(files, run)
      ensures |results| <= |files|
      ensures config.results == old(config.results) + StampedFrom(results, clock, |old(config.results)|)
    {
      results := RunSequential(config, files, run, clock);
    }
  }
}
