/**
 * The batch bookkeeping of the interactive pipeline (`BatchProcessor`): every
 * result is recorded, the low-confidence ones a second time, so that their
 * challenge can be shown in bulk at the end.
 */
module BatchProcessor {
  import opened Wrappers
  import opened Values
  import opened Seqs

  /** One challenge candidate: the album's metadata, its score and its cover. */
  type Candidate = (map<string, Cell>, real, string)

  /** The outcome of processing one comic file. */
  datatype ProcessingResult = ProcessingResult(
    filename: string,
    success: bool,
    score: real,
    title: string,
    error: Option<string>,
    metadata: Option<map<string, Cell>>,
    candidates: Option<seq<Candidate>>,
    coverPath: Option<string>)

  /** `not result.success or (result.score >= 0 and result.score < 0.70)`. */
  predicate IsLowConfidence(r: ProcessingResult) {
    !r.success || (0.0 <= r.score && r.score < 0.70)
  }

  /** The results a challenge is needed for, in the order they were added. */
  function LowOf(rs: seq<ProcessingResult>): (low: seq<ProcessingResult>)
    ensures |low| <= |rs|
    ensures forall k :: 0 <= k < |low| ==> IsLowConfidence(low[k]) && low[k] in rs
    ensures forall i :: 0 <= i < |rs| && IsLowConfidence(rs[i]) ==> rs[i] in low
  {
    FilterMembers(IsLowConfidence, rs);
    Filter(IsLowConfidence, rs)
  }

  /** `sum(1 for r in results if r.success)`. */
  function Successes(rs: seq<ProcessingResult>): (n: nat)
    ensures n <= |rs|
  {
    if rs == [] then 0 else Successes(rs[..|rs| - 1]) + if rs[|rs| - 1].success then 1 else 0
  }

  /** The failures are exactly the results that did not succeed, and each of them is low-confidence. */
  lemma {:induction false} FailuresAreLow(rs: seq<ProcessingResult>)
    ensures |Filter((r: ProcessingResult) => !r.success, rs)| == |rs| - Successes(rs)
    ensures |rs| - Successes(rs) <= |LowOf(rs)|
    decreases |rs|
  {
    if rs != [] {
      FailuresAreLow(rs[..|rs| - 1]);
    }
  }

  /** A share of a positive whole, as a percentage, lies between 0 and 100. */
  lemma Percentage(part: nat, whole: nat)
    requires part <= whole && whole > 0
    ensures 0.0 <= part as real / whole as real * 100.0 <= 100.0
  {
    var q := part as real / whole as real;
    assert q * whole as real == part as real;
  }

  /** What `get_statistics` returns. */
  datatype Statistics = Statistics(total: nat, successful: nat, failed: int, lowConfidence: nat, successRate: real)

  /** One entry of `get_low_confidence_results`. */
  datatype ChallengeEntry = ChallengeEntry(filename: string, score: real, candidates: seq<Candidate>, coverPath: string)

  /** `result.cover_path and result.candidates`: both present and non-empty. */
  predicate Challengeable(r: ProcessingResult) {
    r.coverPath.Some? && r.coverPath.value != [] && r.candidates.Some? && r.candidates.value != []
  }

  function EntryOf(r: ProcessingResult): ChallengeEntry {
    ChallengeEntry(r.filename, r.score, r.candidates.GetOr([]), r.coverPath.GetOr([]))
  }

  /** The challenge entries of a list of results: the challengeable ones, in order. */
  function Challenges(rs: seq<ProcessingResult>): seq<ChallengeEntry> {
    Map(EntryOf, Filter(Challengeable, rs))
  }

  /** Every challenge entry carries the filename, score, candidates and cover of a challengeable result. */
  lemma ChallengesFrom(rs: seq<ProcessingResult>)
    ensures |Challenges(rs)| <= |rs|
    ensures forall k :: 0 <= k < |Challenges(rs)| ==>
              Challenges(rs)[k].candidates != [] && Challenges(rs)[k].coverPath != []
              && exists i :: 0 <= i < |rs| && Challengeable(rs[i]) && rs[i].filename == Challenges(rs)[k].filename
                             && rs[i].score == Challenges(rs)[k].score
  {
    var f := Filter(Challengeable, rs);
    FilterMembers(Challengeable, rs);
    forall k | 0 <= k < |f|
      ensures exists i :: 0 <= i < |rs| && rs[i] == f[k]
    {
      assert f[k] in rs;
    }
  }

  /** The loop of `get_low_confidence_results` over a list of results. */
  method ChallengeList(rs: seq<ProcessingResult>) returns (formatted: seq<ChallengeEntry>)
    ensures formatted == Challenges(rs)
  {
    formatted := [];
    for i := 0 to |rs|
      invariant formatted == Challenges(rs[..i])
    {
      FilterNext(Challengeable, rs, i);
      var before := Filter(Challengeable, rs[..i]);
      if Challengeable(rs[i]) {
        assert Map(EntryOf, before + [rs[i]]) == Map(EntryOf, before) + [EntryOf(rs[i])];
        formatted := formatted + [EntryOf(rs[i])];
      } else {
        assert Filter(Challengeable, rs[..i + 1]) == before;
      }
    }
    assert rs[..|rs|] == rs;
  }

  /** The entry names a recorded low-confidence result that can be challenged. */
  ghost predicate ChallengedFrom(rs: seq<ProcessingResult>, e: ChallengeEntry) {
    exists i :: 0 <= i < |rs| && IsLowConfidence(rs[i]) && Challengeable(rs[i]) && rs[i].filename == e.filename
  }

  class Processor {
    const interactive: bool
    const strictMode: bool
    var results: seq<ProcessingResult>
    var lowConfidenceResults: seq<ProcessingResult>

    /** The low-confidence list holds exactly the low-confidence results, in order. */
    ghost predicate Valid()
      reads this
    {
      lowConfidenceResults == LowOf(results)
    }

    constructor(interactive: bool, strictMode: bool)
      ensures Valid()
      ensures this.interactive == interactive && this.strictMode == strictMode
      ensures results == [] && lowConfidenceResults == []
    {
      this.interactive := interactive;
      this.strictMode := strictMode;
      results := [];
      lowConfidenceResults := [];
    }

    /** `add_result`: recorded once, and once more among the low-confidence results when it is one. */
    method AddResult(r: ProcessingResult)
      modifies this
      ensures results == old(results) + [r]
      ensures lowConfidenceResults == old(lowConfidenceResults) + if IsLowConfidence(r) then [r] else []
      ensures old(Valid()) ==> Valid()
    {
      assert (results + [r])[..|results|] == results;
      results := results + [r];
      if IsLowConfidence(r) {
        lowConfidenceResults := lowConfidenceResults + [r];
      }
    }

    /**
     * `get_statistics`: the counts of the recorded results, the rate being 0
     * for an empty batch. Failures are counted among the low-confidence
     * results, so there are never fewer of those.
     */
    method GetStatistics() returns (s: Statistics)
      ensures s.total == |results| && s.successful == Successes(results)
      ensures s.failed == s.total - s.successful && s.failed >= 0
      ensures s.lowConfidence == |lowConfidenceResults|
      ensures s.total == 0 ==> s.successRate == 0.0
      ensures s.total > 0 ==> s.successRate == s.successful as real / s.total as real * 100.0
      ensures 0.0 <= s.successRate <= 100.0
      ensures Valid() ==> s.failed <= s.lowConfidence <= s.total
    {
      var total := |results|;
      var successful := Successes(results);
      var rate := if total > 0 then successful as real / total as real * 100.0 else 0.0;
      if total > 0 {
        Percentage(successful, total);
      }
      if Valid() {
        FailuresAreLow(results);
      }
      s := Statistics(total, successful, total - successful, |lowConfidenceResults|, rate);
    }

    /** `get_low_confidence_results`: the challengeable low-confidence results, formatted, in order. */
    method GetLowConfidenceResults() returns (formatted: seq<ChallengeEntry>)
      ensures formatted == Challenges(lowConfidenceResults)
      ensures Valid() ==> forall k :: 0 <= k < |formatted| ==> ChallengedFrom(results, formatted[k])
    {
      formatted := ChallengeList(lowConfidenceResults);
      ChallengesFrom(lowConfidenceResults);
      if Valid() {
        forall k | 0 <= k < |formatted|
          ensures ChallengedFrom(results, formatted[k])
        {
          var j :| 0 <= j < |lowConfidenceResults| && Challengeable(lowConfidenceResults[j])
                   && lowConfidenceResults[j].filename == formatted[k].filename;
          assert lowConfidenceResults[j] in results;
          var i :| 0 <= i < |results| && results[i] == lowConfidenceResults[j];
        }
      }
    }
  }

  /** The low-confidence results are the recorded ones with some deleted. */
  lemma LowIsSubsequence(p: Processor)
    requires p.Valid()
    ensures SubsequenceOf(p.lowConfidenceResults, p.results)
  {
    FilterSubsequence(IsLowConfidence, p.results);
  }
}
