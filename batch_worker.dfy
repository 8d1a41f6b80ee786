/**
 * The batch worker (`process_single_file`): one comic file is resolved with
 * retries and exponential back-off, and the outcome is turned into the result
 * dictionary the batch log records.
 *
 * The resolver is a parameter: `resolve(k)` is what the k-th call (from 0)
 * of the metadata pipeline on this file returns or raises, the interactive
 * and strict flags being passed through to it unchanged. Sleeping is
 * recorded as the list of requested waits, in seconds.
 */
module BatchWorker {
  import opened Wrappers
  import opened Text
  import opened Values
  import opened BatchProcessor

  /** A result dictionary. */
  type Record = map<string, Cell>

  function Pow2(k: nat): (p: nat)
    ensures p >= 1
  {
    if k == 0 then 1 else 2 * Pow2(k - 1)
  }

  /** The waits after the failed attempts `0 .. k-1`: `2 ** attempt` seconds each. */
  function Backoff(k: nat): (w: seq<nat>)
    ensures |w| == k
    ensures forall i :: 0 <= i < k ==> w[i] == Pow2(i)
  {
    seq(k, i requires 0 <= i => Pow2(i))
  }

  function Sum(s: seq<nat>): nat {
    if s == [] then 0 else Sum(s[..|s| - 1]) + s[|s| - 1]
  }

  /** The back-off doubles, so `k` waits add up to `2 ** k - 1` seconds. */
  lemma {:induction false} BackoffTotal(k: nat)
    ensures Sum(Backoff(k)) == Pow2(k) - 1
  {
    if k > 0 {
      BackoffTotal(k - 1);
      assert Backoff(k)[..k - 1] == Backoff(k - 1);
    }
  }

  function OptStr(s: Option<string>): Cell {
    match s
    case None => Null
    case Some(v) => Str(v)
  }

  /** The dictionary a successful call is converted to. */
  function AsRecord(r: ProcessingResult): (d: Record)
    ensures d.Keys == {"filename", "success", "score", "title", "error", "metadata"}
    ensures d["filename"] == Str(r.filename) && d["success"] == Boolean(r.success) && d["score"] == Float(r.score)
  {
    map["filename" := Str(r.filename), "success" := Boolean(r.success), "score" := Float(r.score),
        "title" := Str(r.title), "error" := OptStr(r.error),
        "metadata" := match r.metadata case None => Null case Some(m) => Dict(m)]
  }

  /** A failed file: not successful, score 0, title `Unknown`, and the error given. */
  function Failed(filename: string, error: string): (d: Record)
    ensures d.Keys == {"filename", "success", "score", "title", "error"}
    ensures d["filename"] == Str(filename) && d["success"] == Boolean(false) && d["score"] == Float(0.0)
    ensures d["error"] == Str(error)
  {
    map["filename" := Str(filename), "success" := Boolean(false), "score" := Float(0.0),
        "title" := Str("Unknown"), "error" := Str(error)]
  }

  /** The error after the last attempt failed: the number of attempts and the last exception's text. */
  function GaveUpMessage(maxRetries: int, lastError: string): (m: string)
    ensures |m| > 13 + |lastError|
    ensures m[..13] == "Erreur après " && m[|m| - |lastError|..] == lastError
  {
    "Erreur après " + IntToStr(maxRetries) + " tentatives: " + lastError
  }

  /** The first of the attempts `i .. n-1` whose call returns. */
  function FirstReturnedFrom(resolve: nat -> Outcome<ProcessingResult>, i: nat, n: int): (k: Option<nat>)
    ensures k.Some? ==> i <= k.value < n && resolve(k.value).Returned?
                        && forall j :: i <= j < k.value ==> resolve(j).Raised?
    ensures k.None? ==> forall j :: i <= j < n ==> resolve(j).Raised?
    decreases n - i
  {
    if i >= n then None
    else if resolve(i).Returned? then Some(i)
    else FirstReturnedFrom(resolve, i + 1, n)
  }

  /** The first attempt, among `max_retries` of them, whose call returns. */
  function FirstReturned(resolve: nat -> Outcome<ProcessingResult>, n: int): Option<nat> {
    FirstReturnedFrom(resolve, 0, n)
  }

  /**
   * `process_single_file`: the first attempt that returns gives the result,
   * after a wait of `2 ** k` seconds following each failed attempt `k` but
   * the last; when every attempt fails, the last exception is reported; with
   * no attempt at all, an unknown error.
   */
  method ProcessSingleFile(filename: string, maxRetries: int, resolve: nat -> Outcome<ProcessingResult>)
    returns (result: Record, waits: seq<nat>)
    ensures FirstReturned(resolve, maxRetries).Some? ==>
              result == AsRecord(resolve(FirstReturned(resolve, maxRetries).value).value)
              && waits == Backoff(FirstReturned(resolve, maxRetries).value)
    ensures maxRetries >= 1 && FirstReturned(resolve, maxRetries).None? ==>
              result == Failed(filename, GaveUpMessage(maxRetries, resolve(maxRetries - 1).error))
              && waits == Backoff(maxRetries - 1)
    ensures maxRetries <= 0 ==> result == Failed(filename, "Erreur inconnue") && waits == []
    ensures |waits| < maxRetries || waits == []
  {
    waits := [];
    var attempt := 0;
    while attempt < maxRetries
      invariant 0 <= attempt
      invariant maxRetries >= 1 ==> attempt <= maxRetries - 1
      invariant maxRetries <= 0 ==> attempt == 0
      invariant forall j :: 0 <= j < attempt ==> resolve(j).Raised?
      invariant waits == Backoff(attempt)
      decreases maxRetries - attempt
    {
      var outcome := resolve(attempt);
      if outcome.Returned? {
        return AsRecord(outcome.value), waits;
      }
      if attempt < maxRetries - 1 {
        assert waits + [Pow2(attempt)] == Backoff(attempt + 1);
        waits := waits + [Pow2(attempt)];
      } else {
        return Failed(filename, GaveUpMessage(maxRetries, outcome.error)), waits;
      }
      attempt := attempt + 1;
    }
    return Failed(filename, "Erreur inconnue"), waits;
  }

  /** When every attempt fails, the file has waited `2 ** (max_retries - 1) - 1` seconds in all. */
  lemma AllFailedWait(maxRetries: int, resolve: nat -> Outcome<ProcessingResult>)
    requires maxRetries >= 1 && FirstReturned(resolve, maxRetries).None?
    ensures Sum(Backoff(maxRetries - 1)) == Pow2(maxRetries - 1) - 1
    ensures resolve(maxRetries - 1).Raised?
  {
    BackoffTotal(maxRetries - 1);
  }
}
