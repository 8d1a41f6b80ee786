/**
 * `MetadataMerger`: reconciling the results several scrapers return for the
 * same album. A merged result copies a base result and fills its missing
 * fields from the others; the base is chosen by confidence, by configured
 * source priority, or by agreement between sources. Results that refer to
 * the same album are grouped by a weighted similarity.
 */
module MetadataMerger {
  import opened Wrappers
  import opened Text
  import opened Values
  import opened Seqs
  import opened BaseScraper

  // ---------------------------------------------------------------- filling

  /** The value a field holds after filling: the source's only when the target's is falsy and the source's truthy. */
  function FillCell(t: Cell, s: Cell): (v: Cell)
    ensures Truthy(t) ==> v == t
    ensures !Truthy(t) ==> v == (if Truthy(s) then s else t)
  {
    if !Truthy(t) && Truthy(s) then s else t
  }

  /** What `_fill_missing_fields(target, source)` leaves in `target`. */
  function Fill(t: ScraperResult, s: ScraperResult): (r: ScraperResult)
    ensures r.source == t.source && r.url == t.url && r.confidence == t.confidence
    ensures r.retrievedAt == t.retrievedAt
    ensures r.extra == t.extra + s.extra
  {
    t.(title := FillCell(t.title, s.title), series := FillCell(t.series, s.series),
       volume := FillCell(t.volume, s.volume), writer := FillCell(t.writer, s.writer),
       penciller := FillCell(t.penciller, s.penciller), colorist := FillCell(t.colorist, s.colorist),
       inker := FillCell(t.inker, s.inker), editor := FillCell(t.editor, s.editor),
       year := FillCell(t.year, s.year), isbn := FillCell(t.isbn, s.isbn),
       pages := FillCell(t.pages, s.pages), format := FillCell(t.format, s.format),
       summary := FillCell(t.summary, s.summary), coverUrl := FillCell(t.coverUrl, s.coverUrl),
       coverData := FillCell(t.coverData, s.coverData), extra := t.extra + s.extra)
  }

  /** Filling works field by field. */
  lemma FillGet(t: ScraperResult, s: ScraperResult, f: Field)
    ensures Get(Fill(t, s), f) == FillCell(Get(t, f), Get(s, f))
  {
    match f
    case Title =>
    case Series =>
    case Volume =>
    case Writer =>
    case Penciller =>
    case Colorist =>
    case Inker =>
    case Editor =>
    case Year =>
    case Isbn =>
    case Pages =>
    case Format =>
    case Summary =>
    case CoverUrl =>
    case CoverData =>
  }

  /** `m` is `target` with the first `i` fields of `AllFields` filled from `source`. */
  ghost predicate FilledUpTo(m: ScraperResult, target: ScraperResult, source: ScraperResult, i: nat)
    requires i <= |AllFields|
  {
    SameHeader(m, target)
    && forall f :: Get(m, f) == if f in AllFields[..i] then FillCell(Get(target, f), Get(source, f)) else Get(target, f)
  }

  /** One step of the field loop of `_fill_missing_fields`. */
  function FillStep(m: ScraperResult, source: ScraperResult, field: Field): ScraperResult {
    if !Truthy(Get(m, field)) && Truthy(Get(source, field)) then Set(m, field, Get(source, field)) else m
  }

  lemma FillStepNext(m: ScraperResult, target: ScraperResult, source: ScraperResult, i: nat)
    requires i < |AllFields| && FilledUpTo(m, target, source, i)
    ensures FilledUpTo(FillStep(m, source, AllFields[i]), target, source, i + 1)
  {
    assert AllFields[..i + 1] == AllFields[..i] + [AllFields[i]];
  }

  lemma FilledAll(m: ScraperResult, target: ScraperResult, source: ScraperResult)
    requires FilledUpTo(m, target, source, |AllFields|)
    ensures m.(extra := m.extra + source.extra) == Fill(target, source)
  {
    var r := m.(extra := m.extra + source.extra);
    forall f
      ensures Get(r, f) == Get(Fill(target, source), f)
    {
      AllFieldsListed(f);
      FillGet(target, source, f);
      assert AllFields[..|AllFields|] == AllFields;
    }
    ResultExt(r, Fill(target, source));
  }

  /**
   * `_fill_missing_fields`: walks the fifteen fields, copying a truthy source
   * value over a falsy target value, then merges `extra` with the source's
   * keys winning.
   */
  method FillMissingFields(target: ScraperResult, source: ScraperResult) returns (merged: ScraperResult)
    ensures merged == Fill(target, source)
  {
    merged := target;
    for i := 0 to |AllFields|
      invariant FilledUpTo(merged, target, source, i)
    {
      var field := AllFields[i];
      FillStepNext(merged, target, source, i);
      var targetValue := Get(merged, field);
      var sourceValue := Get(source, field);
      if !Truthy(targetValue) && Truthy(sourceValue) {
        merged := Set(merged, field, sourceValue);
      }
    }
    FilledAll(merged, target, source);
    if source.extra != map[] {
      merged := merged.(extra := merged.extra + source.extra);
    }
  }

  /** Filling `t` from each of `rs` in turn. */
  function FillAll(t: ScraperResult, rs: seq<ScraperResult>): (r: ScraperResult)
    ensures r.source == t.source && r.url == t.url && r.confidence == t.confidence
    ensures r.retrievedAt == t.retrievedAt
  {
    if rs == [] then t else Fill(FillAll(t, rs[..|rs| - 1]), rs[|rs| - 1])
  }

  /** The values field `f` holds in each of `rs`. */
  function FieldValues(rs: seq<ScraperResult>, f: Field): (vs: seq<Cell>)
    ensures |vs| == |rs| && forall i :: 0 <= i < |rs| ==> vs[i] == Get(rs[i], f)
  {
    seq(|rs|, i requires 0 <= i < |rs| => Get(rs[i], f))
  }

  /** The first truthy value of `vs`, if any. */
  function FirstTruthy(vs: seq<Cell>): (v: Option<Cell>)
    ensures v.Some? ==> Truthy(v.value) && v.value in vs
    ensures v.None? ==> forall i :: 0 <= i < |vs| ==> !Truthy(vs[i])
  {
    if vs == [] then None else if Truthy(vs[0]) then Some(vs[0]) else FirstTruthy(vs[1..])
  }

  lemma {:induction false} FirstTruthySnoc(vs: seq<Cell>, x: Cell)
    ensures FirstTruthy(vs + [x])
            == if FirstTruthy(vs).Some? then FirstTruthy(vs) else if Truthy(x) then Some(x) else None
    decreases |vs|
  {
    if vs != [] {
      assert (vs + [x])[1..] == vs[1..] + [x];
      FirstTruthySnoc(vs[1..], x);
    } else {
      assert [x][1..] == [];
    }
  }

  /**
   * Filling never overwrites a truthy field; a falsy field takes the first
   * truthy value the sources hold, in their order, and stays as it was when
   * none has one.
   */
  lemma {:induction false} FillAllField(t: ScraperResult, rs: seq<ScraperResult>, f: Field)
    ensures Truthy(Get(t, f)) ==> Get(FillAll(t, rs), f) == Get(t, f)
    ensures !Truthy(Get(t, f)) ==> Get(FillAll(t, rs), f) == FirstTruthy(FieldValues(rs, f)).GetOr(Get(t, f))
    decreases |rs|
  {
    if rs != [] {
      var init := rs[..|rs| - 1];
      FillAllField(t, init, f);
      FillGet(FillAll(t, init), rs[|rs| - 1], f);
      assert FieldValues(rs, f) == FieldValues(init, f) + [Get(rs[|rs| - 1], f)];
      FirstTruthySnoc(FieldValues(init, f), Get(rs[|rs| - 1], f));
    }
  }

  /** After filling, `extra` holds exactly the keys of the target and of every source. */
  lemma {:induction false} FillAllExtraKeys(t: ScraperResult, rs: seq<ScraperResult>, k: string)
    ensures k in FillAll(t, rs).extra <==> k in t.extra || exists i :: 0 <= i < |rs| && k in rs[i].extra
    decreases |rs|
  {
    if rs != [] {
      var init := rs[..|rs| - 1];
      FillAllExtraKeys(t, init, k);
      if exists i :: 0 <= i < |rs| && k in rs[i].extra {
        var i :| 0 <= i < |rs| && k in rs[i].extra;
        if i < |init| {
          assert k in init[i].extra;
        }
      }
      if exists i :: 0 <= i < |init| && k in init[i].extra {
        var i :| 0 <= i < |init| && k in init[i].extra;
        assert k in rs[i].extra;
      }
    }
  }

  /** A key of `extra` takes the value of the last source that has it. */
  lemma {:induction false} FillAllExtraLast(t: ScraperResult, rs: seq<ScraperResult>, i: nat, k: string)
    requires i < |rs| && k in rs[i].extra
    requires forall j :: i < j < |rs| ==> k !in rs[j].extra
    ensures k in FillAll(t, rs).extra && FillAll(t, rs).extra[k] == rs[i].extra[k]
    decreases |rs|
  {
    var init := rs[..|rs| - 1];
    if i < |init| {
      assert k !in rs[|rs| - 1].extra;
      FillAllExtraLast(t, init, i, k);
    }
  }

  /** A key of the target's `extra` that no source has keeps its value. */
  lemma {:induction false} FillAllExtraKept(t: ScraperResult, rs: seq<ScraperResult>, k: string)
    requires k in t.extra && forall j :: 0 <= j < |rs| ==> k !in rs[j].extra
    ensures k in FillAll(t, rs).extra && FillAll(t, rs).extra[k] == t.extra[k]
    decreases |rs|
  {
    if rs != [] {
      var init := rs[..|rs| - 1];
      assert k !in rs[|rs| - 1].extra;
      FillAllExtraKept(t, init, k);
    }
  }

  // ---------------------------------------------------------------- base choice

  /** `_create_merged_result`: a copy of the base named after it, stamped `now`. */
  function CreateMerged(base: ScraperResult, now: int): (m: ScraperResult)
    ensures m.source == "merged_" + base.source
    ensures m.url == base.url && m.confidence == base.confidence
    ensures forall f :: Get(m, f) == Get(base, f)
    ensures m.extra == base.extra && m.retrievedAt == now
  {
    base.(source := "merged_" + base.source, retrievedAt := now)
  }

  function Confidence(r: ScraperResult): real {
    r.confidence
  }

  /** `priority_map.get(result.source, 999)`. */
  function Priority(priorityMap: map<string, int>, r: ScraperResult): int {
    if r.source in priorityMap then priorityMap[r.source] else 999
  }

  /** Ascending priority as a descending key, so that a stable descending sort orders by priority. */
  function PriorityKey(priorityMap: map<string, int>): (key: ScraperResult -> real)
    ensures forall r :: key(r) == -(Priority(priorityMap, r) as real)
  {
    r => -(Priority(priorityMap, r) as real)
  }

  /** The merge of a sorted list: the copy of its head filled from the rest in order. */
  function MergeSorted(sorted: seq<ScraperResult>, now: int): ScraperResult
    requires |sorted| > 0
  {
    FillAll(CreateMerged(sorted[0], now), sorted[1..])
  }

  /** What `_merge_by_confidence` returns. */
  function ConfidenceMerge(results: seq<ScraperResult>, now: int): ScraperResult
    requires |results| > 0
  {
    MergeSorted(SortDesc(results, Confidence), now)
  }

  /** What `_merge_by_priority` returns. */
  function PriorityMerge(results: seq<ScraperResult>, priorityMap: map<string, int>, now: int): ScraperResult
    requires |results| > 0
  {
    MergeSorted(SortDesc(results, PriorityKey(priorityMap)), now)
  }

  /** Merging a sorted list: sort, copy the head, fill from the rest one by one. */
  method MergeSortedLoop(sorted: seq<ScraperResult>, now: int) returns (merged: ScraperResult)
    requires |sorted| > 0
    ensures merged == MergeSorted(sorted, now)
  {
    var base := sorted[0];
    merged := CreateMerged(base, now);
    assert sorted[1..1] == [];
    for i := 1 to |sorted|
      invariant merged == FillAll(CreateMerged(base, now), sorted[1..i])
    {
      FillAllNext(CreateMerged(base, now), sorted, i);
      merged := FillMissingFields(merged, sorted[i]);
    }
    assert sorted[1..|sorted|] == sorted[1..];
  }

  /** Filling from one more source of a sorted list. */
  lemma FillAllNext(t: ScraperResult, sorted: seq<ScraperResult>, i: nat)
    requires 1 <= i < |sorted|
    ensures FillAll(t, sorted[1..i + 1]) == Fill(FillAll(t, sorted[1..i]), sorted[i])
  {
    var rs := sorted[1..i + 1];
    assert rs[..|rs| - 1] == sorted[1..i] && rs[|rs| - 1] == sorted[i];
    assert FillAll(t, rs) == Fill(FillAll(t, rs[..|rs| - 1]), rs[|rs| - 1]);
  }

  /** `_merge_by_confidence`. */
  method MergeByConfidence(results: seq<ScraperResult>, now: int) returns (merged: ScraperResult)
    requires |results| > 0
    ensures merged == ConfidenceMerge(results, now)
  {
    var sortedResults := SortDesc(results, Confidence);
    merged := MergeSortedLoop(sortedResults, now);
  }

  /** `_merge_by_priority`. */
  method MergeByPriority(results: seq<ScraperResult>, priorityMap: map<string, int>, now: int)
    returns (merged: ScraperResult)
    requires |results| > 0
    ensures merged == PriorityMerge(results, priorityMap, now)
  {
    var sortedResults := SortDesc(results, PriorityKey(priorityMap));
    merged := MergeSortedLoop(sortedResults, now);
  }

  /**
   * The best-confidence merge is built on the first result of maximal
   * confidence: it carries that result's url and confidence, is named
   * "merged_" + its source, and keeps each of its truthy fields; a falsy field
   * takes the first truthy value among the other results in descending
   * confidence.
   */
  lemma ConfidenceMergeProperties(results: seq<ScraperResult>, now: int, f: Field)
    requires |results| > 0
    ensures var base := MaxBy(results, Confidence);
            var m := ConfidenceMerge(results, now);
            var rest := SortDesc(results, Confidence)[1..];
            m.source == "merged_" + base.source && m.url == base.url
            && m.confidence == base.confidence && m.retrievedAt == now
            && (forall r :: r in results ==> r.confidence <= m.confidence)
            && (Truthy(Get(base, f)) ==> Get(m, f) == Get(base, f))
            && (!Truthy(Get(base, f)) ==> Get(m, f) == FirstTruthy(FieldValues(rest, f)).GetOr(Get(base, f)))
            && multiset(rest) + multiset{base} == multiset(results)
  {
    ConfidenceMergeHead(results, now);
    ConfidenceMergeField(results, now, f);
  }

  /** The merge carries the identity of the most confident result, which is the head of the sort. */
  lemma ConfidenceMergeHead(results: seq<ScraperResult>, now: int)
    requires |results| > 0
    ensures var base := MaxBy(results, Confidence);
            var m := ConfidenceMerge(results, now);
            var sorted := SortDesc(results, Confidence);
            sorted[0] == base
            && m.source == "merged_" + base.source && m.url == base.url
            && m.confidence == base.confidence && m.retrievedAt == now
            && multiset(sorted[1..]) + multiset{base} == multiset(results)
  {
    var sorted := SortDesc(results, Confidence);
    SortDescHead(results, Confidence);
    MergeSortedHeader(sorted, now);
    HeadRest(sorted);
  }

  /** A merge carries the url and confidence of its base. */
  lemma MergeSortedHeader(sorted: seq<ScraperResult>, now: int)
    requires |sorted| > 0
    ensures var m := MergeSorted(sorted, now);
            m.source == "merged_" + sorted[0].source && m.url == sorted[0].url
            && m.confidence == sorted[0].confidence && m.retrievedAt == now
  {
  }

  /** Field `f` of the merge: the base's own value when truthy, else the first truthy one after it. */
  lemma ConfidenceMergeField(results: seq<ScraperResult>, now: int, f: Field)
    requires |results| > 0
    ensures var sorted := SortDesc(results, Confidence);
            var base := sorted[0];
            var m := ConfidenceMerge(results, now);
            (Truthy(Get(base, f)) ==> Get(m, f) == Get(base, f))
            && (!Truthy(Get(base, f)) ==> Get(m, f) == FirstTruthy(FieldValues(sorted[1..], f)).GetOr(Get(base, f)))
  {
    var sorted := SortDesc(results, Confidence);
    FillAllField(CreateMerged(sorted[0], now), sorted[1..], f);
  }

  /**
   * The priority merge is built on the first result whose source has the
   * smallest priority (999 when unmapped); its fields are filled from the
   * others in ascending priority.
   */
  lemma PriorityMergeProperties(results: seq<ScraperResult>, priorityMap: map<string, int>, now: int, f: Field)
    requires |results| > 0
    ensures var sorted := SortDesc(results, PriorityKey(priorityMap));
            var base := sorted[0];
            var m := PriorityMerge(results, priorityMap, now);
            base in results
            && (forall r :: r in results ==> Priority(priorityMap, base) <= Priority(priorityMap, r))
            && (forall i, j :: 0 <= i < j < |sorted| ==> Priority(priorityMap, sorted[i]) <= Priority(priorityMap, sorted[j]))
            && m.source == "merged_" + base.source && m.url == base.url && m.confidence == base.confidence
            && (Truthy(Get(base, f)) ==> Get(m, f) == Get(base, f))
            && (!Truthy(Get(base, f)) ==> Get(m, f) == FirstTruthy(FieldValues(sorted[1..], f)).GetOr(Get(base, f)))
  {
    var key := PriorityKey(priorityMap);
    var sorted := SortDesc(results, key);
    SortDescHead(results, key);
    SortDescOrdered(results, key);
    FillAllField(CreateMerged(sorted[0], now), sorted[1..], f);
  }

  /** Among results of equal priority the earliest in the input becomes the base. */
  lemma PriorityTieKeepsOrder(results: seq<ScraperResult>, priorityMap: map<string, int>)
    requires |results| > 0
    ensures var base := SortDesc(results, PriorityKey(priorityMap))[0];
            exists i :: 0 <= i < |results| && results[i] == base
                        && forall j :: 0 <= j < i ==> Priority(priorityMap, results[j]) > Priority(priorityMap, base)
  {
    SortDescHead(results, PriorityKey(priorityMap));
  }

  // ---------------------------------------------------------------- consensus

  /** The fields `_merge_by_consensus` counts votes for. */
  const ConsensusFields: seq<Field> := [Title, Series, Volume, Year, Editor]

  lemma ConsensusFieldsDistinct()
    ensures forall a, b :: 0 <= a < b < |ConsensusFields| ==> ConsensusFields[a] != ConsensusFields[b]
  {
  }

  /** The counted fields hold values whose `str` is modelled (strings, integers, booleans, `None`). */
  predicate Countable(r: ScraperResult) {
    Showable(r.title) && Showable(r.series) && Showable(r.volume) && Showable(r.year) && Showable(r.editor)
  }

  lemma CountableField(r: ScraperResult, f: Field)
    requires Countable(r) && f in ConsensusFields
    ensures Showable(Get(r, f))
  {
  }

  /** The field types the dataclass declares make a result countable. */
  lemma WellTypedCountable(r: ScraperResult)
    requires WellTyped(r)
    ensures Countable(r)
  {
    assert Series in TextFields && Editor in TextFields;
  }

  predicate AllCountable(rs: seq<ScraperResult>) {
    forall i :: 0 <= i < |rs| ==> Countable(rs[i])
  }

  /** `str(value)` of every truthy value of field `f`, in result order. */
  function Votes(rs: seq<ScraperResult>, f: Field): (vs: seq<string>)
    requires f in ConsensusFields && AllCountable(rs)
    ensures forall v :: v in vs ==> |v| > 0
  {
    if rs == [] then []
    else
      var last := Get(rs[|rs| - 1], f);
      CountableField(rs[|rs| - 1], f);
      Votes(rs[..|rs| - 1], f) + (if Truthy(last) then [Show(last)] else [])
  }

  /** A `defaultdict(int)` of vote counts: its keys in insertion order and the counts. */
  datatype Tally = Tally(keys: seq<string>, counts: map<string, nat>)

  /** The distinct elements of `s` in order of first appearance. */
  function Distinct(s: seq<string>): (d: seq<string>)
    ensures forall x :: x in d <==> x in s
  {
    if s == [] then []
    else
      var d := Distinct(s[..|s| - 1]);
      assert s == s[..|s| - 1] + [s[|s| - 1]];
      if s[|s| - 1] in d then d else d + [s[|s| - 1]]
  }

  /** How many times each vote occurs. */
  function Counts(votes: seq<string>): map<string, nat> {
    map v | v in votes :: multiset(votes)[v]
  }

  /** The tally of `votes`: each distinct vote, first seen first, with its number of occurrences. */
  function TallyOf(votes: seq<string>): (t: Tally)
    ensures forall v :: v in t.counts <==> v in votes
  {
    Tally(Distinct(votes), Counts(votes))
  }

  /** `field_values[field][vote] += 1`. */
  function AddVote(t: Tally, v: string): Tally {
    Tally(if v in t.counts then t.keys else t.keys + [v], Bump(t.counts, v))
  }

  /** One more occurrence of `v`: a missing key starts at 1. */
  function Bump(counts: map<string, nat>, v: string): map<string, nat> {
    if v in counts then counts[v := counts[v] + 1] else counts[v := 1]
  }

  /** Adding a vote to the tally of `votes` gives the tally of `votes + [v]`. */
  lemma AddVoteTallyOf(votes: seq<string>, v: string)
    ensures AddVote(TallyOf(votes), v) == TallyOf(votes + [v])
  {
    var s := votes + [v];
    assert s[..|s| - 1] == votes;
    assert Distinct(s) == AddVote(TallyOf(votes), v).keys;
    AddVoteCounts(votes, v);
  }

  /** One more vote bumps its count. */
  lemma AddVoteCounts(votes: seq<string>, v: string)
    ensures Bump(Counts(votes), v) == Counts(votes + [v])
  {
    var s := votes + [v];
    var ms := multiset(s);
    assert ms == multiset(votes) + multiset{v};
    var a := Bump(Counts(votes), v);
    var b := Counts(s);
    forall k | k in b
      ensures k in a
    {
      assert k in votes || k == v;
    }
    forall k | k in a
      ensures k in b && a[k] == b[k]
    {
      assert k in s;
      if k == v {
        assert ms[v] == multiset(votes)[v] + 1;
        if v !in votes {
          assert multiset(votes)[v] == 0;
        }
      } else {
        assert ms[k] == multiset(votes)[k];
      }
    }
    assert a.Keys == b.Keys;
  }

  lemma EmptyTally()
    ensures TallyOf([]) == Tally([], map[])
  {
  }

  /** Count of a key, 0 for a missing key, as a `max` key. */
  function CountKey(counts: map<string, nat>): (key: string -> real)
    ensures forall k :: k in counts ==> key(k) == counts[k] as real
  {
    k => if k in counts then counts[k] as real else 0.0
  }

  /** `max(values.items(), key=count)`: the first key, in insertion order, of largest count. */
  function Winner(votes: seq<string>): (w: string)
    requires votes != []
  {
    var t := TallyOf(votes);
    assert votes[0] in t.keys;
    MaxBy(t.keys, CountKey(t.counts))
  }

  /**
   * The winner is a vote at least as frequent as every other, and the first
   * of those in order of first appearance.
   */
  lemma WinnerProperties(votes: seq<string>)
    requires votes != []
    ensures var w := Winner(votes);
            w in votes
            && (forall v :: v in votes ==> multiset(votes)[v] <= multiset(votes)[w])
            && exists i :: 0 <= i < |Distinct(votes)| && Distinct(votes)[i] == w
                 && forall j :: 0 <= j < i ==> multiset(votes)[Distinct(votes)[j]] < multiset(votes)[w]
  {
    var t := TallyOf(votes);
    assert votes[0] in t.keys;
    var key := CountKey(t.counts);
    var w := MaxBy(t.keys, key);
    forall v | v in votes
      ensures multiset(votes)[v] <= multiset(votes)[w]
    {
      assert v in t.keys;
      assert key(v) <= key(w);
    }
    var i :| 0 <= i < |t.keys| && t.keys[i] == w && forall j :: 0 <= j < i ==> key(t.keys[j]) < key(w);
    forall j | 0 <= j < i
      ensures multiset(votes)[t.keys[j]] < multiset(votes)[w]
    {
      assert t.keys[j] in votes;
      assert key(t.keys[j]) < key(w);
    }
  }

  /** The winning vote when it occurs at least `minAgreement` times. */
  function Agreement(votes: seq<string>, minAgreement: int): Option<string> {
    if votes == [] then None
    else if multiset(votes)[Winner(votes)] >= minAgreement then Some(Winner(votes))
    else None
  }

  /**
   * An agreed value exists exactly when some vote occurs at least
   * `minAgreement` times, and it is then the winner of the vote.
   */
  lemma AgreementProperties(votes: seq<string>, minAgreement: int)
    ensures var a := Agreement(votes, minAgreement);
            (a.None? <==> forall v :: v in votes ==> multiset(votes)[v] < minAgreement)
            && (a.Some? ==> a.value == Winner(votes) && a.value in votes
                            && multiset(votes)[a.value] >= minAgreement)
  {
    if votes != [] {
      var w := Winner(votes);
      WinnerProperties(votes);
      if multiset(votes)[w] < minAgreement {
        forall v | v in votes
          ensures multiset(votes)[v] < minAgreement
        {
          assert multiset(votes)[v] <= multiset(votes)[w];
        }
      }
    }
  }

  /** The value of field `f` at least `minAgreement` results agree on, if any. */
  function Agreed(rs: seq<ScraperResult>, f: Field, minAgreement: int): Option<string>
    requires f in ConsensusFields && AllCountable(rs)
  {
    Agreement(Votes(rs, f), minAgreement)
  }

  /** The fields among `fields` with an agreed value, and that value. */
  function ConsensusOver(rs: seq<ScraperResult>, minAgreement: int, fields: seq<Field>): (c: map<Field, string>)
    requires AllCountable(rs) && forall f :: f in fields ==> f in ConsensusFields
    ensures forall f :: f in c ==> f in fields && Agreed(rs, f, minAgreement) == Some(c[f])
    ensures forall f :: f in fields && Agreed(rs, f, minAgreement).Some? ==> f in c
  {
    if fields == [] then map[]
    else
      var c := ConsensusOver(rs, minAgreement, fields[..|fields| - 1]);
      var f := fields[|fields| - 1];
      assert fields == fields[..|fields| - 1] + [f];
      var a := Agreed(rs, f, minAgreement);
      if a.Some? then c[f := a.value] else c
  }

  lemma ConsensusOverNext(rs: seq<ScraperResult>, minAgreement: int, j: nat)
    requires AllCountable(rs) && j < |ConsensusFields|
    ensures var a := Agreed(rs, ConsensusFields[j], minAgreement);
            var c := ConsensusOver(rs, minAgreement, ConsensusFields[..j]);
            ConsensusOver(rs, minAgreement, ConsensusFields[..j + 1])
            == if a.Some? then c[ConsensusFields[j] := a.value] else c
  {
    TakeNext(ConsensusFields, j);
    ConsensusOverSnoc(rs, minAgreement, ConsensusFields[..j], ConsensusFields[j]);
  }

  /** One more field: its agreed value, if any, is added. */
  lemma ConsensusOverSnoc(rs: seq<ScraperResult>, minAgreement: int, fields: seq<Field>, f: Field)
    requires AllCountable(rs) && f in ConsensusFields && forall g :: g in fields ==> g in ConsensusFields
    ensures var a := Agreed(rs, f, minAgreement);
            var c := ConsensusOver(rs, minAgreement, fields);
            ConsensusOver(rs, minAgreement, fields + [f]) == if a.Some? then c[f := a.value] else c
  {
    assert (fields + [f])[..|fields|] == fields;
  }

  /** The `consensus` dictionary: the counted fields with an agreed value, and that value. */
  function ConsensusMap(rs: seq<ScraperResult>, minAgreement: int): (c: map<Field, string>)
    requires AllCountable(rs)
    ensures forall f :: f in c ==> f in ConsensusFields && Agreed(rs, f, minAgreement) == Some(c[f])
    ensures forall f :: f in ConsensusFields && Agreed(rs, f, minAgreement).Some? ==> f in c
  {
    ConsensusOver(rs, minAgreement, ConsensusFields)
  }

  /** The most common vote in a tally, and whether it reaches `minAgreement`, is the agreed value. */
  lemma DecideField(rs: seq<ScraperResult>, fieldValues: map<Field, Tally>, minAgreement: int, f: Field)
    requires AllCountable(rs) && f in ConsensusFields && TallyAt(fieldValues, rs, f, |rs|)
    ensures f !in fieldValues ==> Agreed(rs, f, minAgreement).None?
    ensures f in fieldValues ==>
              var t := fieldValues[f];
              t.keys != [] && MaxBy(t.keys, CountKey(t.counts)) in t.counts
              && Agreed(rs, f, minAgreement)
                 == if t.counts[MaxBy(t.keys, CountKey(t.counts))] >= minAgreement
                    then Some(MaxBy(t.keys, CountKey(t.counts))) else None
  {
    assert rs[..|rs|] == rs;
    if f in fieldValues {
      var votes := Votes(rs, f);
      assert votes[0] in fieldValues[f].keys;
      WinnerProperties(votes);
    }
  }

  /** `setattr(merged, field, value)` for each agreed field among `fields`. */
  function ApplyFields(m: ScraperResult, c: map<Field, string>, fields: seq<Field>): (r: ScraperResult)
    ensures SameHeader(r, m)
    ensures forall f :: Get(r, f) == if f in c && f in fields then Str(c[f]) else Get(m, f)
  {
    if fields == [] then m
    else
      var r := ApplyFields(m, c, fields[..|fields| - 1]);
      var f := fields[|fields| - 1];
      assert fields == fields[..|fields| - 1] + [f];
      if f in c then Set(r, f, Str(c[f])) else r
  }

  /** What `_merge_by_consensus` returns. */
  function ConsensusMerge(rs: seq<ScraperResult>, minAgreement: int, now: int): ScraperResult
    requires |rs| > 0 && AllCountable(rs)
  {
    if |rs| < minAgreement then ConfidenceMerge(rs, now)
    else
      var c := ConsensusMap(rs, minAgreement);
      if c == map[] then ConfidenceMerge(rs, now)
      else FillAll(ApplyFields(CreateMerged(SortDesc(rs, Confidence)[0], now), c, ConsensusFields), rs)
  }

  /** The tally of field `f` after the votes of the first `k` results. */
  ghost predicate TallyAt(fieldValues: map<Field, Tally>, rs: seq<ScraperResult>, f: Field, k: nat)
    requires f in ConsensusFields && AllCountable(rs) && k <= |rs|
  {
    (f in fieldValues <==> Votes(rs[..k], f) != [])
    && (f in fieldValues ==> fieldValues[f] == TallyOf(Votes(rs[..k], f)))
  }

  /**
   * The tallies after the votes of results `0..i-1` for every field, and of
   * result `i` as well for the first `j` counted fields.
   */
  ghost predicate Tallied(fieldValues: map<Field, Tally>, rs: seq<ScraperResult>, i: nat, j: nat)
    requires AllCountable(rs) && j <= |ConsensusFields| && (if j == 0 then i <= |rs| else i < |rs|)
  {
    (forall f :: f in fieldValues ==> f in ConsensusFields)
    && forall jj :: 0 <= jj < |ConsensusFields| ==>
         TallyAt(fieldValues, rs, ConsensusFields[jj], if jj < j then i + 1 else i)
  }

  /** `if value: field_values[field][str(value)] += 1`. */
  function CountVote(fieldValues: map<Field, Tally>, f: Field, value: Cell): map<Field, Tally>
    requires Showable(value)
  {
    if Truthy(value) then
      fieldValues[f := AddVote(if f in fieldValues then fieldValues[f] else Tally([], map[]), Show(value))]
    else fieldValues
  }

  lemma VotesSnoc(rs: seq<ScraperResult>, i: nat, f: Field)
    requires AllCountable(rs) && i < |rs| && f in ConsensusFields
    ensures Showable(Get(rs[i], f))
    ensures Votes(rs[..i + 1], f)
            == Votes(rs[..i], f) + (if Truthy(Get(rs[i], f)) then [Show(Get(rs[i], f))] else [])
  {
    CountableField(rs[i], f);
    assert rs[..i + 1][..i] == rs[..i];
  }

  /** Counting result `i` brings the tally of its own field from `i` to `i + 1` results. */
  lemma CountVoteOwn(fieldValues: map<Field, Tally>, rs: seq<ScraperResult>, i: nat, f: Field)
    requires AllCountable(rs) && i < |rs| && f in ConsensusFields && TallyAt(fieldValues, rs, f, i)
    ensures Showable(Get(rs[i], f))
    ensures TallyAt(CountVote(fieldValues, f, Get(rs[i], f)), rs, f, i + 1)
  {
    VotesSnoc(rs, i, f);
    CountVoteTally(fieldValues, f, Votes(rs[..i], f), Get(rs[i], f));
  }

  /** Counting one value turns the tally of `before` into the tally of `before` plus that vote. */
  lemma CountVoteTally(fieldValues: map<Field, Tally>, f: Field, before: seq<string>, value: Cell)
    requires Showable(value)
    requires (f in fieldValues <==> before != []) && (f in fieldValues ==> fieldValues[f] == TallyOf(before))
    ensures var after := before + (if Truthy(value) then [Show(value)] else []);
            var fv := CountVote(fieldValues, f, value);
            (f in fv <==> after != []) && (f in fv ==> fv[f] == TallyOf(after))
  {
    if Truthy(value) {
      var t := if f in fieldValues then fieldValues[f] else Tally([], map[]);
      EmptyTally();
      assert t == TallyOf(before);
      AddVoteTallyOf(before, Show(value));
    } else {
      assert before + [] == before;
    }
  }

  lemma CountVoteStep(fieldValues: map<Field, Tally>, rs: seq<ScraperResult>, i: nat, j: nat)
    requires AllCountable(rs) && i < |rs| && j < |ConsensusFields| && Tallied(fieldValues, rs, i, j)
    ensures Showable(Get(rs[i], ConsensusFields[j]))
    ensures Tallied(CountVote(fieldValues, ConsensusFields[j], Get(rs[i], ConsensusFields[j])), rs, i, j + 1)
  {
    ConsensusFieldsDistinct();
    var field := ConsensusFields[j];
    var fv' := CountVote(fieldValues, field, Get(rs[i], field));
    assert TallyAt(fieldValues, rs, field, i);
    CountVoteOwn(fieldValues, rs, i, field);
    forall jj | 0 <= jj < |ConsensusFields|
      ensures TallyAt(fv', rs, ConsensusFields[jj], if jj < j + 1 then i + 1 else i)
    {
      if jj != j {
        var g := ConsensusFields[jj];
        assert g != field;
        assert TallyAt(fieldValues, rs, g, if jj < j then i + 1 else i);
      }
    }
  }

  lemma TalliedNext(fieldValues: map<Field, Tally>, rs: seq<ScraperResult>, i: nat)
    requires AllCountable(rs) && i < |rs| && Tallied(fieldValues, rs, i, |ConsensusFields|)
    ensures Tallied(fieldValues, rs, i + 1, 0)
  {
  }

  /** The first loop of `_merge_by_consensus`: the vote tallies of the counted fields. */
  method CountVotes(rs: seq<ScraperResult>) returns (fieldValues: map<Field, Tally>)
    requires AllCountable(rs)
    ensures forall f :: f in fieldValues ==> f in ConsensusFields
    ensures forall f :: f in ConsensusFields ==> TallyAt(fieldValues, rs, f, |rs|)
  {
    fieldValues := map[];
    for i := 0 to |rs|
      invariant Tallied(fieldValues, rs, i, 0)
    {
      fieldValues := CountResultVotes(fieldValues, rs, i);
    }
    TalliedAll(fieldValues, rs);
  }

  /** The inner loop: the votes of result `i` for each counted field. */
  method CountResultVotes(fieldValues: map<Field, Tally>, rs: seq<ScraperResult>, i: nat)
    returns (counted: map<Field, Tally>)
    requires AllCountable(rs) && i < |rs| && Tallied(fieldValues, rs, i, 0)
    ensures Tallied(counted, rs, i + 1, 0)
  {
    var result := rs[i];
    counted := fieldValues;
    for j := 0 to |ConsensusFields|
      invariant Tallied(counted, rs, i, j)
    {
      var field := ConsensusFields[j];
      var value := Get(result, field);
      CountVoteStep(counted, rs, i, j);
      if Truthy(value) {
        var t := if field in counted then counted[field] else Tally([], map[]);
        counted := counted[field := AddVote(t, Show(value))];
      }
    }
    TalliedNext(counted, rs, i);
  }

  lemma TalliedAll(fieldValues: map<Field, Tally>, rs: seq<ScraperResult>)
    requires AllCountable(rs) && Tallied(fieldValues, rs, |rs|, 0)
    ensures forall f :: f in fieldValues ==> f in ConsensusFields
    ensures forall f :: f in ConsensusFields ==> TallyAt(fieldValues, rs, f, |rs|)
  {
    forall f | f in ConsensusFields
      ensures TallyAt(fieldValues, rs, f, |rs|)
    {
      var jj :| 0 <= jj < |ConsensusFields| && ConsensusFields[jj] == f;
    }
  }

  /** The second loop: each tallied field whose most common value reaches `minAgreement`. */
  method FindConsensus(rs: seq<ScraperResult>, fieldValues: map<Field, Tally>, minAgreement: int)
    returns (consensus: map<Field, string>)
    requires AllCountable(rs)
    requires forall f :: f in fieldValues ==> f in ConsensusFields
    requires forall f :: f in ConsensusFields ==> TallyAt(fieldValues, rs, f, |rs|)
    ensures consensus == ConsensusMap(rs, minAgreement)
  {
    consensus := map[];
    for j := 0 to |ConsensusFields|
      invariant consensus == ConsensusOver(rs, minAgreement, ConsensusFields[..j])
    {
      consensus := DecideStep(rs, fieldValues, minAgreement, j, consensus);
    }
    assert ConsensusFields[..|ConsensusFields|] == ConsensusFields;
  }

  /**
   * One field of the second loop: the most common value of field `j` is kept
   * when it reaches `minAgreement`, which extends the consensus over the
   * fields before it to field `j` as well.
   */
  method DecideStep(rs: seq<ScraperResult>, fieldValues: map<Field, Tally>, minAgreement: int, j: nat,
                    consensus: map<Field, string>)
    returns (consensus': map<Field, string>)
    requires AllCountable(rs) && j < |ConsensusFields|
    requires forall f :: f in ConsensusFields ==> TallyAt(fieldValues, rs, f, |rs|)
    requires consensus == ConsensusOver(rs, minAgreement, ConsensusFields[..j])
    ensures consensus' == ConsensusOver(rs, minAgreement, ConsensusFields[..j + 1])
  {
    var field := ConsensusFields[j];
    DecideField(rs, fieldValues, minAgreement, field);
    ConsensusOverNext(rs, minAgreement, j);
    consensus' := consensus;
    if field in fieldValues {
      var values := fieldValues[field];
      var mostCommon := MaxBy(values.keys, CountKey(values.counts));
      if values.counts[mostCommon] >= minAgreement {
        consensus' := consensus[field := mostCommon];
      }
    }
  }

  lemma ConsensusMergeCases(rs: seq<ScraperResult>, minAgreement: int, now: int)
    requires |rs| > 0 && AllCountable(rs)
    ensures |rs| < minAgreement ==> ConsensusMerge(rs, minAgreement, now) == ConfidenceMerge(rs, now)
    ensures |rs| >= minAgreement && ConsensusMap(rs, minAgreement) == map[]
            ==> ConsensusMerge(rs, minAgreement, now) == ConfidenceMerge(rs, now)
    ensures |rs| >= minAgreement && ConsensusMap(rs, minAgreement) != map[]
            ==> ConsensusMerge(rs, minAgreement, now)
                == FillAll(ApplyFields(CreateMerged(SortDesc(rs, Confidence)[0], now),
                                       ConsensusMap(rs, minAgreement), ConsensusFields), rs)
  {
  }

  /**
   * `_merge_by_consensus`: counts the `str` of every truthy title, series,
   * volume, year and editor; a field whose most frequent value reaches
   * `minAgreement` takes that value on a copy of the most confident result,
   * which is then filled from all results in input order. Too few results, or
   * no agreement at all, falls back to the best-confidence merge.
   */
  method MergeByConsensus(rs: seq<ScraperResult>, minAgreement: int, now: int) returns (merged: ScraperResult)
    requires |rs| > 0 && AllCountable(rs)
    ensures merged == ConsensusMerge(rs, minAgreement, now)
  {
    ConsensusMergeCases(rs, minAgreement, now);
    if |rs| < minAgreement {
      merged := MergeByConfidence(rs, now);
      return;
    }
    var fieldValues := CountVotes(rs);
    var consensus := FindConsensus(rs, fieldValues, minAgreement);
    if consensus == map[] {
      merged := MergeByConfidence(rs, now);
      return;
    }
    var base := SortDesc(rs, Confidence)[0];
    merged := ApplyConsensus(CreateMerged(base, now), consensus);
    merged := FillFromAll(merged, rs);
  }

  /** The third loop: `setattr` of each agreed field on the merged copy. */
  method ApplyConsensus(base: ScraperResult, consensus: map<Field, string>) returns (merged: ScraperResult)
    ensures merged == ApplyFields(base, consensus, ConsensusFields)
  {
    merged := base;
    for j := 0 to |ConsensusFields|
      invariant merged == ApplyFields(base, consensus, ConsensusFields[..j])
    {
      var field := ConsensusFields[j];
      assert ConsensusFields[..j + 1][..j] == ConsensusFields[..j];
      if field in consensus {
        merged := Set(merged, field, Str(consensus[field]));
      }
    }
    assert ConsensusFields[..|ConsensusFields|] == ConsensusFields;
  }

  /** The last loop: fill the merged copy from every result in input order. */
  method FillFromAll(applied: ScraperResult, rs: seq<ScraperResult>) returns (merged: ScraperResult)
    ensures merged == FillAll(applied, rs)
  {
    merged := applied;
    for i := 0 to |rs|
      invariant merged == FillAll(applied, rs[..i])
    {
      merged := FillMissingFields(merged, rs[i]);
      assert rs[..i + 1][..i] == rs[..i];
    }
    assert rs[..|rs|] == rs;
  }

  /**
   * When the consensus merge does not fall back, each agreed field holds the
   * agreed string; every other field is the most confident result's when
   * truthy, else the first truthy value among all results in input order.
   */
  lemma {:induction false} ConsensusMergeProperties(rs: seq<ScraperResult>, minAgreement: int, now: int, f: Field)
    requires |rs| > 0 && AllCountable(rs)
    ensures (|rs| < minAgreement || ConsensusMap(rs, minAgreement) == map[])
            ==> ConsensusMerge(rs, minAgreement, now) == ConfidenceMerge(rs, now)
    ensures |rs| >= minAgreement && ConsensusMap(rs, minAgreement) != map[] ==>
              var c := ConsensusMap(rs, minAgreement);
              var base := MaxBy(rs, Confidence);
              var m := ConsensusMerge(rs, minAgreement, now);
              m.source == "merged_" + base.source && m.url == base.url && m.confidence == base.confidence
              && (f in c ==> Get(m, f) == Str(c[f]))
              && (f !in c && Truthy(Get(base, f)) ==> Get(m, f) == Get(base, f))
              && (f !in c && !Truthy(Get(base, f)) ==> Get(m, f) == FirstTruthy(FieldValues(rs, f)).GetOr(Get(base, f)))
  {
    ConsensusMergeCases(rs, minAgreement, now);
    if |rs| >= minAgreement && ConsensusMap(rs, minAgreement) != map[] {
      var c := ConsensusMap(rs, minAgreement);
      SortDescHead(rs, Confidence);
      if f in c {
        AgreedNonEmpty(rs, minAgreement, f);
      }
      AppliedThenFilled(MaxBy(rs, Confidence), c, rs, now, f);
    }
  }

  /** A field of the merged copy after the agreed values are set and it is filled from `rs`. */
  lemma {:induction false} AppliedThenFilled(base: ScraperResult, c: map<Field, string>, rs: seq<ScraperResult>, now: int, f: Field)
    requires forall g :: g in c ==> g in ConsensusFields
    requires f in c ==> |c[f]| > 0
    ensures var m := FillAll(ApplyFields(CreateMerged(base, now), c, ConsensusFields), rs);
            m.source == "merged_" + base.source && m.url == base.url && m.confidence == base.confidence
            && (f in c ==> Get(m, f) == Str(c[f]))
            && (f !in c && Truthy(Get(base, f)) ==> Get(m, f) == Get(base, f))
            && (f !in c && !Truthy(Get(base, f)) ==> Get(m, f) == FirstTruthy(FieldValues(rs, f)).GetOr(Get(base, f)))
  {
    FillAllField(ApplyFields(CreateMerged(base, now), c, ConsensusFields), rs, f);
  }

  /** An agreed value is the `str` of a truthy value, so it is a non-empty, truthy string. */
  lemma AgreedNonEmpty(rs: seq<ScraperResult>, minAgreement: int, f: Field)
    requires AllCountable(rs) && f in ConsensusMap(rs, minAgreement)
    ensures |ConsensusMap(rs, minAgreement)[f]| > 0
  {
    AgreementProperties(Votes(rs, f), minAgreement);
  }

  // ---------------------------------------------------------------- entry point

  /**
   * `merge_results`: nothing to merge gives `None`, a single result is
   * returned as it is, and otherwise the strategy named decides the merge; an
   * unknown name falls back to the best-confidence merge. The priority map is
   * the one the merger was constructed with (empty when none was given).
   */
  method MergeResults(results: seq<ScraperResult>, strategy: string, minAgreement: int,
                      priorityMap: map<string, int>, now: int)
    returns (merged: Option<ScraperResult>)
    requires forall i :: 0 <= i < |results| ==> WellTyped(results[i])
    ensures results == [] <==> merged.None?
    ensures |results| == 1 ==> merged == Some(results[0])
    ensures |results| > 1 && strategy == "priority" ==> merged == Some(PriorityMerge(results, priorityMap, now))
    ensures |results| > 1 && strategy == "consensus"
            ==> AllCountable(results) && merged == Some(ConsensusMerge(results, minAgreement, now))
    ensures |results| > 1 && strategy != "priority" && strategy != "consensus"
            ==> merged == Some(ConfidenceMerge(results, now))
  {
    if |results| == 0 {
      return None;
    }
    if |results| == 1 {
      return Some(results[0]);
    }
    var m;
    if strategy == "best_confidence" {
      m := MergeByConfidence(results, now);
    } else if strategy == "priority" {
      m := MergeByPriority(results, priorityMap, now);
    } else if strategy == "consensus" {
      forall i | 0 <= i < |results|
        ensures Countable(results[i])
      {
        WellTypedCountable(results[i]);
      }
      m := MergeByConsensus(results, minAgreement, now);
    } else {
      m := MergeByConfidence(results, now);
    }
    merged := Some(m);
  }
}
