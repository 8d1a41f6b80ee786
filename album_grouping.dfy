/**
 * The album grouping of `MetadataMerger`: a weighted similarity between two
 * scraper results, and the greedy grouping that puts each result with the
 * group whose first member it resembles most.
 */
module AlbumGrouping {
  import opened Wrappers
  import opened Text
  import opened Values
  import opened BaseScraper
  import opened Seqs

  // ---------------------------------------------------------------- similarity

  /**
   * `_normalize_text`: accents removed, lower-cased, runs of whitespace
   * collapsed to one space and the ends stripped. Accent removal (Unicode
   * NFD followed by dropping combining marks) is the parameter `unaccent`.
   */
  function NormText(unaccent: string -> string, t: string): string {
    NormalizeSpaces(Lower(unaccent(t)))
  }

  /** The weight a field contributes when both results have it, and the credit it earns. */
  datatype Part = Part(weight: real, credit: real)

  predicate ValidPart(p: Part) {
    0.0 <= p.credit <= p.weight
  }

  const NoPart := Part(0.0, 0.0)

  /** The text of a `str` cell, `""` for any other. */
  function TextOf(c: Cell): string {
    if c.Str? then c.s else ""
  }

  /** The value of an `int` cell, 0 for any other. */
  function IntOf(c: Cell): int {
    if c.Integer? then c.i else 0
  }

  /** Series: weight 0.3, earned when the normalised texts are equal. */
  function SeriesPart(unaccent: string -> string, r1: ScraperResult, r2: ScraperResult): (p: Part)
    ensures ValidPart(p)
  {
    if Truthy(r1.series) && Truthy(r2.series) then
      Part(0.3, if NormText(unaccent, TextOf(r1.series)) == NormText(unaccent, TextOf(r2.series)) then 0.3 else 0.0)
    else NoPart
  }

  /** Volume: weight 0.25 when neither is `None`, earned when they compare equal. */
  function VolumePart(r1: ScraperResult, r2: ScraperResult): (p: Part)
    ensures ValidPart(p)
  {
    if !r1.volume.Null? && !r2.volume.Null? then Part(0.25, if PyEq(r1.volume, r2.volume) then 0.25 else 0.0)
    else NoPart
  }

  /** Title: weight 0.25, all of it for equal normalised titles, 0.15 when one contains the other. */
  function TitlePart(unaccent: string -> string, r1: ScraperResult, r2: ScraperResult): (p: Part)
    ensures ValidPart(p)
  {
    if Truthy(r1.title) && Truthy(r2.title) then
      var t1 := NormText(unaccent, TextOf(r1.title));
      var t2 := NormText(unaccent, TextOf(r2.title));
      Part(0.25, if t1 == t2 then 0.25 else if Contains(t2, t1) || Contains(t1, t2) then 0.15 else 0.0)
    else NoPart
  }

  function Abs(x: int): nat {
    if x < 0 then -x else x
  }

  /** Year: weight 0.1, all of it within one year, half of it within two. */
  function YearPart(r1: ScraperResult, r2: ScraperResult): (p: Part)
    ensures ValidPart(p)
  {
    if Truthy(r1.year) && Truthy(r2.year) then
      var d := Abs(IntOf(r1.year) - IntOf(r2.year));
      Part(0.1, if d <= 1 then 0.1 else if d <= 2 then 0.05 else 0.0)
    else NoPart
  }

  /** Publisher: weight 0.1, earned when the normalised names are equal. */
  function EditorPart(unaccent: string -> string, r1: ScraperResult, r2: ScraperResult): (p: Part)
    ensures ValidPart(p)
  {
    if Truthy(r1.editor) && Truthy(r2.editor) then
      Part(0.1, if NormText(unaccent, TextOf(r1.editor)) == NormText(unaccent, TextOf(r2.editor)) then 0.1 else 0.0)
    else NoPart
  }

  /** A ratio of a non-negative credit to a larger, positive weight lies in [0, 1]. */
  lemma RatioBounded(score: real, total: real)
    requires 0.0 <= score <= total && total > 0.0
    ensures 0.0 <= score / total <= 1.0
  {
    assert score / total * total == score;
  }

  lemma RatioSelf(total: real)
    requires total > 0.0
    ensures Ratio(total, total) == 1.0
  {
  }

  /** `score / total_weight`. */
  function Ratio(score: real, total: real): (q: real)
    requires 0.0 <= score <= total && total > 0.0
    ensures 0.0 <= q <= 1.0
  {
    RatioBounded(score, total);
    score / total
  }

  /** The sum of the weights of the fields both results have. */
  function SharedWeight(unaccent: string -> string, r1: ScraperResult, r2: ScraperResult): (w: real)
  {
    SeriesPart(unaccent, r1, r2).weight + VolumePart(r1, r2).weight + TitlePart(unaccent, r1, r2).weight
    + YearPart(r1, r2).weight + EditorPart(unaccent, r1, r2).weight
  }

  /** The sum of the credits those fields earn. */
  function Score(unaccent: string -> string, r1: ScraperResult, r2: ScraperResult): (c: real)
    ensures 0.0 <= c <= SharedWeight(unaccent, r1, r2)
  {
    SeriesPart(unaccent, r1, r2).credit + VolumePart(r1, r2).credit + TitlePart(unaccent, r1, r2).credit
    + YearPart(r1, r2).credit + EditorPart(unaccent, r1, r2).credit
  }

  /** `_calculate_similarity`: the credit earned over the weight of the fields both results have. */
  function Similarity(unaccent: string -> string, r1: ScraperResult, r2: ScraperResult): (s: real)
    ensures 0.0 <= s <= 1.0
  {
    var total := SharedWeight(unaccent, r1, r2);
    if total > 0.0 then
      Ratio(Score(unaccent, r1, r2), total)
    else 0.0
  }

  /** Two results that share no field have similarity 0. */
  lemma SimilarityNoShared(unaccent: string -> string, r1: ScraperResult, r2: ScraperResult)
    requires !(Truthy(r1.series) && Truthy(r2.series)) && (r1.volume.Null? || r2.volume.Null?)
    requires !(Truthy(r1.title) && Truthy(r2.title)) && !(Truthy(r1.year) && Truthy(r2.year))
    requires !(Truthy(r1.editor) && Truthy(r2.editor))
    ensures Similarity(unaccent, r1, r2) == 0.0
  {
  }

  /** Each text field contributes the same weight and credit whichever result comes first. */
  lemma {:induction false} TextPartsSymmetric(unaccent: string -> string, r1: ScraperResult, r2: ScraperResult)
    ensures SeriesPart(unaccent, r1, r2) == SeriesPart(unaccent, r2, r1)
    ensures TitlePart(unaccent, r1, r2) == TitlePart(unaccent, r2, r1)
    ensures EditorPart(unaccent, r1, r2) == EditorPart(unaccent, r2, r1)
  {
  }

  /** So do the volume and the year. */
  lemma {:induction false} NumberPartsSymmetric(r1: ScraperResult, r2: ScraperResult)
    ensures VolumePart(r1, r2) == VolumePart(r2, r1)
    ensures YearPart(r1, r2) == YearPart(r2, r1)
  {
    assert Abs(IntOf(r1.year) - IntOf(r2.year)) == Abs(IntOf(r2.year) - IntOf(r1.year));
  }

  /** The similarity does not depend on the order of its arguments. */
  lemma {:induction false} SimilaritySymmetric(unaccent: string -> string, r1: ScraperResult, r2: ScraperResult)
    ensures Similarity(unaccent, r1, r2) == Similarity(unaccent, r2, r1)
  {
    TextPartsSymmetric(unaccent, r1, r2);
    NumberPartsSymmetric(r1, r2);
    assert SharedWeight(unaccent, r1, r2) == SharedWeight(unaccent, r2, r1);
    assert Score(unaccent, r1, r2) == Score(unaccent, r2, r1);
  }

  /** Every field a result shares with itself earns its full weight. */
  lemma {:induction false} PartsSelf(unaccent: string -> string, r: ScraperResult)
    ensures SeriesPart(unaccent, r, r).credit == SeriesPart(unaccent, r, r).weight
    ensures VolumePart(r, r).credit == VolumePart(r, r).weight
    ensures TitlePart(unaccent, r, r).credit == TitlePart(unaccent, r, r).weight
    ensures YearPart(r, r).credit == YearPart(r, r).weight
    ensures EditorPart(unaccent, r, r).credit == EditorPart(unaccent, r, r).weight
  {
    assert PyEq(r.volume, r.volume);
  }

  /** A result with a title is fully similar to itself. */
  lemma {:induction false} SimilaritySelf(unaccent: string -> string, r: ScraperResult)
    requires Truthy(r.title)
    ensures Similarity(unaccent, r, r) == 1.0
  {
    PartsSelf(unaccent, r);
    var total := SharedWeight(unaccent, r, r);
    assert total >= 0.25 by {
      assert TitlePart(unaccent, r, r).weight == 0.25;
    }
    assert Score(unaccent, r, r) == total;
    RatioSelf(total);
  }

  // ---------------------------------------------------------------- grouping

  /** A pairwise similarity score. */
  type Sim = (ScraperResult, ScraperResult) -> real

  /** The group chosen so far (`best_group`) and its similarity (`best_similarity`). */
  datatype Choice = Choice(group: Option<nat>, similarity: real)

  predicate NonEmptyGroups(gs: seq<seq<ScraperResult>>) {
    forall g :: 0 <= g < |gs| ==> gs[g] != []
  }

  /**
   * The choice after looking at the first `k` groups: the earliest group whose
   * head gives the largest similarity that is positive and at least
   * `threshold`, or none when no head qualifies.
   */
  function Best(sim: Sim, gs: seq<seq<ScraperResult>>, r: ScraperResult, threshold: real, k: nat): (c: Choice)
    requires NonEmptyGroups(gs) && k <= |gs|
    ensures c.group.None? ==>
              c.similarity == 0.0
              && forall h :: 0 <= h < k ==> !(sim(r, gs[h][0]) > 0.0 && sim(r, gs[h][0]) >= threshold)
    ensures c.group.Some? ==>
              var b := c.group.value;
              b < k && c.similarity == sim(r, gs[b][0])
              && c.similarity > 0.0 && c.similarity >= threshold
              && (forall h :: 0 <= h < k && sim(r, gs[h][0]) >= threshold ==> sim(r, gs[h][0]) <= c.similarity)
              && (forall h :: 0 <= h < b && sim(r, gs[h][0]) >= threshold ==> sim(r, gs[h][0]) < c.similarity)
  {
    if k == 0 then Choice(None, 0.0)
    else
      var c := Best(sim, gs, r, threshold, k - 1);
      var s := sim(r, gs[k - 1][0]);
      if s > c.similarity && s >= threshold then Choice(Some(k - 1), s) else c
  }

  lemma BestNext(sim: Sim, gs: seq<seq<ScraperResult>>, r: ScraperResult, threshold: real, k: nat, s: real)
    requires NonEmptyGroups(gs) && k < |gs| && s == sim(r, gs[k][0])
    ensures var c := Best(sim, gs, r, threshold, k);
            Best(sim, gs, r, threshold, k + 1)
            == if s > c.similarity && s >= threshold then Choice(Some(k), s) else c
  {
  }

  /** `best_group.append(result)`, or `groups.append([result])` when no group qualifies. */
  function Place(sim: Sim, gs: seq<seq<ScraperResult>>, r: ScraperResult, threshold: real): (gs': seq<seq<ScraperResult>>)
    requires NonEmptyGroups(gs)
    ensures NonEmptyGroups(gs')
  {
    var c := Best(sim, gs, r, threshold, |gs|);
    if c.group.Some? then gs[c.group.value := gs[c.group.value] + [r]] else gs + [[r]]
  }

  /** What `group_by_album` returns: the results placed one after the other; every group is non-empty. */
  function Grouped(sim: Sim, rs: seq<ScraperResult>, threshold: real): (gs: seq<seq<ScraperResult>>)
    ensures NonEmptyGroups(gs)
  {
    if rs == [] then [] else Place(sim, Grouped(sim, rs[..|rs| - 1], threshold), rs[|rs| - 1], threshold)
  }

  /** `_calculate_similarity` with a fixed accent remover. */
  function SimilarityOf(unaccent: string -> string): Sim {
    (a, b) => Similarity(unaccent, a, b)
  }

  /** `group_by_album`. */
  method GroupByAlbum(unaccent: string -> string, results: seq<ScraperResult>, threshold: real)
    returns (groups: seq<seq<ScraperResult>>)
    ensures groups == Grouped(SimilarityOf(unaccent), results, threshold)
  {
    if |results| == 0 {
      return [];
    }
    groups := [];
    for i := 0 to |results|
      invariant groups == Grouped(SimilarityOf(unaccent), results[..i], threshold)
    {
      groups := PlaceResult(unaccent, groups, results[i], threshold);
      assert results[..i + 1][..i] == results[..i];
    }
    assert results[..|results|] == results;
  }

  /** The body of the outer loop: find the best group for `result` and put it there. */
  method PlaceResult(unaccent: string -> string, groups: seq<seq<ScraperResult>>, result: ScraperResult, threshold: real)
    returns (groups': seq<seq<ScraperResult>>)
    requires NonEmptyGroups(groups)
    ensures groups' == Place(SimilarityOf(unaccent), groups, result, threshold)
  {
    var bestGroup: Option<nat> := None;
    var bestSimilarity := 0.0;
    for g := 0 to |groups|
      invariant Choice(bestGroup, bestSimilarity) == Best(SimilarityOf(unaccent), groups, result, threshold, g)
    {
      var similarity := Similarity(unaccent, result, groups[g][0]);
      BestNext(SimilarityOf(unaccent), groups, result, threshold, g, similarity);
      if similarity > bestSimilarity && similarity >= threshold {
        bestSimilarity := similarity;
        bestGroup := Some(g);
      }
    }
    if bestGroup.Some? {
      groups' := groups[bestGroup.value := groups[bestGroup.value] + [result]];
    } else {
      groups' := groups + [[result]];
    }
  }

  /** The groups laid end to end. */
  function Concat(gs: seq<seq<ScraperResult>>): seq<ScraperResult> {
    if gs == [] then [] else Concat(gs[..|gs| - 1]) + gs[|gs| - 1]
  }

  lemma {:induction false} ConcatAppend(gs: seq<seq<ScraperResult>>, b: nat, r: ScraperResult)
    requires b < |gs|
    ensures multiset(Concat(gs[b := gs[b] + [r]])) == multiset(Concat(gs)) + multiset{r}
    decreases |gs|
  {
    var gs' := gs[b := gs[b] + [r]];
    var n := |gs| - 1;
    assert gs'[..n] == if b < n then gs[..n][b := gs[b] + [r]] else gs[..n];
    if b < n {
      ConcatAppend(gs[..n], b, r);
    }
  }

  /** Placing a result adds exactly that result to the groups. */
  lemma PlaceMultiset(sim: Sim, gs: seq<seq<ScraperResult>>, r: ScraperResult, threshold: real)
    requires NonEmptyGroups(gs)
    ensures multiset(Concat(Place(sim, gs, r, threshold))) == multiset(Concat(gs)) + multiset{r}
  {
    var c := Best(sim, gs, r, threshold, |gs|);
    if c.group.Some? {
      ConcatAppend(gs, c.group.value, r);
    } else {
      assert (gs + [[r]])[..|gs|] == gs;
    }
  }

  /** Every result lands in exactly one group: the groups hold the results and nothing else. */
  lemma {:induction false} GroupedPartition(sim: Sim, rs: seq<ScraperResult>, threshold: real)
    ensures multiset(Concat(Grouped(sim, rs, threshold))) == multiset(rs)
    decreases |rs|
  {
    if rs != [] {
      var init := rs[..|rs| - 1];
      GroupedPartition(sim, init, threshold);
      PlaceMultiset(sim, Grouped(sim, init, threshold), rs[|rs| - 1], threshold);
      InitLast(rs);
    }
  }

  /** The first member of each group. */
  function Heads(gs: seq<seq<ScraperResult>>): (hs: seq<ScraperResult>)
    requires NonEmptyGroups(gs)
    ensures |hs| == |gs| && forall g :: 0 <= g < |gs| ==> hs[g] == gs[g][0]
  {
    seq(|gs|, g requires 0 <= g < |gs| => gs[g][0])
  }

  /** `a` is `b` with some elements left out. */
  predicate Subseq(a: seq<ScraperResult>, b: seq<ScraperResult>)
    decreases |b|
  {
    if a == [] then true
    else if b == [] then false
    else (a[|a| - 1] == b[|b| - 1] && Subseq(a[..|a| - 1], b[..|b| - 1])) || Subseq(a, b[..|b| - 1])
  }

  lemma SubseqExtend(a: seq<ScraperResult>, b: seq<ScraperResult>, x: ScraperResult)
    requires Subseq(a, b)
    ensures Subseq(a, b + [x]) && Subseq(a + [x], b + [x])
  {
    assert (b + [x])[..|b|] == b;
    assert (a + [x])[..|a|] == a;
  }

  /** A new group is headed by the placed result; otherwise the heads stay as they were. */
  lemma PlaceHeads(sim: Sim, gs: seq<seq<ScraperResult>>, r: ScraperResult, threshold: real)
    requires NonEmptyGroups(gs)
    ensures var gs' := Place(sim, gs, r, threshold);
            Heads(gs') == Heads(gs) || Heads(gs') == Heads(gs) + [r]
  {
  }

  /** Group heads appear in input order: they are a subsequence of the results. */
  lemma {:induction false} GroupedHeads(sim: Sim, rs: seq<ScraperResult>, threshold: real)
    ensures Subseq(Heads(Grouped(sim, rs, threshold)), rs)
    decreases |rs|
  {
    if rs != [] {
      var init := rs[..|rs| - 1];
      GroupedHeads(sim, init, threshold);
      PlaceHeads(sim, Grouped(sim, init, threshold), rs[|rs| - 1], threshold);
      SubseqExtend(Heads(Grouped(sim, init, threshold)), init, rs[|rs| - 1]);
      InitLast(rs);
    }
  }
}
