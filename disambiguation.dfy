/**
 * Reading the volume number and title out of a comic file name, and scoring
 * catalogue candidates against that file by weighted criteria
 * (`FilenameMetadataExtractor` and `CandidateScorer`).
 */
module Disambiguation {
  import opened Wrappers
  import opened Text
  import opened Seqs

  // ---------------------------------------------------------------------
  // File name metadata
  // ---------------------------------------------------------------------

  /** Removes a final `.cbz` or `.cbr`, in any letter case. */
  function StripComicExtension(filename: string): (name: string)
    ensures name <= filename
    ensures |filename| - |name| == 0 || |filename| - |name| == 4
    ensures |filename| - |name| == 4 <==>
              |filename| >= 4 && (Lower(filename[|filename| - 4..]) == ".cbz" || Lower(filename[|filename| - 4..]) == ".cbr")
  {
    if |filename| >= 4 && (Lower(filename[|filename| - 4..]) == ".cbz" || Lower(filename[|filename| - 4..]) == ".cbr")
    then filename[..|filename| - 4]
    else filename
  }

  /** The alternatives of the volume marker, in the order the regex tries them. */
  const VolumeKeywords: seq<string> := ["tome", "tom", "vol", "v", "t", "#"]
  /** The alternatives allowed after a trailing number. */
  const SuffixKeywords: seq<string> := ["tome", "tom", "vol", "v", "t"]

  /** `kw` occurs at `i`, ignoring letter case. */
  predicate KeywordAt(s: string, i: nat, kw: string) {
    i + |kw| <= |s| && Lower(s[i..i + |kw|]) == kw
  }

  /** `kw\s*\d` matches at `i`. */
  predicate TokenWith(s: string, i: nat, kw: string) {
    KeywordAt(s, i, kw) && var j := SkipSpaces(s, i + |kw|); j < |s| && IsDigit(s[j])
  }

  /** The alternative with which `(?:tome|tom|vol|v|t|#)\s*(\d+)` matches at `i`, trying them in order. */
  function TokenKeyword(s: string, i: nat): (r: Option<string>)
    ensures r.Some? ==> r.value in VolumeKeywords && TokenWith(s, i, r.value)
    ensures r.None? <==> forall kw :: kw in VolumeKeywords ==> !TokenWith(s, i, kw)
  {
    if TokenWith(s, i, "tome") then Some("tome")
    else if TokenWith(s, i, "tom") then Some("tom")
    else if TokenWith(s, i, "vol") then Some("vol")
    else if TokenWith(s, i, "v") then Some("v")
    else if TokenWith(s, i, "t") then Some("t")
    else if TokenWith(s, i, "#") then Some("#")
    else None
  }

  /** The volume marker `(?:tome|tom|vol|v|t|#)\s*(\d+)` matches at `i`. */
  predicate TokenAt(s: string, i: nat) {
    TokenKeyword(s, i).Some?
  }

  /** The digits the marker at `i` captures. */
  function TokenDigits(s: string, i: nat): (d: string)
    requires TokenAt(s, i)
    ensures |d| >= 1 && AllDigits(d)
  {
    var kw := TokenKeyword(s, i).value;
    var j := SkipSpaces(s, i + |kw|);
    s[j..DigitRunEnd(s, j)]
  }

  /** `re.search` over positions `i..n-1`: the leftmost position where `matches` holds. */
  function FindFirst(matches: nat -> bool, i: nat, n: nat): (r: Option<nat>)
    ensures r.Some? ==> i <= r.value < n && matches(r.value)
    ensures r.Some? ==> forall p :: i <= p < r.value ==> !matches(p)
    ensures r.None? ==> forall p :: i <= p < n ==> !matches(p)
    decreases n - i
  {
    if i >= n then None
    else if matches(i) then Some(i)
    else FindFirst(matches, i + 1, n)
  }

  /** The leftmost volume marker. */
  function FindToken(s: string): (r: Option<nat>)
    ensures r.Some? ==> r.value < |s| && TokenAt(s, r.value)
    ensures r.Some? ==> forall p :: 0 <= p < r.value ==> !TokenAt(s, p)
    ensures r.None? ==> forall p :: 0 <= p < |s| ==> !TokenAt(s, p)
  {
    var matches := (p: nat) => TokenAt(s, p);
    assert forall p: nat :: matches(p) == TokenAt(s, p);
    FindFirst(matches, 0, |s|)
  }

  /** A marker with none before it is the one `FindToken` finds. */
  lemma FindTokenIs(s: string, k: nat)
    requires k < |s| && TokenAt(s, k) && forall p :: 0 <= p < k ==> !TokenAt(s, p)
    ensures FindToken(s) == Some(k)
  {
    var r := FindToken(s);
    assert r.Some?;
    assert r.value == k;
  }

  /** `(\d+)\s*(?:tome|tom|vol|v|t)$` matches at `i`. */
  predicate SuffixAt(s: string, i: nat) {
    i < |s| && IsDigit(s[i]) && Lower(s[SkipSpaces(s, DigitRunEnd(s, i))..]) in SuffixKeywords
  }

  /** The leftmost trailing number form. */
  function FindSuffix(s: string): (r: Option<nat>)
    ensures r.Some? ==> r.value < |s| && SuffixAt(s, r.value)
    ensures r.Some? ==> forall p :: 0 <= p < r.value ==> !SuffixAt(s, p)
    ensures r.None? ==> forall p :: 0 <= p < |s| ==> !SuffixAt(s, p)
  {
    var matches := (p: nat) => SuffixAt(s, p);
    assert forall p: nat :: matches(p) == SuffixAt(s, p);
    FindFirst(matches, 0, |s|)
  }

  /**
   * The volume number of a file name: the number after the first marker such
   * as "Tome 3", "T3", "vol.3" is not one ("#3"), else a number just before a
   * final marker ("3 tome"), else -1.
   */
  function ExtractVolumeNumber(filename: string): (n: int)
    ensures n >= -1
    ensures var name := StripComicExtension(filename);
            n == -1 <==> forall p :: 0 <= p < |name| ==> !TokenAt(name, p) && !SuffixAt(name, p)
  {
    var name := StripComicExtension(filename);
    match FindToken(name)
    case Some(k) => DigitsValue(TokenDigits(name, k))
    case None =>
      match FindSuffix(name)
      case Some(i) =>
        var e := DigitRunEnd(name, i);
        assert AllDigits(name[i..e]);
        DigitsValue(name[i..e])
      case None => -1
  }

  /** A trailing form with none before it is the one `FindSuffix` finds. */
  lemma FindSuffixIs(s: string, i: nat)
    requires i < |s| && SuffixAt(s, i) && forall p :: 0 <= p < i ==> !SuffixAt(s, p)
    ensures FindSuffix(s) == Some(i)
  {
    var r := FindSuffix(s);
    assert r.Some?;
    assert r.value == i;
  }

  /** The number after the leftmost marker is the volume, whatever follows. */
  lemma VolumeFromLeftmostMarker(filename: string, k: nat)
    requires var name := StripComicExtension(filename);
             k < |name| && TokenAt(name, k) && forall p :: 0 <= p < k ==> !TokenAt(name, p)
    ensures ExtractVolumeNumber(filename) == DigitsValue(TokenDigits(StripComicExtension(filename), k))
  {
    FindTokenIs(StripComicExtension(filename), k);
  }

  /** Without any marker, the leftmost trailing form gives the volume. */
  lemma VolumeFromTrailingForm(filename: string, i: nat)
    requires var name := StripComicExtension(filename);
             (forall p :: 0 <= p < |name| ==> !TokenAt(name, p))
             && i < |name| && SuffixAt(name, i) && forall p :: 0 <= p < i ==> !SuffixAt(name, p)
    ensures var name := StripComicExtension(filename);
            ExtractVolumeNumber(filename) == DigitsValue(name[i..DigitRunEnd(name, i)])
  {
    FindSuffixIs(StripComicExtension(filename), i);
  }

  /** The removal pattern `\s*(?:tome|...|#)\s*\d+.*?$` matches at `p`. */
  predicate CutAt(s: string, p: nat) {
    p <= |s| && TokenAt(s, SkipSpaces(s, p))
  }

  /** The leftmost match of the removal pattern. */
  function FindCut(s: string): (r: Option<nat>)
    ensures r.Some? ==> r.value <= |s| && CutAt(s, r.value)
    ensures r.Some? ==> forall q :: 0 <= q < r.value ==> !CutAt(s, q)
    ensures r.None? ==> forall q :: 0 <= q <= |s| ==> !CutAt(s, q)
  {
    var matches := (p: nat) => CutAt(s, p);
    assert forall p: nat :: matches(p) == CutAt(s, p);
    FindFirst(matches, 0, |s| + 1)
  }

  /**
   * The title of a file name: everything before the volume marker, stripped.
   * The cut is where the marker the volume number is read from begins.
   */
  function ExtractTitle(filename: string): (title: string)
    ensures title == [] || (!IsSpace(title[0]) && !IsSpace(title[|title| - 1]))
    ensures var name := StripComicExtension(filename);
            FindToken(name).None? ==> title == Strip(name)
    ensures var name := StripComicExtension(filename);
            FindToken(name).Some? ==> title == Strip(name[..FindToken(name).value])
  {
    var name := StripComicExtension(filename);
    var cut := FindCut(name);
    CutIsBeforeToken(name);
    if cut.None? then Strip(name)
    else
      var k := FindToken(name).value;
      TitleBeforeMarker(name, cut.value, k);
      Strip(name[..cut.value])
  }

  /** A marker never starts with whitespace. */
  lemma TokenNotSpace(s: string, i: nat)
    requires TokenAt(s, i)
    ensures i < |s| && !IsSpace(s[i])
  {
    var kw := TokenKeyword(s, i).value;
    assert Lower(s[i..i + |kw|])[0] == LowerChar(s[i]);
  }

  /** The leftmost cut is the whitespace run in front of the leftmost marker. */
  lemma CutIsBeforeToken(name: string)
    ensures match FindToken(name)
            case None => FindCut(name).None?
            case Some(k) =>
              FindCut(name).Some? && FindCut(name).value <= k
              && AllSpaces(name[FindCut(name).value..k])
  {
    forall p | 0 <= p <= |name| && CutAt(name, p)
      ensures SkipSpaces(name, p) < |name| && TokenAt(name, SkipSpaces(name, p))
    {
      TokenNotSpace(name, SkipSpaces(name, p));
    }
    forall k | 0 <= k < |name| && TokenAt(name, k)
      ensures CutAt(name, k)
    {
      TokenNotSpace(name, k);
    }
    if FindToken(name).Some? {
      var k := FindToken(name).value;
      assert CutAt(name, k);
      var p := FindCut(name).value;
      assert p <= k;
      var q := SkipSpaces(name, p);
      assert TokenAt(name, q) && q >= k;
      TokenNotSpace(name, k);
      assert q == k;
    }
  }

  /** The stripped prefix before the cut equals the stripped prefix before the marker. */
  lemma TitleBeforeMarker(name: string, p: nat, k: nat)
    requires p <= k <= |name| && AllSpaces(name[p..k])
    ensures Strip(name[..p]) == Strip(name[..k])
  {
    assert name[..k] == name[..p] + name[p..k];
    StripSpaces(name[..p], name[p..k]);
  }

  /** No character of `s` is a digit. */
  predicate NoDigits(s: string) {
    forall i :: 0 <= i < |s| ==> !IsDigit(s[i])
  }

  lemma KeywordsHaveNoSpaces()
    ensures forall kw :: kw in VolumeKeywords ==> |kw| >= 1 && forall i :: 0 <= i < |kw| ==> !IsSpace(kw[i])
  {
  }

  lemma KeywordChars(s: string, i: nat, kw: string)
    requires KeywordAt(s, i, kw)
    ensures forall q :: i <= q < i + |kw| ==> LowerChar(s[q]) == kw[q - i]
  {
    forall q | i <= q < i + |kw|
      ensures LowerChar(s[q]) == kw[q - i]
    {
      assert Lower(s[i..i + |kw|])[q - i] == LowerChar(s[q]);
    }
  }

  /** A keyword without spaces cannot start a marker inside a digit-free text followed by a space and a non-digit. */
  lemma NoTokenWithBefore(t: string, rest: string, p: nat, kw: string)
    requires NoDigits(t) && |rest| >= 2 && rest[0] == ' ' && !IsSpace(rest[1]) && !IsDigit(rest[1])
    requires p <= |t| && |kw| >= 1 && forall i :: 0 <= i < |kw| ==> !IsSpace(kw[i])
    ensures !TokenWith(t + rest, p, kw)
  {
    var s := t + rest;
    assert s[|t|] == ' ' && s[|t| + 1] == rest[1];
    if KeywordAt(s, p, kw) {
      KeywordChars(s, p, kw);
      var j := SkipSpaces(s, p + |kw|);
    }
  }

  /** No volume marker starts inside a digit-free text followed by a space and a non-digit. */
  lemma NoTokenBefore(t: string, rest: string, p: nat)
    requires NoDigits(t) && |rest| >= 2 && rest[0] == ' ' && !IsSpace(rest[1]) && !IsDigit(rest[1])
    requires p <= |t|
    ensures !TokenAt(t + rest, p)
  {
    KeywordsHaveNoSpaces();
    forall kw | kw in VolumeKeywords
      ensures !TokenWith(t + rest, p, kw)
    {
      NoTokenWithBefore(t, rest, p, kw);
    }
  }

  lemma StripComicExtensionCbz(name: string)
    ensures StripComicExtension(name + ".cbz") == name
  {
    var filename := name + ".cbz";
    assert filename[|filename| - 4..] == ".cbz";
    assert Lower(".cbz") == ".cbz";
    assert filename[..|filename| - 4] == name;
  }

  /** In `<title> T<digits>` the marker right after the space is "t" and captures the digits. */
  lemma MarkerAfterTitle(title: string, d: string)
    requires |d| >= 1 && AllDigits(d)
    ensures var name := title + " T" + d;
            TokenAt(name, |title| + 1) && TokenDigits(name, |title| + 1) == d
  {
    var name := title + " T" + d;
    var k := |title| + 1;
    assert name[k] == 'T' && name[k + 1] == d[0];
    assert !KeywordAt(name, k, "tome") && !KeywordAt(name, k, "tom") by {
      assert Lower(name[k..k + 2])[1] == LowerChar(name[k + 1]);
    }
    assert !KeywordAt(name, k, "vol") && !KeywordAt(name, k, "v") by {
      assert Lower(name[k..k + 1])[0] == LowerChar(name[k]);
    }
    assert KeywordAt(name, k, "t");
    assert SkipSpaces(name, k + 1) == k + 1;
    assert TokenKeyword(name, k) == Some("t");
    assert name[k + 1..] == d;
    assert DigitRunEnd(name, k + 1) == |name|;
  }

  /** In `<title> T<digits>` with a digit-free title, the leftmost marker is the "T". */
  lemma FindMarkerAfterTitle(title: string, d: string)
    requires NoDigits(title) && |d| >= 1 && AllDigits(d)
    ensures FindToken(title + " T" + d) == Some(|title| + 1)
  {
    var name := title + " T" + d;
    var k := |title| + 1;
    assert name == title + (" T" + d);
    forall p | 0 <= p < k
      ensures !TokenAt(name, p)
    {
      NoTokenBefore(title, " T" + d, p);
    }
    MarkerAfterTitle(title, d);
    FindTokenIs(name, k);
  }

  /** Names written as `<title> T<n>.cbz`, with a title free of digits, give back the volume `n`. */
  lemma VolumeRoundTrip(title: string, n: nat)
    requires NoDigits(title)
    ensures ExtractVolumeNumber(title + " T" + NatToStr(n) + ".cbz") == n
  {
    var d := NatToStr(n);
    var name := title + " T" + d;
    StripComicExtensionCbz(name);
    FindMarkerAfterTitle(title, d);
    MarkerAfterTitle(title, d);
    NatToStrRoundTrip(n);
  }

  /** Names written as `<title> T<n>.cbz`, with a title free of digits, give back the stripped title. */
  lemma TitleRoundTrip(title: string, n: nat)
    requires NoDigits(title)
    ensures ExtractTitle(title + " T" + NatToStr(n) + ".cbz") == Strip(title)
  {
    var d := NatToStr(n);
    var name := title + " T" + d;
    assert ExtractTitle(name + ".cbz") == Strip(name[..|title| + 1]) by {
      StripComicExtensionCbz(name);
      FindMarkerAfterTitle(title, d);
    }
    assert name[..|title| + 1] == title + " ";
    StripSpaces(title, " ");
  }

  // ---------------------------------------------------------------------
  // Candidate scoring
  // ---------------------------------------------------------------------

  /** Years this far apart still count as a (partial) match. */
  const YearTolerance: int := 2

  /** Cover similarity (a percentage) mapped to [0, 1]; below 30 it is worth nothing. */
  function CoverScore(similarity: real): (r: real)
    ensures 0.0 <= r <= 1.0
    ensures similarity < 30.0 ==> r == 0.0
    ensures similarity >= 100.0 ==> r == 1.0
    ensures 30.0 <= similarity <= 100.0 ==> r * 70.0 == similarity - 30.0
  {
    if similarity < 30.0 then 0.0
    else if (similarity - 30.0) / 70.0 < 1.0 then (similarity - 30.0) / 70.0
    else 1.0
  }

  /** A higher cover similarity never lowers the cover score. */
  lemma CoverScoreMonotone(a: real, b: real)
    requires a <= b
    ensures CoverScore(a) <= CoverScore(b)
  {
  }

  /** A title that carries information: not empty and not "unknown" in any letter case. */
  predicate UsableTitle(t: string) {
    t != [] && Lower(t) != "unknown"
  }

  /**
   * Title score from the fuzzy token-set ratio (a percentage) of the two
   * titles: neutral 0.5 without a file title, 0 without a candidate title.
   */
  function TitleScore(fileTitle: string, candidateTitle: string, ratio: real): (r: real)
    requires 0.0 <= ratio <= 100.0
    ensures 0.0 <= r <= 1.0
    ensures !UsableTitle(fileTitle) ==> r == 0.5
    ensures UsableTitle(fileTitle) && !UsableTitle(candidateTitle) ==> r == 0.0
    ensures UsableTitle(fileTitle) && UsableTitle(candidateTitle) ==> r * 100.0 == ratio
  {
    if !UsableTitle(fileTitle) then 0.5
    else if !UsableTitle(candidateTitle) then 0.0
    else ratio / 100.0
  }

  /** Exact volume match; neutral 0.5 when the file name has no volume (-1). */
  function VolumeScore(fileVolume: int, candidateVolume: int): (r: real)
    ensures fileVolume == -1 ==> r == 0.5
    ensures fileVolume != -1 ==> (r == 1.0 <==> fileVolume == candidateVolume)
    ensures fileVolume != -1 ==> (r == 0.0 <==> fileVolume != candidateVolume)
  {
    if fileVolume == -1 then 0.5
    else if fileVolume == candidateVolume then 1.0
    else 0.0
  }

  /** Publisher match ignoring letter case; neutral 0.5 for an empty or "unknown" publisher. */
  function EditorScore(fileEditor: string, candidateEditor: string): (r: real)
    ensures !UsableTitle(fileEditor) ==> r == 0.5
    ensures UsableTitle(fileEditor) ==> (r == 1.0 <==> Lower(fileEditor) == Lower(candidateEditor))
    ensures UsableTitle(fileEditor) ==> (r == 0.0 <==> Lower(fileEditor) != Lower(candidateEditor))
  {
    if !UsableTitle(fileEditor) then 0.5
    else if Lower(fileEditor) == Lower(candidateEditor) then 1.0
    else 0.0
  }

  function Abs(n: int): nat {
    if n < 0 then -n else n
  }

  /**
   * Year proximity: 1 for the same year, losing 0.15 per year of distance up
   * to the tolerance of 2, then 0; neutral 0.5 when the file name has no year.
   */
  function YearScore(fileYear: int, candidateYear: int): (r: real)
    ensures 0.0 <= r <= 1.0
    ensures fileYear == -1 ==> r == 0.5
    ensures fileYear != -1 && fileYear == candidateYear ==> r == 1.0
    ensures fileYear != -1 && Abs(fileYear - candidateYear) > YearTolerance ==> r == 0.0
    ensures fileYear != -1 && 0 < Abs(fileYear - candidateYear) <= YearTolerance ==> 0.0 < r < 1.0
    ensures fileYear != -1 && Abs(fileYear - candidateYear) <= YearTolerance ==>
              r == 1.0 - 0.15 * Abs(fileYear - candidateYear) as real
  {
    if fileYear == -1 then 0.5
    else
      var d := Abs(fileYear - candidateYear);
      if d <= YearTolerance then 1.0 - (d as real / 2.0 * 0.3) else 0.0
  }

  /** A year farther away never scores higher. */
  lemma YearScoreMonotone(fileYear: int, a: int, b: int)
    requires fileYear != -1 && Abs(fileYear - a) <= Abs(fileYear - b)
    ensures YearScore(fileYear, b) <= YearScore(fileYear, a)
  {
  }

  /**
   * The weighted sum of the four criteria before the title adjustment: cover
   * 40%, volume 30%, publisher 15%, year 15%.
   */
  function BaseScore(cover: real, volume: real, editor: real, year: real): (r: real)
    ensures 0.0 <= cover <= 1.0 && 0.0 <= volume <= 1.0 && 0.0 <= editor <= 1.0 && 0.0 <= year <= 1.0
            ==> 0.0 <= r <= 1.0
  {
    cover * 0.40 + volume * 0.30 + editor * 0.15 + year * 0.15
  }

  function Clamp01(x: real): (r: real)
    ensures 0.0 <= r <= 1.0
    ensures 0.0 <= x <= 1.0 ==> r == x
  {
    if x < 0.0 then 0.0 else if x > 1.0 then 1.0 else x
  }

  /** Everything known about one candidate, in the form `score_candidate` receives it. */
  datatype Evidence = Evidence(
    coverSimilarity: real,
    fileTitle: string, candidateTitle: string, titleRatio: real,
    fileVolume: int, candidateVolume: int,
    fileEditor: string, candidateEditor: string,
    fileYear: int, candidateYear: int)

  /** What `score_candidate` receives when it is given only a cover similarity. */
  function CoverOnly(similarity: real): Evidence {
    Evidence(similarity, "unknown", "unknown", 0.0, -1, -1, "unknown", "unknown", -1, -1)
  }

  /**
   * The candidate score: the weighted criteria, shifted by up to +-0.1 by the
   * title score when both titles are usable, then clamped to [0, 1].
   */
  function ScoreCandidate(e: Evidence): (r: real)
    requires 0.0 <= e.titleRatio <= 100.0
    ensures 0.0 <= r <= 1.0
  {
    var base := BaseScore(CoverScore(e.coverSimilarity), VolumeScore(e.fileVolume, e.candidateVolume),
                          EditorScore(e.fileEditor, e.candidateEditor), YearScore(e.fileYear, e.candidateYear));
    var adjusted :=
      if UsableTitle(e.fileTitle) && UsableTitle(e.candidateTitle)
      then base + 0.2 * (TitleScore(e.fileTitle, e.candidateTitle, e.titleRatio) - 0.5)
      else base;
    Clamp01(adjusted)
  }

  /**
   * The scoring rule for every input: cover, volume, publisher and year weighted
   * 0.40/0.30/0.15/0.15; when both titles are usable the title score moves the
   * sum by 0.2 * (title - 0.5), at most 0.1 either way; the result is clamped.
   */
  lemma ScoreCandidateWeighted(e: Evidence)
    requires 0.0 <= e.titleRatio <= 100.0
    ensures var cover := CoverScore(e.coverSimilarity);
            var volume := VolumeScore(e.fileVolume, e.candidateVolume);
            var editor := EditorScore(e.fileEditor, e.candidateEditor);
            var year := YearScore(e.fileYear, e.candidateYear);
            var weighted := 0.40 * cover + 0.30 * volume + 0.15 * editor + 0.15 * year;
            if UsableTitle(e.fileTitle) && UsableTitle(e.candidateTitle) then
              var title := TitleScore(e.fileTitle, e.candidateTitle, e.titleRatio);
              ScoreCandidate(e) == Clamp01(weighted + 0.2 * (title - 0.5))
              && -0.1 <= ScoreCandidate(e) - weighted <= 0.1
            else
              ScoreCandidate(e) == weighted
  {
  }

  /** A candidate agreeing on everything, with a full cover match, scores 1. */
  lemma PerfectMatchScoresOne(e: Evidence)
    requires e.coverSimilarity >= 100.0
    requires e.fileVolume != -1 && e.fileVolume == e.candidateVolume
    requires UsableTitle(e.fileEditor) && Lower(e.fileEditor) == Lower(e.candidateEditor)
    requires e.fileYear != -1 && e.fileYear == e.candidateYear
    requires UsableTitle(e.fileTitle) && UsableTitle(e.candidateTitle) && e.titleRatio == 100.0
    ensures ScoreCandidate(e) == 1.0
  {
  }

  /** With nothing known but a full cover match, the neutral criteria give 0.7. */
  lemma CoverOnlyScore()
    ensures ScoreCandidate(CoverOnly(100.0)) == 0.7
  {
    assert Lower("unknown") == "unknown";
  }

  /** A candidate whose volume is known to differ never scores above 0.8. */
  lemma WrongVolumeCapped(e: Evidence)
    requires 0.0 <= e.titleRatio <= 100.0
    requires e.fileVolume != -1 && e.fileVolume != e.candidateVolume
    ensures ScoreCandidate(e) <= 0.8
  {
  }

  /** With everything else equal, a better cover match never lowers the score. */
  lemma ScoreMonotoneInCover(e: Evidence, better: real)
    requires 0.0 <= e.titleRatio <= 100.0 && e.coverSimilarity <= better
    ensures ScoreCandidate(e) <= ScoreCandidate(e.(coverSimilarity := better))
  {
    CoverScoreMonotone(e.coverSimilarity, better);
  }

  /** The metadata read from the file name; a missing key is `None`. */
  datatype FileMetadata = FileMetadata(
    title: Option<string>, volume: Option<int>, editor: Option<string>, year: Option<int>)

  /** One candidate's metadata; a missing key is `None`. */
  datatype CandidateMetadata = CandidateMetadata(
    series: Option<string>, title: Option<string>, volume: Option<int>,
    editor: Option<string>, year: Option<int>)

  /** The title a candidate is compared under: "series title", or its bare title when that is empty. */
  function CandidateTitle(c: CandidateMetadata): (t: string)
    ensures c.series.None? && c.title.None? ==> t == "unknown"
    ensures var full := Strip(c.series.GetOr("") + " " + c.title.GetOr(""));
            full != [] ==> t == full
    ensures var full := Strip(c.series.GetOr("") + " " + c.title.GetOr(""));
            full == [] ==> t == c.title.GetOr("unknown")
  {
    var full := Strip(c.series.GetOr("") + " " + c.title.GetOr(""));
    if full != [] then full else c.title.GetOr("unknown")
  }

  /** The evidence for one candidate, with the defaults `score_candidates` uses for missing keys. */
  function EvidenceFor(f: FileMetadata, c: CandidateMetadata, similarity: real,
                       fuzz: (string, string) -> real): Evidence
  {
    var fileTitle := f.title.GetOr("unknown");
    var candidateTitle := CandidateTitle(c);
    Evidence(similarity, fileTitle, candidateTitle, fuzz(fileTitle, candidateTitle),
             f.volume.GetOr(-1), c.volume.GetOr(-1),
             f.editor.GetOr("unknown"), c.editor.GetOr("unknown"),
             f.year.GetOr(-1), c.year.GetOr(-1))
  }

  /** The token-set ratio stays a percentage. */
  ghost predicate IsRatio(fuzz: (string, string) -> real) {
    forall a, b :: 0.0 <= fuzz(a, b) <= 100.0
  }

  function ScoreOf(p: (CandidateMetadata, real)): real {
    p.1
  }

  /** A candidate paired with its score. */
  function Scored(f: FileMetadata, c: CandidateMetadata, similarity: real, fuzz: (string, string) -> real)
    : (p: (CandidateMetadata, real))
    requires IsRatio(fuzz)
    ensures p.0 == c && 0.0 <= p.1 <= 1.0
  {
    (c, ScoreCandidate(EvidenceFor(f, c, similarity, fuzz)))
  }

  /** The candidates paired with their scores, in input order, as far as both lists go (`zip`). */
  function ZipScores(f: FileMetadata, candidates: seq<CandidateMetadata>, similarities: seq<real>,
                     fuzz: (string, string) -> real): (pairs: seq<(CandidateMetadata, real)>)
    requires IsRatio(fuzz)
    ensures |pairs| == if |candidates| < |similarities| then |candidates| else |similarities|
  {
    if candidates == [] || similarities == [] then []
    else [Scored(f, candidates[0], similarities[0], fuzz)] + ZipScores(f, candidates[1..], similarities[1..], fuzz)
  }

  /** `zip` from position `i` on: the pair at `i`, then the rest. */
  lemma ZipScoresFrom(f: FileMetadata, candidates: seq<CandidateMetadata>, similarities: seq<real>,
                      fuzz: (string, string) -> real, i: nat)
    requires IsRatio(fuzz) && i < |candidates| && i < |similarities|
    ensures ZipScores(f, candidates[i..], similarities[i..], fuzz)
            == [Scored(f, candidates[i], similarities[i], fuzz)] + ZipScores(f, candidates[i + 1..], similarities[i + 1..], fuzz)
  {
    assert candidates[i..][1..] == candidates[i + 1..];
    assert similarities[i..][1..] == similarities[i + 1..];
  }

  /**
   * Scores each candidate against its cover similarity (the pairs `zip`
   * forms, so the shorter list decides how many) and ranks them by score,
   * highest first, keeping the input order among equal scores.
   */
  method ScoreCandidates(f: FileMetadata, candidates: seq<CandidateMetadata>, similarities: seq<real>,
                         fuzz: (string, string) -> real)
    returns (scored: seq<(CandidateMetadata, real)>)
    requires IsRatio(fuzz)
    ensures multiset(scored) == multiset(ZipScores(f, candidates, similarities, fuzz))
    ensures forall i, j :: 0 <= i < j < |scored| ==> scored[i].1 >= scored[j].1
    ensures forall k :: Level(scored, KeyDesc(ScoreOf), k)
                     == Level(ZipScores(f, candidates, similarities, fuzz), KeyDesc(ScoreOf), k)
  {
    var pairs := ScoreEach(f, candidates, similarities, fuzz);
    scored := SortDesc(pairs, ScoreOf);
    RankedByScore(pairs);
  }

  /** The scoring loop of `score_candidates`: each zipped pair scored, in input order. */
  method ScoreEach(f: FileMetadata, candidates: seq<CandidateMetadata>, similarities: seq<real>,
                   fuzz: (string, string) -> real)
    returns (pairs: seq<(CandidateMetadata, real)>)
    requires IsRatio(fuzz)
    ensures pairs == ZipScores(f, candidates, similarities, fuzz)
  {
    var n := if |candidates| < |similarities| then |candidates| else |similarities|;
    pairs := [];
    var i := 0;
    assert candidates[0..] == candidates && similarities[0..] == similarities;
    while i < n
      invariant 0 <= i <= n
      invariant pairs + ZipScores(f, candidates[i..], similarities[i..], fuzz)
             == ZipScores(f, candidates, similarities, fuzz)
    {
      var pair := Scored(f, candidates[i], similarities[i], fuzz);
      ZipScoresFrom(f, candidates, similarities, fuzz, i);
      AppendPrefix(pairs, pair, ZipScores(f, candidates[i + 1..], similarities[i + 1..], fuzz));
      pairs := pairs + [pair];
      i := i + 1;
    }
    assert |ZipScores(f, candidates[n..], similarities[n..], fuzz)| == 0;
    assert pairs + [] == pairs;
  }

  /** Ranking by score: a permutation, highest score first, input order kept among equal scores. */
  lemma RankedByScore(pairs: seq<(CandidateMetadata, real)>)
    ensures multiset(SortDesc(pairs, ScoreOf)) == multiset(pairs)
    ensures forall i, j :: 0 <= i < j < |SortDesc(pairs, ScoreOf)| ==> SortDesc(pairs, ScoreOf)[i].1 >= SortDesc(pairs, ScoreOf)[j].1
    ensures forall k :: Level(SortDesc(pairs, ScoreOf), KeyDesc(ScoreOf), k) == Level(pairs, KeyDesc(ScoreOf), k)
  {
    SortDescOrdered(pairs, ScoreOf);
    SortDescStable(pairs, ScoreOf);
  }
}
