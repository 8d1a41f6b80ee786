/**
 * The regular expressions both scrapers use to read an album heading such
 * as "Astérix Tome 12 - Astérix aux jeux olympiques", written out as
 * matchers over positions with the meaning `re.search` gives them:
 * the leftmost match, the lazy `(.+?)` as short as possible, the greedy
 * `\s*`, `\d+`, `(.+)` as long as possible, `re.IGNORECASE` on the words,
 * and `.` matching anything but a line break.
 *
 * Each pattern is `(.+?)` followed by a tail that, from a given position,
 * can match in one way only; that tail is written out as a function, and
 * the search tries the positions in the order the regex engine does.
 */
module Patterns {
  import opened Wrappers
  import opened Text

  /** Does the word `w` (lower case) occur at `i`, ignoring case? */
  predicate WordAt(t: string, i: nat, w: string) {
    i + |w| <= |t| && Lower(t[i..i + |w|]) == w
  }

  /** The class `[-–]`: a hyphen or an en dash. */
  predicate IsDash(c: char) {
    c == '-' || c == '\U{2013}'
  }

  /** Start of the line holding position `e`: `(.+?)` cannot reach back over a line break. */
  function LineStart(t: string, e: nat): (k: nat)
    requires e <= |t|
    ensures k <= e
    ensures k == 0 || t[k - 1] == '\n'
    ensures forall m :: k <= m < e ==> t[m] != '\n'
  {
    if e == 0 || t[e - 1] == '\n' then e else LineStart(t, e - 1)
  }

  /** End of the line holding position `i`: where the greedy `(.+)` stops. */
  function LineEnd(t: string, i: nat): (j: nat)
    requires i <= |t|
    ensures i <= j <= |t|
    ensures j == |t| || t[j] == '\n'
    ensures forall m :: i <= m < j ==> t[m] != '\n'
    decreases |t| - i
  {
    if i == |t| || t[i] == '\n' then i else LineEnd(t, i + 1)
  }

  /**
   * The last position in `[i, j)` that is not a line break: where `(.+)`
   * starts once the greedy `\s*` before it gives characters back.
   */
  function BackOff(t: string, i: nat, j: nat): (k: Option<nat>)
    requires i <= j <= |t|
    ensures k.Some? ==> i <= k.value < j && t[k.value] != '\n'
    ensures k.Some? ==> forall m :: k.value < m < j ==> t[m] == '\n'
    ensures k.None? ==> forall m :: i <= m < j ==> t[m] == '\n'
    decreases j
  {
    if j == i then None else if t[j - 1] != '\n' then Some(j - 1) else BackOff(t, i, j - 1)
  }

  /** Where the group of `\s*(.+)` matched at `i` starts, if it matches. */
  function TailStart(t: string, i: nat): (k: Option<nat>)
    requires i <= |t|
    ensures k.Some? ==> i <= k.value < |t| && t[k.value] != '\n'
    ensures k.Some? ==> forall m :: i <= m < k.value ==> IsSpace(t[m])
  {
    var j := SkipSpaces(t, i);
    if j < |t| && t[j] != '\n' then Some(j) else BackOff(t, i, j)
  }

  /** The positions a match of a pattern's tail fixes: the volume digits, the separator, the title group. */
  datatype Tail = Tail(digitsFrom: nat, digitsTo: nat, sepAt: nat, titleFrom: nat)

  /** Is `c` the separator before the title: `[-:]` for BDGest, `[-–]` for BDfugue? */
  predicate IsSep(colon: bool, c: char) {
    if colon then c == '-' || c == ':' else IsDash(c)
  }

  /** `(\d+)\s*[sep]\s*(.+)` at `c`. */
  function NumberTail(t: string, c: nat, colon: bool): (g: Option<Tail>)
    requires c <= |t|
    ensures g.Some? ==> c == g.value.digitsFrom < g.value.digitsTo <= g.value.sepAt < g.value.titleFrom < |t|
    ensures g.Some? ==> AllDigits(t[g.value.digitsFrom..g.value.digitsTo]) && IsSep(colon, t[g.value.sepAt])
    ensures g.Some? ==> t[g.value.titleFrom] != '\n'
  {
    var d := DigitRunEnd(t, c);
    var f := SkipSpaces(t, d);
    if d == c || f == |t| || !IsSep(colon, t[f]) then None
    else
      match TailStart(t, f + 1)
      case None => None
      case Some(k) => Some(Tail(c, d, f, k))
  }

  /** End of `(?:Tome|T\.?|Vol\.?)` at `b` (`Vol` only when `vol`). */
  function VolumeWordEnd(t: string, b: nat, vol: bool): (p: Option<nat>)
    requires b <= |t|
    ensures p.Some? ==> b < p.value <= |t|
  {
    if WordAt(t, b, "tome") then Some(b + 4)
    else if WordAt(t, b, "t") then Some(if WordAt(t, b + 1, ".") then b + 2 else b + 1)
    else if vol && WordAt(t, b, "vol") then Some(if WordAt(t, b + 3, ".") then b + 4 else b + 3)
    else None
  }

  /** The title patterns of the two scrapers. */
  datatype Pattern =
    /** BDGest: `(.+?)\s+Tome\s+(\d+)\s*[-:]\s*(.+)`. */
    | TomeWord
    /** BDfugue: `(.+?)\s*[-–]\s*(?:Tome|T\.?|Vol\.?)\s*(\d+)\s*[-–]\s*(.+)`; without `Vol` on detail pages. */
    | DashTome(vol: bool)
    /** BDfugue's second try: `(.+?)\s+T\.?(\d+)\s*[-–]\s*(.+)`. */
    | ShortTome

  /** The match of the pattern after `(.+?)`, when the lazy group ends at `e`. */
  function RestAt(p: Pattern, t: string, e: nat): (g: Option<Tail>)
    requires e <= |t|
    ensures g.Some? ==> e < g.value.digitsFrom
  {
    var a := SkipSpaces(t, e);
    match p
    case TomeWord =>
      if a == e || !WordAt(t, a, "tome") then None
      else
        var b := SkipSpaces(t, a + 4);
        if b == a + 4 then None else NumberTail(t, b, true)
    case DashTome(vol) =>
      if a == |t| || !IsDash(t[a]) then None
      else
        (match VolumeWordEnd(t, SkipSpaces(t, a + 1), vol)
         case None => None
         case Some(q) => NumberTail(t, SkipSpaces(t, q), false))
    case ShortTome =>
      if a == e || !WordAt(t, a, "t") then None
      else NumberTail(t, if WordAt(t, a + 1, ".") then a + 2 else a + 1, false)
  }

  /** Can the lazy group end at `e`: it holds a character of `e`'s line, and the rest of the pattern matches there? */
  predicate Candidate(p: Pattern, t: string, e: nat) {
    1 <= e <= |t| && t[e - 1] != '\n' && RestAt(p, t, e).Some?
  }

  /** A match: the lazy group ends at `seriesEnd` and the tail is `tail`. */
  datatype Match = Match(seriesEnd: nat, tail: Tail)

  /** For each end `e` of the lazy group, the tail that matches there, if `e` is a candidate. */
  function Ends(p: Pattern, t: string): (r: seq<Option<Tail>>)
    ensures |r| == |t| + 1
    ensures forall e :: 0 <= e <= |t| ==> (r[e].Some? <==> Candidate(p, t, e))
    ensures forall e :: 0 <= e <= |t| && r[e].Some? ==> RestAt(p, t, e) == r[e]
  {
    seq(|t| + 1, e requires 0 <= e <= |t| => if 1 <= e && t[e - 1] != '\n' then RestAt(p, t, e) else None)
  }

  /** The first index at or after `e` holding a value. */
  function FirstSome<T>(s: seq<Option<T>>, e: nat): (i: Option<nat>)
    ensures i.Some? ==> e <= i.value < |s| && s[i.value].Some?
    ensures i.Some? ==> forall j :: e <= j < i.value ==> s[j].None?
    ensures i.None? ==> forall j :: e <= j < |s| ==> s[j].None?
    decreases |s| - e
  {
    if e >= |s| then None else if s[e].Some? then Some(e) else FirstSome(s, e + 1)
  }

  /**
   * The search from `e` on. The regex engine tries the start positions left
   * to right and, for each, the ends of `(.+?)` left to right; the first
   * success is on the line of the first end `e` that is a candidate, with
   * the group starting at that line's start.
   */
  function FirstMatch(p: Pattern, t: string, e: nat): (m: Option<Match>)
    ensures m.Some? ==> e <= m.value.seriesEnd && Candidate(p, t, m.value.seriesEnd)
    ensures m.Some? ==> RestAt(p, t, m.value.seriesEnd) == Some(m.value.tail)
    ensures m.Some? ==> forall e' :: e <= e' < m.value.seriesEnd ==> !Candidate(p, t, e')
    ensures m.None? ==> forall e' :: e <= e' ==> !Candidate(p, t, e')
  {
    var ends := Ends(p, t);
    match FirstSome(ends, e)
    case None => None
    case Some(i) => Some(Match(i, ends[i].value))
  }

  /** A heading taken apart: `(series, volume, title)` after `.strip()` and `int()`. */
  datatype Heading = Heading(series: Option<string>, volume: Option<int>, title: string)

  /** What the scrapers make of `title_text` with one pattern: the groups on a match, the whole text otherwise. */
  function Parse(p: Pattern, t: string): (h: Heading)
    ensures h.series.Some? <==> h.volume.Some?
    ensures h.series.None? ==> h.title == t
    ensures h.volume.Some? ==> h.volume.value >= 0
  {
    match FirstMatch(p, t, 1)
    case None => Heading(None, None, t)
    case Some(Match(e, Tail(ds, de, _, k))) =>
      Heading(Some(Strip(t[LineStart(t, e)..e])), Some(DigitsValue(t[ds..de])), Strip(t[k..LineEnd(t, k)]))
  }

  // ---------------------------------------------------------------- numbers in free text

  /** Four digits at `j`: `\d{4}`. */
  predicate FourDigits(s: string, j: nat) {
    j + 4 <= |s| && AllDigits(s[j..j + 4])
  }

  /** `re.search(r'(\d{4})', s)`: where the first run of four digits starts. */
  function FourDigitsAt(s: string, i: nat): (k: Option<nat>)
    requires i <= |s|
    ensures k.Some? ==> i <= k.value && FourDigits(s, k.value)
    ensures k.Some? ==> forall j :: i <= j < k.value ==> !FourDigits(s, j)
    ensures k.None? ==> forall j :: i <= j ==> !FourDigits(s, j)
    decreases |s| - i
  {
    if i + 4 > |s| then None
    else if FourDigits(s, i) then Some(i)
    else FourDigitsAt(s, i + 1)
  }

  /** `int(m.group(1))` for `re.search(r'(\d{4})', s)`, or `None` without a match. */
  function FirstYear(s: string): (y: Option<int>)
    ensures y.Some? ==> 0 <= y.value <= 9999
  {
    match FourDigitsAt(s, 0)
    case None => None
    case Some(k) => FourDigitsBound(s[k..k + 4]); Some(DigitsValue(s[k..k + 4]))
  }

  lemma {:induction false} FourDigitsBound(d: string)
    requires |d| <= 4 && AllDigits(d)
    ensures DigitsValue(d) < Pow10(|d|)
    decreases |d|
  {
    if d != [] {
      FourDigitsBound(d[..|d| - 1]);
    }
  }

  function Pow10(n: nat): nat {
    if n == 0 then 1 else 10 * Pow10(n - 1)
  }

  /** Where the first digit of `s` at or after `i` is. */
  function FirstDigitAt(s: string, i: nat): (k: Option<nat>)
    requires i <= |s|
    ensures k.Some? ==> i <= k.value < |s| && IsDigit(s[k.value])
    ensures k.Some? ==> forall j :: i <= j < k.value ==> !IsDigit(s[j])
    ensures k.None? ==> forall j :: i <= j < |s| ==> !IsDigit(s[j])
    decreases |s| - i
  {
    if i == |s| then None else if IsDigit(s[i]) then Some(i) else FirstDigitAt(s, i + 1)
  }

  /** `int(m.group(1))` for `re.search(r'(\d+)', s)`: the first run of digits, whole. */
  function FirstNumber(s: string): (n: Option<int>)
    ensures n.Some? ==> n.value >= 0
    ensures n.None? <==> forall j :: 0 <= j < |s| ==> !IsDigit(s[j])
  {
    match FirstDigitAt(s, 0)
    case None => None
    case Some(k) => Some(DigitsValue(s[k..DigitRunEnd(s, k)]))
  }

  // ---------------------------------------------------------------- headings of the usual shape

  lemma SkipSpacesIs(t: string, j: nat, k: nat)
    requires j <= k <= |t|
    requires forall m :: j <= m < k ==> IsSpace(t[m])
    requires k == |t| || !IsSpace(t[k])
    ensures SkipSpaces(t, j) == k
  {
  }

  lemma DigitRunEndIs(t: string, j: nat, k: nat)
    requires j <= k <= |t|
    requires forall m :: j <= m < k ==> IsDigit(t[m])
    requires k == |t| || !IsDigit(t[k])
    ensures DigitRunEnd(t, j) == k
  {
  }

  lemma LineEndIs(t: string, j: nat)
    requires j <= |t|
    requires forall m :: j <= m < |t| ==> t[m] != '\n'
    ensures LineEnd(t, j) == |t|
  {
  }

  /** A string without `sub` has no copy of it at any position. */
  lemma {:induction false} NotContainsAt(s: string, sub: string, i: nat)
    requires !Contains(s, sub) && i + |sub| <= |s|
    ensures s[i..i + |sub|] != sub
    decreases i
  {
    if i > 0 {
      NotContainsAt(s[1..], sub, i - 1);
      assert s[1..][i - 1..i - 1 + |sub|] == s[i..i + |sub|];
    }
  }

  /** The word "tome" ignoring case: what `Tome` matches under `re.IGNORECASE`. */
  lemma LowerTome()
    ensures Lower("Tome") == "tome"
  {
    assert LowerChar('T') == 't' && LowerChar('o') == 'o' && LowerChar('m') == 'm' && LowerChar('e') == 'e';
  }

  lemma TomeWordNone(t: string, e: nat)
    requires e <= |t|
    requires SkipSpaces(t, e) == e || !WordAt(t, SkipSpaces(t, e), "tome")
    ensures RestAt(TomeWord, t, e).None?
  {
  }

  /**
   * In `S + rest`, with `rest` starting with a space and `S` free of the word
   * "tome" and not ending in whitespace, BDGest's pattern cannot match with
   * the lazy group ending inside `S`.
   */
  lemma NoTomeInside(t: string, S: string, e: nat)
    requires |S| < |t| && t[..|S|] == S && t[|S|] == ' '
    requires S != [] && !IsSpace(S[|S| - 1]) && !Contains(Lower(S), "tome")
    requires 1 <= e < |S|
    ensures RestAt(TomeWord, t, e).None?
  {
    var n := |S|;
    var a := SkipSpaces(t, e);
    assert a < n by {
      assert t[n - 1] == S[n - 1];
    }
    NoTomeWordAt(t, S, a);
    TomeWordNone(t, e);
  }

  /** No "tome" starts inside `S` in `S + rest`, `rest` starting with a space. */
  lemma NoTomeWordAt(t: string, S: string, a: nat)
    requires |S| < |t| && t[..|S|] == S && t[|S|] == ' '
    requires !Contains(Lower(S), "tome") && a < |S|
    ensures !WordAt(t, a, "tome")
  {
    var n := |S|;
    if a + 4 <= n {
      NotContainsAt(Lower(S), "tome", a);
      assert Lower(t[a..a + 4]) == Lower(S)[a..a + 4];
    } else if a + 4 <= |t| {
      assert Lower(t[a..a + 4])[n - a] == ' ';
    }
  }

  /** The search finds the first candidate. */
  lemma FirstMatchIs(p: Pattern, t: string, n: nat)
    requires Candidate(p, t, n)
    requires forall e :: 1 <= e < n ==> !Candidate(p, t, e)
    ensures FirstMatch(p, t, 1) == Some(Match(n, RestAt(p, t, n).value))
  {
  }

  /** Where a one-line `S` is followed by a one-line `T`, a match there splits into them. */
  lemma ParseIs(p: Pattern, t: string, S: string, T: string, tail: Tail)
    requires |S| <= tail.digitsFrom <= tail.digitsTo <= |t| && AllDigits(t[tail.digitsFrom..tail.digitsTo])
    requires t[..|S|] == S && '\n' !in S
    requires tail.titleFrom + |T| == |t| && t[tail.titleFrom..] == T && '\n' !in T
    requires FirstMatch(p, t, 1) == Some(Match(|S|, tail))
    ensures Parse(p, t) == Heading(Some(Strip(S)), Some(DigitsValue(t[tail.digitsFrom..tail.digitsTo])), Strip(T))
  {
    var n := |S|;
    assert LineStart(t, n) == 0;
    forall j | tail.titleFrom <= j < |t|
      ensures t[j] != '\n'
    {
      assert t[j] == T[j - tail.titleFrom];
    }
    LineEndIs(t, tail.titleFrom);
    assert t[LineStart(t, n)..n] == S;
    assert t[tail.titleFrom..LineEnd(t, tail.titleFrom)] == T;
  }

  /** `(\d+)\s*[sep]\s*(.+)` on "N - T" from `c`: the digits up to `d`, the separator one space on. */
  lemma NumberTailIs(t: string, c: nat, d: nat, colon: bool)
    requires c < d && d + 3 < |t|
    requires forall m :: c <= m < d ==> IsDigit(t[m])
    requires t[d] == ' ' && IsSep(colon, t[d + 1]) && t[d + 2] == ' '
    requires !IsSpace(t[d + 3]) && t[d + 3] != '\n'
    ensures NumberTail(t, c, colon) == Some(Tail(c, d, d + 1, d + 3))
  {
    DigitRunEndIs(t, c, d);
    SkipSpacesIs(t, d, d + 1);
    SkipSpacesIs(t, d + 2, d + 3);
    assert TailStart(t, d + 2) == Some(d + 3);
  }

  /** The tail of BDGest's pattern, laid out as " Tome N - T" from `n`. */
  lemma TomeWordAt(t: string, n: nat, d: nat)
    requires n + 6 < d && d + 3 < |t|
    requires t[n] == ' ' && t[n + 1..n + 5] == "Tome" && t[n + 5] == ' '
    requires forall m :: n + 6 <= m < d ==> IsDigit(t[m])
    requires t[d] == ' ' && (t[d + 1] == '-' || t[d + 1] == ':') && t[d + 2] == ' '
    requires !IsSpace(t[d + 3]) && t[d + 3] != '\n'
    ensures RestAt(TomeWord, t, n) == Some(Tail(n + 6, d, d + 1, d + 3))
  {
    SkipSpacesIs(t, n, n + 1);
    LowerTome();
    assert WordAt(t, n + 1, "tome");
    assert IsDigit(t[n + 6]);
    SkipSpacesIs(t, n + 5, n + 6);
    NumberTailIs(t, n + 6, d, true);
  }

  /**
   * BDGest reads "S Tome N - T" (or "S Tome N : T") as series `S`, volume
   * `N` and title `T`, when `S` is one line without the word "tome" and
   * does not end in whitespace, and `T` is one line not starting with it.
   */
  lemma TomeWordSplits(S: string, N: string, T: string, sep: char)
    requires S != [] && '\n' !in S && !IsSpace(S[|S| - 1]) && !Contains(Lower(S), "tome")
    requires N != [] && AllDigits(N)
    requires T != [] && '\n' !in T && !IsSpace(T[0])
    requires sep == '-' || sep == ':'
    ensures Parse(TomeWord, S + " Tome " + N + [' ', sep, ' '] + T)
            == Heading(Some(Strip(S)), Some(DigitsValue(N)), Strip(T))
  {
    var t := S + " Tome " + N + [' ', sep, ' '] + T;
    var n := |S|;
    var d := n + 6 + |N|;
    assert t[..n] == S && t[n] == ' ' && t[n + 1..n + 5] == "Tome" && t[n + 5] == ' ';
    assert t[n + 6..d] == N && t[d] == ' ' && t[d + 1] == sep && t[d + 2] == ' ' && t[d + 3..] == T;
    TomeWordSplitsAt(t, S, N, T, n, d);
  }

  /** BDGest's tail laid out as " Tome N - T" from `n`, the digits ending at `d`. */
  lemma TomeWordLaidOut(t: string, n: nat, d: nat, N: string)
    requires N != [] && AllDigits(N) && d == n + 6 + |N| && d + 3 < |t|
    requires t[n] == ' ' && t[n + 1..n + 5] == "Tome" && t[n + 5] == ' '
    requires t[n + 6..d] == N
    requires t[d] == ' ' && (t[d + 1] == '-' || t[d + 1] == ':') && t[d + 2] == ' '
    requires !IsSpace(t[d + 3]) && t[d + 3] != '\n'
    ensures RestAt(TomeWord, t, n) == Some(Tail(n + 6, d, d + 1, d + 3))
  {
    forall m | n + 6 <= m < d
      ensures IsDigit(t[m])
    {
      assert t[m] == N[m - n - 6];
    }
    TomeWordAt(t, n, d);
  }

  /** No end of the lazy group inside `S` is a candidate for BDGest's pattern. */
  lemma NoTomeBefore(t: string, S: string)
    requires |S| < |t| && t[..|S|] == S && t[|S|] == ' '
    requires S != [] && !IsSpace(S[|S| - 1]) && !Contains(Lower(S), "tome")
    ensures forall e :: 1 <= e < |S| ==> !Candidate(TomeWord, t, e)
  {
    forall e | 1 <= e < |S|
      ensures !Candidate(TomeWord, t, e)
    {
      NoTomeInside(t, S, e);
    }
  }

  lemma TomeWordSplitsAt(t: string, S: string, N: string, T: string, n: nat, d: nat)
    requires S != [] && '\n' !in S && !IsSpace(S[|S| - 1]) && !Contains(Lower(S), "tome")
    requires N != [] && AllDigits(N)
    requires T != [] && '\n' !in T && !IsSpace(T[0])
    requires n == |S| && d == n + 6 + |N| && |t| == d + 3 + |T|
    requires t[..n] == S && t[n] == ' ' && t[n + 1..n + 5] == "Tome" && t[n + 5] == ' '
    requires t[n + 6..d] == N
    requires t[d] == ' ' && (t[d + 1] == '-' || t[d + 1] == ':') && t[d + 2] == ' '
    requires t[d + 3..] == T
    ensures Parse(TomeWord, t) == Heading(Some(Strip(S)), Some(DigitsValue(N)), Strip(T))
  {
    assert t[d + 3] == T[0] && T[0] in T;
    TomeWordFirstMatch(t, S, N, n, d);
    ParseIs(TomeWord, t, S, T, Tail(n + 6, d, d + 1, d + 3));
  }

  /** BDGest's pattern first matches with the series ending at `n`, the title starting three characters after the digits. */
  lemma TomeWordFirstMatch(t: string, S: string, N: string, n: nat, d: nat)
    requires S != [] && '\n' !in S && !IsSpace(S[|S| - 1]) && !Contains(Lower(S), "tome")
    requires N != [] && AllDigits(N)
    requires n == |S| && d == n + 6 + |N| && d + 3 < |t|
    requires t[..n] == S && t[n] == ' ' && t[n + 1..n + 5] == "Tome" && t[n + 5] == ' '
    requires t[n + 6..d] == N
    requires t[d] == ' ' && (t[d + 1] == '-' || t[d + 1] == ':') && t[d + 2] == ' '
    requires !IsSpace(t[d + 3]) && t[d + 3] != '\n'
    ensures FirstMatch(TomeWord, t, 1) == Some(Match(n, Tail(n + 6, d, d + 1, d + 3)))
  {
    TomeWordLaidOut(t, n, d, N);
    NoTomeBefore(t, S);
    assert t[n - 1] == S[n - 1];
    FirstMatchIs(TomeWord, t, n);
  }

  // ---------------------------------------------------------------- BDfugue's headings

  /** BDfugue's first tail laid out as " - Tome N - T" from `n`, the digits ending at `d`. */
  lemma DashTomeLaidOut(t: string, n: nat, d: nat, N: string, vol: bool)
    requires N != [] && AllDigits(N) && d == n + 8 + |N| && d + 3 < |t|
    requires t[n] == ' ' && IsDash(t[n + 1]) && t[n + 2] == ' '
    requires t[n + 3..n + 7] == "Tome" && t[n + 7] == ' '
    requires t[n + 8..d] == N
    requires t[d] == ' ' && IsDash(t[d + 1]) && t[d + 2] == ' '
    requires !IsSpace(t[d + 3]) && t[d + 3] != '\n'
    ensures RestAt(DashTome(vol), t, n) == Some(Tail(n + 8, d, d + 1, d + 3))
  {
    forall m | n + 8 <= m < d
      ensures IsDigit(t[m])
    {
      assert t[m] == N[m - n - 8];
    }
    SkipSpacesIs(t, n, n + 1);
    SkipSpacesIs(t, n + 2, n + 3);
    LowerTome();
    assert WordAt(t, n + 3, "tome");
    assert VolumeWordEnd(t, n + 3, vol) == Some(n + 7);
    SkipSpacesIs(t, n + 7, n + 8);
    NumberTailIs(t, n + 8, d, false);
  }

  /** With no dash in `S`, no end of the lazy group inside `S` is a candidate for BDfugue's first pattern. */
  lemma NoDashBefore(t: string, S: string, vol: bool)
    requires |S| < |t| && t[..|S|] == S
    requires S != [] && !IsSpace(S[|S| - 1])
    requires forall i :: 0 <= i < |S| ==> !IsDash(S[i])
    ensures forall e :: 1 <= e < |S| ==> !Candidate(DashTome(vol), t, e)
  {
    forall e | 1 <= e < |S|
      ensures RestAt(DashTome(vol), t, e).None?
    {
      var a := SkipSpaces(t, e);
      assert a < |S| by {
        assert t[|S| - 1] == S[|S| - 1];
      }
      assert t[a] == S[a];
    }
  }

  /** `(\d+)\s*[-–]\s*(.+)` fails from `c` on when no dash follows `c`. */
  lemma NoDashTail(t: string, c: nat)
    requires c <= |t|
    requires forall m :: c <= m < |t| ==> !IsDash(t[m])
    ensures NumberTail(t, c, false).None?
  {
  }

  /** A heading whose only dash is at `D` does not match BDfugue's first pattern. */
  lemma OneDashNoMatch(t: string, D: nat, vol: bool)
    requires forall m :: 0 <= m < |t| && m != D ==> !IsDash(t[m])
    ensures forall e :: 0 <= e <= |t| ==> RestAt(DashTome(vol), t, e).None?
  {
    forall e | 0 <= e <= |t|
      ensures RestAt(DashTome(vol), t, e).None?
    {
      var a := SkipSpaces(t, e);
      if a < |t| && IsDash(t[a]) {
        var b := SkipSpaces(t, a + 1);
        match VolumeWordEnd(t, b, vol)
        case None =>
        case Some(q) =>
          NoDashTail(t, SkipSpaces(t, q));
      }
    }
  }

  lemma DashTomeSplitsAt(t: string, S: string, N: string, T: string, n: nat, d: nat, vol: bool)
    requires S != [] && '\n' !in S && !IsSpace(S[|S| - 1])
    requires forall i :: 0 <= i < |S| ==> !IsDash(S[i])
    requires N != [] && AllDigits(N)
    requires T != [] && '\n' !in T && !IsSpace(T[0])
    requires n == |S| && d == n + 8 + |N| && |t| == d + 3 + |T|
    requires t[..n] == S && t[n] == ' ' && IsDash(t[n + 1]) && t[n + 2] == ' '
    requires t[n + 3..n + 7] == "Tome" && t[n + 7] == ' '
    requires t[n + 8..d] == N
    requires t[d] == ' ' && IsDash(t[d + 1]) && t[d + 2] == ' '
    requires t[d + 3..] == T
    ensures Parse(DashTome(vol), t) == Heading(Some(Strip(S)), Some(DigitsValue(N)), Strip(T))
  {
    assert t[d + 3] == T[0] && T[0] in T;
    DashTomeFirstMatch(t, S, N, n, d, vol);
    ParseIs(DashTome(vol), t, S, T, Tail(n + 8, d, d + 1, d + 3));
  }

  /** BDfugue's first pattern first matches with the series ending at `n`, the title starting three characters after the digits. */
  lemma DashTomeFirstMatch(t: string, S: string, N: string, n: nat, d: nat, vol: bool)
    requires S != [] && '\n' !in S && !IsSpace(S[|S| - 1])
    requires forall i :: 0 <= i < |S| ==> !IsDash(S[i])
    requires N != [] && AllDigits(N)
    requires n == |S| && d == n + 8 + |N| && d + 3 < |t|
    requires t[..n] == S && t[n] == ' ' && IsDash(t[n + 1]) && t[n + 2] == ' '
    requires t[n + 3..n + 7] == "Tome" && t[n + 7] == ' '
    requires t[n + 8..d] == N
    requires t[d] == ' ' && IsDash(t[d + 1]) && t[d + 2] == ' '
    requires !IsSpace(t[d + 3]) && t[d + 3] != '\n'
    ensures FirstMatch(DashTome(vol), t, 1) == Some(Match(n, Tail(n + 8, d, d + 1, d + 3)))
  {
    DashTomeLaidOut(t, n, d, N, vol);
    NoDashBefore(t, S, vol);
    assert t[n - 1] == S[n - 1];
    FirstMatchIs(DashTome(vol), t, n);
  }

  /**
   * BDfugue reads "S - Tome N - T" as series `S`, volume `N` and title `T`
   * (with a hyphen or an en dash at either place), when `S` is one line
   * without a dash that does not end in whitespace, and `T` is one line not
   * starting with it; on detail pages as well as in search listings.
   */
  lemma DashTomeSplits(S: string, N: string, T: string, dash1: char, dash2: char, vol: bool)
    requires S != [] && '\n' !in S && !IsSpace(S[|S| - 1])
    requires forall i :: 0 <= i < |S| ==> !IsDash(S[i])
    requires N != [] && AllDigits(N)
    requires T != [] && '\n' !in T && !IsSpace(T[0])
    requires IsDash(dash1) && IsDash(dash2)
    ensures Parse(DashTome(vol), S + [' ', dash1, ' '] + "Tome " + N + [' ', dash2, ' '] + T)
            == Heading(Some(Strip(S)), Some(DigitsValue(N)), Strip(T))
  {
    var t := S + [' ', dash1, ' '] + "Tome " + N + [' ', dash2, ' '] + T;
    var n := |S|;
    var d := n + 8 + |N|;
    assert t[..n] == S && t[n] == ' ' && t[n + 1] == dash1 && t[n + 2] == ' ';
    assert t[n + 3..n + 7] == "Tome" && t[n + 7] == ' ';
    assert t[n + 8..d] == N && t[d] == ' ' && t[d + 1] == dash2 && t[d + 2] == ' ' && t[d + 3..] == T;
    DashTomeSplitsAt(t, S, N, T, n, d, vol);
  }

  /** BDfugue's second tail laid out as " T.N - T" from `n`, the digits ending at `d`. */
  lemma ShortTomeLaidOut(t: string, n: nat, d: nat, N: string)
    requires N != [] && AllDigits(N) && d == n + 3 + |N| && d + 3 < |t|
    requires t[n] == ' ' && t[n + 1] == 'T' && t[n + 2] == '.'
    requires t[n + 3..d] == N
    requires t[d] == ' ' && IsDash(t[d + 1]) && t[d + 2] == ' '
    requires !IsSpace(t[d + 3]) && t[d + 3] != '\n'
    ensures RestAt(ShortTome, t, n) == Some(Tail(n + 3, d, d + 1, d + 3))
  {
    forall m | n + 3 <= m < d
      ensures IsDigit(t[m])
    {
      assert t[m] == N[m - n - 3];
    }
    SkipSpacesIs(t, n, n + 1);
    assert WordAt(t, n + 1, "t") by {
      assert Lower(t[n + 1..n + 2])[0] == LowerChar('T') == 't';
    }
    assert WordAt(t, n + 2, ".") by {
      assert Lower(t[n + 2..n + 3])[0] == LowerChar('.') == '.';
    }
    NumberTailIs(t, n + 3, d, false);
  }

  /** With no digit in `S`, no end of the lazy group inside `S` is a candidate for BDfugue's second pattern. */
  lemma NoShortTomeBefore(t: string, S: string)
    requires |S| < |t| && t[..|S|] == S && t[|S|] == ' '
    requires S != [] && !IsSpace(S[|S| - 1])
    requires forall i :: 0 <= i < |S| ==> !IsDigit(S[i])
    ensures forall e :: 1 <= e < |S| ==> !Candidate(ShortTome, t, e)
  {
    forall e | 1 <= e < |S|
      ensures RestAt(ShortTome, t, e).None?
    {
      var a := SkipSpaces(t, e);
      assert a < |S| by {
        assert t[|S| - 1] == S[|S| - 1];
      }
      if a != e && WordAt(t, a, "t") {
        var c := if WordAt(t, a + 1, ".") then a + 2 else a + 1;
        assert c <= |S| by {
          if a + 1 == |S| {
            assert Lower(t[a + 1..a + 2]) == [LowerChar(' ')];
          }
        }
        assert !IsDigit(t[c]) by {
          if c < |S| {
            assert t[c] == S[c];
          }
        }
        DigitRunEndIs(t, c, c);
      }
    }
  }

  lemma ShortTomeSplitsAt(t: string, S: string, N: string, T: string, n: nat, d: nat)
    requires S != [] && '\n' !in S && !IsSpace(S[|S| - 1])
    requires forall i :: 0 <= i < |S| ==> !IsDigit(S[i])
    requires N != [] && AllDigits(N)
    requires T != [] && '\n' !in T && !IsSpace(T[0])
    requires n == |S| && d == n + 3 + |N| && |t| == d + 3 + |T|
    requires t[..n] == S && t[n] == ' ' && t[n + 1] == 'T' && t[n + 2] == '.'
    requires t[n + 3..d] == N
    requires t[d] == ' ' && IsDash(t[d + 1]) && t[d + 2] == ' '
    requires t[d + 3..] == T
    ensures Parse(ShortTome, t) == Heading(Some(Strip(S)), Some(DigitsValue(N)), Strip(T))
  {
    assert t[d + 3] == T[0] && T[0] in T;
    ShortTomeFirstMatch(t, S, N, n, d);
    ParseIs(ShortTome, t, S, T, Tail(n + 3, d, d + 1, d + 3));
  }

  /** BDfugue's second pattern first matches with the series ending at `n`, the title starting three characters after the digits. */
  lemma ShortTomeFirstMatch(t: string, S: string, N: string, n: nat, d: nat)
    requires S != [] && '\n' !in S && !IsSpace(S[|S| - 1])
    requires forall i :: 0 <= i < |S| ==> !IsDigit(S[i])
    requires N != [] && AllDigits(N)
    requires n == |S| && d == n + 3 + |N| && d + 3 < |t|
    requires t[..n] == S && t[n] == ' ' && t[n + 1] == 'T' && t[n + 2] == '.'
    requires t[n + 3..d] == N
    requires t[d] == ' ' && IsDash(t[d + 1]) && t[d + 2] == ' '
    requires !IsSpace(t[d + 3]) && t[d + 3] != '\n'
    ensures FirstMatch(ShortTome, t, 1) == Some(Match(n, Tail(n + 3, d, d + 1, d + 3)))
  {
    ShortTomeLaidOut(t, n, d, N);
    NoShortTomeBefore(t, S);
    assert t[n - 1] == S[n - 1];
    FirstMatchIs(ShortTome, t, n);
  }

  /**
   * BDfugue's second pattern reads "S T.N - T" as series `S`, volume `N`
   * and title `T` when `S` is one line without digits that does not end in
   * whitespace, and `T` is one line not starting with it.
   */
  lemma ShortTomeSplits(S: string, N: string, T: string, dash: char)
    requires S != [] && '\n' !in S && !IsSpace(S[|S| - 1])
    requires forall i :: 0 <= i < |S| ==> !IsDigit(S[i])
    requires N != [] && AllDigits(N)
    requires T != [] && '\n' !in T && !IsSpace(T[0])
    requires IsDash(dash)
    ensures Parse(ShortTome, S + " T." + N + [' ', dash, ' '] + T)
            == Heading(Some(Strip(S)), Some(DigitsValue(N)), Strip(T))
  {
    var t := S + " T." + N + [' ', dash, ' '] + T;
    var n := |S|;
    var d := n + 3 + |N|;
    assert t[..n] == S && t[n] == ' ' && t[n + 1] == 'T' && t[n + 2] == '.';
    assert t[n + 3..d] == N && t[d] == ' ' && t[d + 1] == dash && t[d + 2] == ' ' && t[d + 3..] == T;
    ShortTomeSplitsAt(t, S, N, T, n, d);
  }

  /** "S T.N - T" with no dash in `S` or `T` does not match BDfugue's first pattern. */
  lemma ShortTomeNotDashTome(S: string, N: string, T: string, dash: char, vol: bool)
    requires forall i :: 0 <= i < |S| ==> !IsDash(S[i])
    requires AllDigits(N)
    requires forall i :: 0 <= i < |T| ==> !IsDash(T[i])
    ensures Parse(DashTome(vol), S + " T." + N + [' ', dash, ' '] + T).series.None?
  {
    var t := S + " T." + N + [' ', dash, ' '] + T;
    var D := |S| + 4 + |N|;
    forall m | 0 <= m < |t| && m != D
      ensures !IsDash(t[m])
    {
      if m < |S| {
        assert t[m] == S[m];
      } else if |S| + 3 <= m < |S| + 3 + |N| {
        assert t[m] == N[m - |S| - 3];
      } else if m > D + 1 {
        assert t[m] == T[m - D - 2];
      }
    }
    OneDashNoMatch(t, D, vol);
  }
}
