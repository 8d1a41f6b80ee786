/**
 * Character classes and string operations with the meaning Python gives them
 * (`str.isspace`, `str.strip`, `str.lower`, `str.replace`, slicing,
 * `str(int)`, format `02d`, `str.center`) and the regex classes `\s`, `\d`
 * as bdnex uses them.
 */
module Text {

  /** Python's `str.isspace()`, which is also what the regex class `\s` matches. */
  predicate IsSpace(c: char) {
    c == ' ' || ('\t' <= c <= '\r') || ('\U{1C}' <= c <= '\U{1F}')
    || c == '\U{85}' || c == '\U{A0}' || c == '\U{1680}'
    || ('\U{2000}' <= c <= '\U{200A}') || c == '\U{2028}' || c == '\U{2029}'
    || c == '\U{202F}' || c == '\U{205F}' || c == '\U{3000}'
  }

  /** The regex class `\d`, restricted to ASCII digits. */
  predicate IsDigit(c: char) {
    '0' <= c <= '9'
  }

  predicate AllDigits(s: string) {
    forall i :: 0 <= i < |s| ==> IsDigit(s[i])
  }

  function DigitValue(c: char): (d: nat)
    requires IsDigit(c)
    ensures d < 10
  {
    c as int - '0' as int
  }

  function DigitChar(d: nat): (c: char)
    requires d < 10
    ensures IsDigit(c) && DigitValue(c) == d
  {
    ('0' as int + d) as char
  }

  /** Python's `int()` of a string of decimal digits. */
  function DigitsValue(s: string): (n: nat)
    requires AllDigits(s)
  {
    if s == [] then 0 else 10 * DigitsValue(s[..|s| - 1]) + DigitValue(s[|s| - 1])
  }

  /** Decimal text of a natural number, without leading zeros. */
  function NatToStr(n: nat): (s: string)
    ensures |s| >= 1 && AllDigits(s)
    ensures |s| > 1 ==> s[0] != '0'
    decreases n
  {
    if n < 10 then [DigitChar(n)] else NatToStr(n / 10) + [DigitChar(n % 10)]
  }

  /** Python's `str(n)` for an integer. */
  function IntToStr(n: int): (s: string)
    ensures |s| >= 1
    ensures n >= 0 <==> s[0] != '-'
  {
    if n >= 0 then NatToStr(n) else "-" + NatToStr(-n)
  }

  /** `int(str(n)) == n`: the decimal text reads back as the number. */
  lemma {:induction false} NatToStrRoundTrip(n: nat)
    ensures DigitsValue(NatToStr(n)) == n
    decreases n
  {
    if n >= 10 {
      NatToStrRoundTrip(n / 10);
      var s := NatToStr(n);
      assert s[..|s| - 1] == NatToStr(n / 10);
    }
  }

  /** Two numbers with the same decimal text are equal. */
  lemma NatToStrInjective(m: nat, n: nat)
    ensures NatToStr(m) == NatToStr(n) ==> m == n
  {
    NatToStrRoundTrip(m);
    NatToStrRoundTrip(n);
  }

  /** The format `{:02d}`: at least two characters, zero-padded after any sign. */
  function Pad2(n: int): (s: string)
    ensures |s| >= 2
    ensures 0 <= n < 10 ==> s == ['0', DigitChar(n)]
    ensures n >= 10 || n < 0 ==> s == IntToStr(n)
  {
    if 0 <= n < 10 then "0" + IntToStr(n) else IntToStr(n)
  }

  /** Python's `str.lower()` on ASCII and Latin-1 letters. */
  function LowerChar(c: char): (d: char)
    ensures 'A' <= c <= 'Z' ==> 'a' <= d <= 'z'
    ensures !('A' <= c <= 'Z') && !('\U{C0}' <= c <= '\U{DE}') ==> d == c
  {
    if 'A' <= c <= 'Z' || ('\U{C0}' <= c <= '\U{DE}' && c != '\U{D7}') then (c as int + 32) as char else c
  }

  function Lower(s: string): (r: string)
    ensures |r| == |s|
    ensures forall i :: 0 <= i < |s| ==> r[i] == LowerChar(s[i])
  {
    seq(|s|, i requires 0 <= i < |s| => LowerChar(s[i]))
  }

  /** Python's `s.lstrip()`. */
  function LStrip(s: string): (r: string)
    ensures |r| <= |s| && r == s[|s| - |r|..]
    ensures forall i :: 0 <= i < |s| - |r| ==> IsSpace(s[i])
    ensures r == [] || !IsSpace(r[0])
  {
    if |s| > 0 && IsSpace(s[0]) then LStrip(s[1..]) else s
  }

  /** Python's `s.rstrip()`. */
  function RStrip(s: string): (r: string)
    ensures |r| <= |s| && r == s[..|r|]
    ensures forall i :: |r| <= i < |s| ==> IsSpace(s[i])
    ensures r == [] || !IsSpace(r[|r| - 1])
  {
    if |s| > 0 && IsSpace(s[|s| - 1]) then RStrip(s[..|s| - 1]) else s
  }

  /** Python's `s.strip()`. */
  function Strip(s: string): (r: string)
    ensures |r| <= |s|
    ensures r == [] || (!IsSpace(r[0]) && !IsSpace(r[|r| - 1]))
  {
    LStrip(RStrip(s))
  }

  predicate AllSpaces(s: string) {
    forall i :: 0 <= i < |s| ==> IsSpace(s[i])
  }

  /** Trailing whitespace does not survive `rstrip`. */
  lemma {:induction false} RStripSpaces(a: string, b: string)
    requires AllSpaces(b)
    ensures RStrip(a + b) == RStrip(a)
    decreases |b|
  {
    if b == [] {
      assert a + b == a;
    } else {
      var c := a + b;
      assert c[|c| - 1] == b[|b| - 1];
      assert c[..|c| - 1] == a + b[..|b| - 1];
      RStripSpaces(a, b[..|b| - 1]);
    }
  }

  /** Trailing whitespace does not survive `strip`. */
  lemma StripSpaces(a: string, b: string)
    requires AllSpaces(b)
    ensures Strip(a + b) == Strip(a)
  {
    RStripSpaces(a, b);
  }

  /** Index of the first non-whitespace character at or after `j`. */
  function SkipSpaces(s: string, j: nat): (k: nat)
    requires j <= |s|
    ensures j <= k <= |s|
    ensures forall m :: j <= m < k ==> IsSpace(s[m])
    ensures k == |s| || !IsSpace(s[k])
    decreases |s| - j
  {
    if j < |s| && IsSpace(s[j]) then SkipSpaces(s, j + 1) else j
  }

  /** End of the run of digits starting at `j` (the greedy `\d+` / `\d*`). */
  function DigitRunEnd(s: string, j: nat): (k: nat)
    requires j <= |s|
    ensures j <= k <= |s|
    ensures forall m :: j <= m < k ==> IsDigit(s[m])
    ensures k == |s| || !IsDigit(s[k])
    decreases |s| - j
  {
    if j < |s| && IsDigit(s[j]) then DigitRunEnd(s, j + 1) else j
  }

  /** Python's `s.rstrip(c)` for a single character `c`. */
  function RStripChar(s: string, c: char): (r: string)
    ensures |r| <= |s| && r == s[..|r|]
    ensures forall i :: |r| <= i < |s| ==> s[i] == c
    ensures r == [] || r[|r| - 1] != c
  {
    if |s| > 0 && s[|s| - 1] == c then RStripChar(s[..|s| - 1], c) else s
  }

  /** `sub in s` for strings. */
  predicate Contains(s: string, sub: string)
    decreases |s|
  {
    sub <= s || (s != [] && Contains(s[1..], sub))
  }

  /** A text lacking one of the characters of `sub` does not contain `sub`. */
  lemma {:induction false} LacksChar(s: string, sub: string, c: char)
    requires c in sub && c !in s
    ensures !Contains(s, sub)
    decreases |s|
  {
    if s != [] {
      LacksChar(s[1..], sub, c);
    }
  }

  /** Python's `s.replace(pat, rep)`: every non-overlapping occurrence, left to right. */
  function ReplaceAll(s: string, pat: string, rep: string): (r: string)
    requires |pat| > 0
    decreases |s|
  {
    if s == [] then []
    else if pat <= s then rep + ReplaceAll(s[|pat|..], pat, rep)
    else [s[0]] + ReplaceAll(s[1..], pat, rep)
  }

  /** A string without `pat` is left as it is by `replace`. */
  lemma {:induction false} ReplaceAbsent(s: string, pat: string, rep: string)
    requires |pat| > 0 && !Contains(s, pat)
    ensures ReplaceAll(s, pat, rep) == s
    decreases |s|
  {
    if s != [] {
      ReplaceAbsent(s[1..], pat, rep);
    }
  }

  /** `sub` found at position `i` of `s` is contained in `s`. */
  lemma {:induction false} ContainsAt(s: string, sub: string, i: nat)
    requires i <= |s| && sub <= s[i..]
    ensures Contains(s, sub)
    decreases i
  {
    if i == 0 {
      assert s[0..] == s;
    } else {
      assert s[1..][i - 1..] == s[i..];
      ContainsAt(s[1..], sub, i - 1);
    }
  }

  /** A text `sub` begins at no position of is not contained in it. */
  lemma {:induction false} NotContainsAnywhere(s: string, sub: string)
    requires forall i :: 0 <= i <= |s| ==> !(sub <= s[i..])
    ensures !Contains(s, sub)
    decreases |s|
  {
    assert s[0..] == s;
    if s != [] {
      forall i | 0 <= i <= |s| - 1
        ensures !(sub <= s[1..][i..])
      {
        assert s[1..][i..] == s[i + 1..];
      }
      NotContainsAnywhere(s[1..], sub);
    }
  }

  /** `replace` leaves a prefix alone when no occurrence of `pat` can begin in it. */
  lemma {:induction false} ReplaceAfterPrefix(w: string, rest: string, pat: string, rep: string)
    requires |pat| > 0 && pat[0] !in w
    ensures ReplaceAll(w + rest, pat, rep) == w + ReplaceAll(rest, pat, rep)
    decreases |w|
  {
    if w == [] {
      assert w + rest == rest;
    } else {
      var s := w + rest;
      assert s[0] == w[0];
      assert s[1..] == w[1..] + rest;
      ReplaceAfterPrefix(w[1..], rest, pat, rep);
    }
  }

  /** `pat` at the very start is replaced. */
  lemma ReplaceAtStart(pat: string, rest: string, rep: string)
    requires |pat| > 0
    ensures ReplaceAll(pat + rest, pat, rep) == rep + ReplaceAll(rest, pat, rep)
  {
    var s := pat + rest;
    assert pat <= s;
    assert s[|pat|..] == rest;
  }

  /**
   * `pat` at the very end is the only occurrence replaced when its character `c`
   * at index `m` appears nowhere else, neither in `pat` nor in the text before it.
   */
  lemma {:induction false} ReplaceAtEnd(w: string, pat: string, rep: string, m: nat, c: char)
    requires m < |pat| && pat[m] == c && c !in w
    requires forall j :: 0 <= j < |pat| && j != m ==> pat[j] != c
    ensures ReplaceAll(w + pat, pat, rep) == w + rep
    decreases |w|
  {
    if w == [] {
      assert w + pat == pat + [];
      ReplaceAtStart(pat, [], rep);
    } else {
      var s := w + pat;
      if m < |w| {
        assert s[m] == w[m];
      } else {
        assert s[m] == pat[m - |w|];
      }
      assert s[m] != c;
      assert s[1..] == w[1..] + pat;
      ReplaceAtEnd(w[1..], pat, rep, m, c);
    }
  }

  /** `re.sub(r'\s+', ' ', s)`: every run of whitespace becomes one space. */
  function CollapseSpaces(s: string): (r: string)
    ensures |r| <= |s|
    decreases |s|
  {
    if s == [] then []
    else if IsSpace(s[0]) then " " + CollapseSpaces(LStrip(s))
    else [s[0]] + CollapseSpaces(s[1..])
  }

  /** The only whitespace in `r` is single spaces. */
  predicate SingleSpaced(r: string) {
    (forall i :: 0 <= i < |r| && IsSpace(r[i]) ==> r[i] == ' ')
    && (forall i :: 0 <= i < |r| - 1 ==> !(IsSpace(r[i]) && IsSpace(r[i + 1])))
  }

  /** After collapsing, the only whitespace left is a single space between non-spaces. */
  lemma {:induction false} CollapseSpacesShape(s: string)
    ensures SingleSpaced(CollapseSpaces(s))
    decreases |s|
  {
    if s != [] {
      if IsSpace(s[0]) {
        var t := LStrip(s);
        CollapseSpacesShape(t);
        if t != [] {
          assert CollapseSpaces(t)[0] == t[0];
        }
      } else {
        CollapseSpacesShape(s[1..]);
        var t := CollapseSpaces(s[1..]);
        var r := CollapseSpaces(s);
        assert r == [s[0]] + t;
        forall i | 0 <= i < |r| - 1
          ensures !(IsSpace(r[i]) && IsSpace(r[i + 1]))
        {
          if i > 0 {
            assert r[i] == t[i - 1] && r[i + 1] == t[i];
          }
        }
      }
    }
  }

  /** Collapsing adds no character but the space. */
  lemma {:induction false} CollapseSpacesChars(s: string)
    ensures forall i :: 0 <= i < |CollapseSpaces(s)| ==> CollapseSpaces(s)[i] == ' ' || CollapseSpaces(s)[i] in s
    decreases |s|
  {
    if s != [] {
      var r := CollapseSpaces(s);
      var t := if IsSpace(s[0]) then LStrip(s) else s[1..];
      assert t == s[|s| - |t|..];
      assert r == (if IsSpace(s[0]) then " " else [s[0]]) + CollapseSpaces(t);
      CollapseSpacesChars(t);
      InSuffix(s, |s| - |t|);
      assert r[0] == ' ' || r[0] == s[0];
      forall i | 0 < i < |r|
        ensures r[i] == ' ' || r[i] in s
      {
        assert r[i] == CollapseSpaces(t)[i - 1];
      }
    }
  }

  /** What a suffix holds, the whole text holds. */
  lemma InSuffix(s: string, n: nat)
    requires n <= |s|
    ensures forall x :: x in s[n..] ==> x in s
  {
    forall x | x in s[n..]
      ensures x in s
    {
      var i :| 0 <= i < |s| - n && s[n..][i] == x;
      assert s[n + i] == x;
    }
  }

  /** `' '.join(s.split())`. */
  function NormalizeSpaces(s: string): string {
    CollapseSpaces(Strip(s))
  }

  /** Python slicing `s[:n]`: a negative `n` drops `-n` characters from the end. */
  function PySliceTo<T>(s: seq<T>, n: int): (r: seq<T>)
    ensures r <= s
    ensures n >= 0 ==> |r| == if n < |s| then n else |s|
    ensures n < 0 ==> |r| == if |s| + n > 0 then |s| + n else 0
  {
    if n >= 0 then (if n < |s| then s[..n] else s)
    else if |s| + n > 0 then s[..|s| + n] else []
  }

  function Repeat(c: char, n: int): (r: string)
    ensures |r| == if n > 0 then n else 0
    ensures forall i :: 0 <= i < |r| ==> r[i] == c
  {
    if n <= 0 then [] else [c] + Repeat(c, n - 1)
  }

  /** Python's `s.center(width)`: pads with spaces, the extra space on the left only when both the margin and the width are odd. */
  function Center(s: string, width: int): (r: string)
    ensures width <= |s| ==> r == s
    ensures width > |s| ==> |r| == width
    ensures width > |s| ==> exists left :: 0 <= left <= width - |s| && r == Repeat(' ', left) + s + Repeat(' ', width - |s| - left)
  {
    var marg := width - |s|;
    if marg <= 0 then s
    else
      var left := marg / 2 + (if marg % 2 == 1 && width % 2 == 1 then 1 else 0);
      assert r: Repeat(' ', left) + s + Repeat(' ', marg - left) == Repeat(' ', left) + s + Repeat(' ', width - |s| - left);
      Repeat(' ', left) + s + Repeat(' ', marg - left)
  }

  /** Python's `sep.join(parts)`. */
  function Join(parts: seq<string>, sep: string): string {
    if parts == [] then []
    else if |parts| == 1 then parts[0]
    else parts[0] + sep + Join(parts[1..], sep)
  }

  /** Python's `s.split(sep)` for a one-character separator. */
  function Split(s: string, sep: char): (parts: seq<string>)
    ensures |parts| >= 1
    ensures forall k :: 0 <= k < |parts| ==> sep !in parts[k]
    decreases |s|
  {
    if sep !in s then [s]
    else
      var i := IndexOf(s, sep);
      [s[..i]] + Split(s[i + 1..], sep)
  }

  /** Position of the first `c` in `s`. */
  function IndexOf(s: string, c: char): (i: nat)
    requires c in s
    ensures i < |s| && s[i] == c && c !in s[..i]
  {
    if s[0] == c then 0 else 1 + IndexOf(s[1..], c)
  }

  /** Splitting and joining on the same separator gives back the text. */
  lemma {:induction false} JoinSplit(s: string, sep: char)
    ensures Join(Split(s, sep), [sep]) == s
    decreases |s|
  {
    if sep in s {
      var i := IndexOf(s, sep);
      JoinSplit(s[i + 1..], sep);
      assert s == s[..i] + [sep] + s[i + 1..];
    }
  }

  /** Python's `a < b` on strings: code point by code point, a proper prefix first. */
  predicate StrLess(a: string, b: string) {
    if a == [] then b != []
    else if b == [] then false
    else if a[0] != b[0] then a[0] < b[0]
    else StrLess(a[1..], b[1..])
  }

  lemma {:induction false} StrLessIrreflexive(a: string)
    ensures !StrLess(a, a)
  {
    if a != [] {
      StrLessIrreflexive(a[1..]);
    }
  }

  lemma {:induction false} StrLessTransitive(a: string, b: string, c: string)
    requires StrLess(a, b) && StrLess(b, c)
    ensures StrLess(a, c)
  {
    if a != [] && b != [] && c != [] && a[0] == b[0] && b[0] == c[0] {
      StrLessTransitive(a[1..], b[1..], c[1..]);
    }
  }

  lemma {:induction false} StrLessTotal(a: string, b: string)
    ensures a == b || StrLess(a, b) || StrLess(b, a)
  {
    if a != [] && b != [] && a[0] == b[0] {
      StrLessTotal(a[1..], b[1..]);
      if a[1..] == b[1..] {
        assert a == [a[0]] + a[1..] && b == [b[0]] + b[1..];
      }
    }
  }

  /** Strictly ascending in code-point order: sorted, and each text once. */
  predicate Ascending(h: seq<string>) {
    forall i, j :: 0 <= i < j < |h| ==> StrLess(h[i], h[j])
  }

  /** `x` put in its place in an ascending list. */
  function InsertSorted(x: string, h: seq<string>): (r: seq<string>)
    ensures forall y :: y in r <==> y == x || y in h
    ensures |r| <= |h| + 1
    decreases |h|
  {
    if h == [] then [x]
    else if x == h[0] then h
    else if StrLess(x, h[0]) then [x] + h
    else [h[0]] + InsertSorted(x, h[1..])
  }

  lemma {:induction false} InsertSortedAscending(x: string, h: seq<string>)
    requires Ascending(h)
    ensures Ascending(InsertSorted(x, h))
    decreases |h|
  {
    if h != [] && x != h[0] {
      if StrLess(x, h[0]) {
        forall j | 0 < j < |h|
          ensures StrLess(x, h[j])
        {
          StrLessTransitive(x, h[0], h[j]);
        }
      } else {
        StrLessTotal(x, h[0]);
        InsertSortedAscending(x, h[1..]);
        var r := InsertSorted(x, h);
        forall i, j | 0 <= i < j < |r|
          ensures StrLess(r[i], r[j])
        {
          if i == 0 {
            assert r[j] in InsertSorted(x, h[1..]);
          }
        }
      }
    }
  }

  /** An ascending list holds each text once. */
  lemma AscendingDistinct(h: seq<string>)
    requires Ascending(h)
    ensures forall i, j :: 0 <= i < j < |h| ==> h[i] != h[j]
  {
    forall i, j | 0 <= i < j < |h|
      ensures h[i] != h[j]
    {
      StrLessIrreflexive(h[i]);
    }
  }
}
