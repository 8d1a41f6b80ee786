/**
 * The rename templates (`TemplateParser`, `VariableSubstitutor`,
 * `FilenameSanitizer`): the `%Variables` a template uses, the text they are
 * replaced by, the clean-up of a variable left without a value, and the
 * file name made safe for every system.
 *
 * Python's `str()` of a float, bytes or dictionary value is a parameter
 * `pyStr`; every other value is rendered by the model.
 */
module Renaming {
  import opened Wrappers
  import opened Text
  import opened Values
  import opened Seqs

  // ---------------------------------------------------------------- the template parser

  /** The eight variables a template may use. */
  const ValidVariables: set<string> :=
    {"%Series", "%Number", "%Title", "%Year", "%Publisher", "%Author", "%ISBN", "%Edition"}

  /** The regex class `[A-Za-z]`. */
  predicate IsAsciiLetter(c: char) {
    'A' <= c <= 'Z' || 'a' <= c <= 'z'
  }

  /** A `%Letters` token: a percent sign followed by one or more ASCII letters. */
  predicate IsToken(t: string) {
    |t| >= 2 && t[0] == '%' && forall i :: 1 <= i < |t| ==> IsAsciiLetter(t[i])
  }

  /** The end of the run of letters starting at `j`. */
  function LetterRunEnd(s: string, j: nat): (k: nat)
    requires j <= |s|
    ensures j <= k <= |s|
    ensures forall i :: j <= i < k ==> IsAsciiLetter(s[i])
    ensures k == |s| || !IsAsciiLetter(s[k])
    decreases |s| - j
  {
    if j < |s| && IsAsciiLetter(s[j]) then LetterRunEnd(s, j + 1) else j
  }

  /** `re.findall(r'%[A-Za-z]+', s)`: the tokens in order of appearance, repeats included. */
  function Tokens(s: string): (ts: seq<string>)
    ensures forall k :: 0 <= k < |ts| ==> IsToken(ts[k])
    decreases |s|
  {
    if |s| >= 2 && s[0] == '%' && IsAsciiLetter(s[1]) then
      var e := LetterRunEnd(s, 1);
      [s[..e]] + Tokens(s[e..])
    else if s == [] then []
    else Tokens(s[1..])
  }

  /** Text without a percent sign holds no token, and leaves the tokens after it as they are. */
  lemma {:induction false} TokensAfterText(a: string, b: string)
    requires '%' !in a
    ensures Tokens(a + b) == Tokens(b)
    decreases |a|
  {
    if a != [] {
      assert a[0] in a;
      assert (a + b)[0] == a[0] && (a + b)[1..] == a[1..] + b;
      assert forall x :: x in a[1..] ==> x in a;
      TokensAfterText(a[1..], b);
    } else {
      assert a + b == b;
    }
  }

  /** The run of letters from `j` ends at `k` when every character before `k` is a letter and `k` is not. */
  lemma {:induction false} LetterRunEndAt(s: string, j: nat, k: nat)
    requires j <= k <= |s|
    requires forall i :: j <= i < k ==> IsAsciiLetter(s[i])
    requires k == |s| || !IsAsciiLetter(s[k])
    ensures LetterRunEnd(s, j) == k
    decreases k - j
  {
    if j < k {
      LetterRunEndAt(s, j + 1, k);
    }
  }

  /** A token that is not followed by a letter is found as it is, and the search goes on after it. */
  lemma TokensOfToken(v: string, b: string)
    requires IsToken(v) && (b == [] || !IsAsciiLetter(b[0]))
    ensures Tokens(v + b) == [v] + Tokens(b)
  {
    var s := v + b;
    assert forall i :: 1 <= i < |v| ==> s[i] == v[i];
    assert |s| > |v| ==> s[|v|] == b[0];
    LetterRunEndAt(s, 1, |v|);
    assert s[..|v|] == v && s[|v|..] == b;
  }

  predicate IsInvalid(v: string) {
    v !in ValidVariables
  }

  /** Every token is one of the eight variables. */
  predicate AllValid(ts: seq<string>) {
    forall k :: 0 <= k < |ts| ==> !IsInvalid(ts[k])
  }

  /** The invalid tokens are none exactly when every token is valid. */
  lemma NoneInvalid(ts: seq<string>)
    ensures Filter(IsInvalid, ts) == [] <==> AllValid(ts)
  {
    var invalid := Filter(IsInvalid, ts);
    FilterMembers(IsInvalid, ts);
    if invalid != [] {
      assert invalid[0] in ts && IsInvalid(invalid[0]);
    } else {
      forall k | 0 <= k < |ts|
        ensures !IsInvalid(ts[k])
      {
      }
    }
  }

  /** Python's `repr` of a list of tokens, which hold only letters and `%`. */
  function TokenListRepr(ts: seq<string>): string {
    "[" + Join(Map((t: string) => "'" + t + "'", ts), ", ") + "]"
  }

  /**
   * `parse(template)`: the tokens of the template, or `ValueError` naming the
   * invalid ones when a token is not one of the eight variables.
   */
  function Parse(template: string): (r: Outcome<seq<string>>)
    ensures r.Returned? <==> AllValid(Tokens(template))
    ensures r.Returned? ==> r.value == Tokens(template)
    ensures r.Raised? ==> r.error == "Variables invalides dans le template: "
                                     + TokenListRepr(Filter(IsInvalid, Tokens(template)))
  {
    var ts := Tokens(template);
    var invalid := Filter(IsInvalid, ts);
    NoneInvalid(ts);
    if invalid != [] then Raised("Variables invalides dans le template: " + TokenListRepr(invalid))
    else Returned(ts)
  }

  /** `validate(template)`: whether parsing raises nothing, that is, whether every token is a variable. */
  function Validate(template: string): (ok: bool)
    ensures ok <==> AllValid(Tokens(template))
  {
    Parse(template).Returned?
  }

  /** A template without a percent sign uses no variable and is valid. */
  lemma PlainTemplateValid(template: string)
    requires '%' !in template
    ensures Parse(template) == Returned([])
  {
    TokensAfterText(template, []);
    assert template + [] == template;
  }

  /** A template starting with a valid variable is valid exactly when what follows it is. */
  lemma LeadingVariable(v: string, rest: string)
    requires v in ValidVariables && (rest == [] || !IsAsciiLetter(rest[0]))
    ensures Tokens(v + rest) == [v] + Tokens(rest)
    ensures Validate(v + rest) == Validate(rest)
  {
    VariableIsToken(v);
    TokensOfToken(v, rest);
    AllValidCons(v, Tokens(rest));
  }

  lemma VariableIsToken(v: string)
    requires v in ValidVariables
    ensures IsToken(v)
  {
  }

  lemma AllValidCons(v: string, tail: seq<string>)
    requires !IsInvalid(v)
    ensures AllValid([v] + tail) <==> AllValid(tail)
  {
    var ts := [v] + tail;
    if AllValid(tail) {
      forall k | 0 <= k < |ts|
        ensures !IsInvalid(ts[k])
      {
        if k > 0 {
          assert ts[k] == tail[k - 1];
        }
      }
    }
    if AllValid(ts) {
      forall k | 0 <= k < |tail|
        ensures !IsInvalid(tail[k])
      {
        assert tail[k] == ts[k + 1];
      }
    }
  }

  // ---------------------------------------------------------------- the substitutor

  /** The variables `substitute` handles, in order, with the metadata key each reads. */
  const VariableMap: seq<(string, string)> := [
    ("%Series", "Series"), ("%Number", "Number"), ("%Title", "Title"), ("%Year", "Year"),
    ("%Publisher", "Publisher"), ("%Author", "Writer"), ("%ISBN", "ISBN"), ("%Edition", "AlternateSeries")]

  /** Python's `int(v)` of a number: a float is truncated toward zero. */
  function PyInt(v: Cell): (n: int)
    requires IsNumber(v)
    ensures v.Integer? ==> n == v.i
    ensures v.Float? && v.r >= 0.0 ==> n == v.r.Floor
  {
    match v
    case Boolean(b) => if b then 1 else 0
    case Integer(i) => i
    case Float(r) => if r >= 0.0 then r.Floor else -((-r).Floor)
  }

  /** What a variable with a truthy value is replaced by: `f"{int(value):02d}"` for a number under `Number`, `str(value)` otherwise. */
  function ValueText(key: string, v: Cell, pyStr: Cell -> string): string {
    if key == "Number" && IsNumber(v) then Pad2(PyInt(v))
    else if Showable(v) then Show(v)
    else pyStr(v)
  }

  /** A volume number is written with at least two digits, and reads back as the number. */
  lemma NumberPadded(n: nat, pyStr: Cell -> string)
    ensures |ValueText("Number", Integer(n), pyStr)| >= 2
    ensures AllDigits(ValueText("Number", Integer(n), pyStr))
    ensures DigitsValue(ValueText("Number", Integer(n), pyStr)) == n
    ensures n < 10 ==> ValueText("Number", Integer(n), pyStr) == ['0', DigitChar(n)]
  {
    var t := ValueText("Number", Integer(n), pyStr);
    if n < 10 {
      assert t == ['0', DigitChar(n)];
      assert t[..1] == ['0'] && ['0'][..0] == [];
      assert DigitsValue(['0']) == 0;
    } else {
      NatToStrRoundTrip(n);
    }
  }

  /** The separators removed with a variable that has no value, in the order they are tried. */
  function Separators(v: string): seq<string> {
    [" - " + v, v + " - ", "/" + v, v + "/", "(" + v + ")", " " + v, v + " ", v]
  }

  /** Every pattern of `ps` replaced by nothing, one after the other. */
  function RemoveEach(s: string, ps: seq<string>): string
    requires forall k :: 0 <= k < |ps| ==> |ps[k]| > 0
  {
    if ps == [] then s else ReplaceAll(RemoveEach(s, ps[..|ps| - 1]), ps[|ps| - 1], "")
  }

  /** `re.sub(r'\s*-\s*$', '', s)`: a final dash goes, with the whitespace around it. */
  function DropTrailingDash(s: string): (r: string)
    ensures r <= s
  {
    var t := RStrip(s);
    if t != [] && t[|t| - 1] == '-' then RStrip(t[..|t| - 1]) else s
  }

  /** `re.sub(r'^\s*-\s*', '', s)`: a leading dash goes, with the whitespace around it. */
  function DropLeadingDash(s: string): (r: string)
    ensures |r| <= |s| && r == s[|s| - |r|..]
  {
    var t := LStrip(s);
    if t != [] && t[0] == '-' then LStrip(t[1..]) else s
  }

  /** The whitespace collapsed, then a dash at either end dropped. */
  function Tidy(s: string): string {
    DropLeadingDash(DropTrailingDash(CollapseSpaces(s)))
  }

  /** `_clean_empty_variable(text, variable)`. */
  function CleanEmpty(text: string, v: string): string
    requires |v| > 0
  {
    Tidy(RemoveEach(text, Separators(v)))
  }

  /** A piece of single-spaced text is single-spaced. */
  lemma SingleSpacedSlice(r: string, i: nat, j: nat)
    requires SingleSpaced(r) && i <= j <= |r|
    ensures SingleSpaced(r[i..j])
  {
    var p := r[i..j];
    assert forall k :: 0 <= k < |p| ==> p[k] == r[i + k];
  }

  /** A prefix of single-spaced text is single-spaced. */
  lemma SingleSpacedPrefix(r: string, p: string)
    requires SingleSpaced(r) && p <= r
    ensures SingleSpaced(p)
  {
    assert forall k :: 0 <= k < |p| ==> p[k] == r[k];
  }

  /** A suffix of single-spaced text is single-spaced. */
  lemma SingleSpacedSuffix(r: string, n: nat)
    requires SingleSpaced(r) && n <= |r|
    ensures SingleSpaced(r[|r| - n..])
  {
    SingleSpacedSlice(r, |r| - n, |r|);
    assert r[|r| - n..|r|] == r[|r| - n..];
  }

  /** After the clean-up, the only whitespace left is single spaces. */
  lemma TidySingleSpaced(s: string)
    ensures SingleSpaced(Tidy(s))
  {
    var c := CollapseSpaces(s);
    CollapseSpacesShape(s);
    var d := DropTrailingDash(c);
    SingleSpacedPrefix(c, d);
    SingleSpacedSuffix(d, |DropLeadingDash(d)|);
  }

  /** `_clean_empty_variable`: the separator patterns removed in turn, then the whitespace and dashes tidied. */
  method CleanEmptyVariable(text: string, v: string) returns (r: string)
    requires |v| > 0
    ensures r == CleanEmpty(text, v)
    ensures SingleSpaced(r)
  {
    var patterns := Separators(v);
    r := text;
    for k := 0 to |patterns|
      invariant r == RemoveEach(text, patterns[..k])
    {
      assert patterns[..k + 1][..k] == patterns[..k];
      r := ReplaceAll(r, patterns[k], "");
    }
    assert patterns[..|patterns|] == patterns;
    TidySingleSpaced(r);
    r := Tidy(r);
  }

  /** One entry of the variable table applied: replaced by its value's text, or cleaned away without one. */
  function Step(s: string, entry: (string, string), metadata: map<string, Cell>, pyStr: Cell -> string): (r: string)
    requires |entry.0| > 0
  {
    if !Contains(s, entry.0) then s
    else
      var value := DictGet(metadata, entry.1, Str(""));
      if Truthy(value) then ReplaceAll(s, entry.0, ValueText(entry.1, value, pyStr))
      else CleanEmpty(s, entry.0)
  }

  /** A variable: a percent sign, then characters none of the separators begins with. */
  predicate VariableName(v: string) {
    |v| >= 2 && v[0] == '%' && forall i :: 1 <= i < |v| ==> v[i] !in {'%', ' ', '/', '('}
  }

  /** The table's variables are well formed and told apart by their first letter. */
  lemma VariableNames()
    ensures forall k :: 0 <= k < |VariableMap| ==> |VariableMap[k].0| > 0 && VariableMap[k].0[0] == '%'
    ensures forall k :: 0 <= k < |VariableMap| ==> VariableName(VariableMap[k].0)
    ensures forall j, k :: 0 <= j < k < |VariableMap| ==> VariableMap[j].0[1] != VariableMap[k].0[1]
  {
  }

  /** The template after the first `k` entries of the table. */
  function SubstitutedUpTo(template: string, metadata: map<string, Cell>, pyStr: Cell -> string, k: nat): string
    requires k <= |VariableMap|
  {
    VariableNames();
    if k == 0 then template
    else Step(SubstitutedUpTo(template, metadata, pyStr, k - 1), VariableMap[k - 1], metadata, pyStr)
  }

  /** What `substitute(template, metadata)` returns. */
  function Substituted(template: string, metadata: map<string, Cell>, pyStr: Cell -> string): (r: string)
    ensures r == [] || (!IsSpace(r[0]) && !IsSpace(r[|r| - 1]))
  {
    Strip(SubstitutedUpTo(template, metadata, pyStr, |VariableMap|))
  }

  /** `substitute`: the table walked in order, the text rebound at each step. */
  method Substitute(template: string, metadata: map<string, Cell>, pyStr: Cell -> string) returns (r: string)
    ensures r == Substituted(template, metadata, pyStr)
  {
    VariableNames();
    r := template;
    for k := 0 to |VariableMap|
      invariant r == SubstitutedUpTo(template, metadata, pyStr, k)
    {
      var (v, key) := VariableMap[k];
      if Contains(r, v) {
        var value := DictGet(metadata, key, Str(""));
        if Truthy(value) {
          r := ReplaceAll(r, v, ValueText(key, value, pyStr));
        } else {
          r := CleanEmptyVariable(r, v);
        }
      }
    }
    r := Strip(r);
  }

  /** A text without a percent sign holds none of the variables. */
  lemma NoVariableIn(s: string, k: nat)
    requires '%' !in s && k < |VariableMap|
    ensures !Contains(s, VariableMap[k].0)
  {
    VariableNames();
    LacksChar(s, VariableMap[k].0, '%');
  }

  /** A template without a variable is only stripped. */
  lemma {:induction false} PlainTemplateSubstituted(template: string, metadata: map<string, Cell>, pyStr: Cell -> string)
    requires '%' !in template
    ensures Substituted(template, metadata, pyStr) == Strip(template)
  {
    var k := 0;
    while k < |VariableMap|
      invariant k <= |VariableMap|
      invariant SubstitutedUpTo(template, metadata, pyStr, k) == template
    {
      NoVariableIn(template, k);
      k := k + 1;
    }
  }

  /** Every percent sign of `s` begins the variable `v`: the text holds no other variable. */
  predicate OnlyVariable(s: string, v: string) {
    forall i :: 0 <= i < |s| && s[i] == '%' ==> v <= s[i..]
  }

  lemma OnlyVariableSuffix(s: string, v: string, n: nat)
    requires OnlyVariable(s, v) && n <= |s|
    ensures OnlyVariable(s[n..], v)
  {
    forall i | 0 <= i < |s| - n && s[n..][i] == '%'
      ensures v <= s[n..][i..]
    {
      assert s[n..][i..] == s[n + i..];
    }
  }

  /** A text around one occurrence of `v`, with no other percent sign, holds no other variable. */
  lemma OnlyVariableAround(a: string, v: string, b: string)
    requires VariableName(v) && '%' !in a && '%' !in b
    ensures OnlyVariable(a + v + b, v)
  {
    var s := a + v + b;
    assert forall i :: 0 <= i < |a| ==> s[i] == a[i];
    assert forall i :: |a| < i < |a| + |v| ==> s[i] == v[i - |a|];
    assert forall i :: |a| + |v| <= i < |s| ==> s[i] == b[i - |a| - |v|];
    forall i | 0 <= i < |s| && s[i] == '%'
      ensures v <= s[i..]
    {
      assert i == |a|;
      assert s[i..] == v + b;
    }
  }

  /** Where only `v` occurs, a variable with another first letter is absent. */
  lemma {:induction false} OtherVariableAbsent(s: string, v: string, w: string)
    requires OnlyVariable(s, v) && VariableName(v) && VariableName(w) && v[1] != w[1]
    ensures !Contains(s, w)
    decreases |s|
  {
    if s != [] {
      if s[0] == '%' {
        assert s[0..] == s;
        assert v <= s;
        assert s[1] == v[1];
      }
      assert !(w <= s);
      OnlyVariableSuffix(s, v, 1);
      OtherVariableAbsent(s[1..], v, w);
    }
  }

  /** Removing a separator pattern keeps every remaining percent sign the start of `v`. */
  lemma {:induction false} RemoveKeepsOnlyVariable(s: string, p: string, v: string)
    requires OnlyVariable(s, v) && VariableName(v)
    requires |p| > 0 && p[0] in {'%', ' ', '/', '('}
    ensures OnlyVariable(ReplaceAll(s, p, ""), v)
    decreases |s|
  {
    if s != [] {
      if p <= s {
        OnlyVariableSuffix(s, v, |p|);
        RemoveKeepsOnlyVariable(s[|p|..], p, v);
        assert ReplaceAll(s, p, "") == ReplaceAll(s[|p|..], p, "");
      } else {
        OnlyVariableSuffix(s, v, 1);
        RemoveKeepsOnlyVariable(s[1..], p, v);
        var tail := ReplaceAll(s[1..], p, "");
        var r := ReplaceAll(s, p, "");
        assert r == [s[0]] + tail;
        if s[0] == '%' {
          assert s[0..] == s;
          assert v <= s;
          assert s[1..] == v[1..] + s[|v|..];
          assert p[0] !in v[1..];
          ReplaceAfterPrefix(v[1..], s[|v|..], p, "");
          assert r == v + ReplaceAll(s[|v|..], p, "");
        }
        forall i | 0 <= i < |r| && r[i] == '%'
          ensures v <= r[i..]
        {
          if i == 0 {
            assert r[0..] == r;
          } else {
            assert r[i..] == tail[i - 1..];
          }
        }
      }
    }
  }

  /** Removing the variable itself then leaves no percent sign. */
  lemma {:induction false} RemoveVariableNoMark(s: string, v: string)
    requires OnlyVariable(s, v) && VariableName(v)
    ensures '%' !in ReplaceAll(s, v, "")
    decreases |s|
  {
    if s != [] {
      if v <= s {
        OnlyVariableSuffix(s, v, |v|);
        RemoveVariableNoMark(s[|v|..], v);
      } else {
        assert s[0..] == s;
        assert s[0] != '%';
        OnlyVariableSuffix(s, v, 1);
        RemoveVariableNoMark(s[1..], v);
      }
    }
  }

  lemma {:induction false} RemoveEachKeepsOnlyVariable(s: string, ps: seq<string>, v: string)
    requires OnlyVariable(s, v) && VariableName(v)
    requires forall k :: 0 <= k < |ps| ==> |ps[k]| > 0 && ps[k][0] in {'%', ' ', '/', '('}
    ensures OnlyVariable(RemoveEach(s, ps), v)
    decreases |ps|
  {
    if ps != [] {
      RemoveEachKeepsOnlyVariable(s, ps[..|ps| - 1], v);
      RemoveKeepsOnlyVariable(RemoveEach(s, ps[..|ps| - 1]), ps[|ps| - 1], v);
    }
  }

  /** The tidying adds no percent sign. */
  lemma TidyNoMark(s: string)
    requires '%' !in s
    ensures '%' !in Tidy(s)
  {
    var c := CollapseSpaces(s);
    CollapseSpacesChars(s);
    NoMarkSlice(c, 0, |DropTrailingDash(c)|);
    var d := DropTrailingDash(c);
    assert d == c[0..|d|];
    NoMarkSuffix(d, |d| - |DropLeadingDash(d)|);
  }

  lemma NoMarkSlice(s: string, i: nat, j: nat)
    requires i <= j <= |s| && forall k :: 0 <= k < |s| ==> s[k] != '%'
    ensures '%' !in s[i..j]
  {
    assert forall k :: 0 <= k < j - i ==> s[i..j][k] == s[i + k];
  }

  lemma NoMarkSuffix(s: string, i: nat)
    requires i <= |s| && '%' !in s
    ensures '%' !in s[i..]
  {
    assert forall k :: 0 <= k < |s| - i ==> s[i..][k] == s[i + k];
  }

  /**
   * `_clean_empty_variable` removes its variable: in a text where every percent
   * sign begins `v`, no `v` and no percent sign is left.
   */
  lemma CleanEmptyRemovesVariable(text: string, v: string)
    requires VariableName(v) && OnlyVariable(text, v)
    ensures '%' !in CleanEmpty(text, v)
    ensures !Contains(CleanEmpty(text, v), v)
  {
    var ps := Separators(v);
    var pre := ps[..|ps| - 1];
    assert forall k :: 0 <= k < |pre| ==> |pre[k]| > 0 && pre[k][0] in {'%', ' ', '/', '('};
    RemoveEachKeepsOnlyVariable(text, pre, v);
    RemoveVariableNoMark(RemoveEach(text, pre), v);
    TidyNoMark(RemoveEach(text, ps));
    LacksChar(CleanEmpty(text, v), v, '%');
  }

  /** Text the tidying leaves alone: single-spaced, with no dash at either end. */
  predicate Tidied(s: string) {
    SingleSpaced(s)
    && (RStrip(s) == [] || RStrip(s)[|RStrip(s)| - 1] != '-')
    && (LStrip(s) == [] || LStrip(s)[0] != '-')
  }

  lemma {:induction false} CollapseSpacesIdle(s: string)
    requires SingleSpaced(s)
    ensures CollapseSpaces(s) == s
    decreases |s|
  {
    if s != [] {
      SingleSpacedSlice(s, 1, |s|);
      assert s[1..|s|] == s[1..];
      if IsSpace(s[0]) {
        if |s| > 1 {
          assert !IsSpace(s[1]);
        }
        assert LStrip(s[1..]) == s[1..];
      }
      CollapseSpacesIdle(s[1..]);
    }
  }

  /** Tidying is idle on tidied text. */
  lemma TidyIdle(s: string)
    requires Tidied(s)
    ensures Tidy(s) == s
  {
    CollapseSpacesIdle(s);
  }

  /** When only the first pattern occurs, removing them all is removing the first. */
  lemma {:induction false} RemoveEachFirst(s: string, ps: seq<string>, t: string)
    requires |ps| >= 1 && forall k :: 0 <= k < |ps| ==> |ps[k]| > 0
    requires ReplaceAll(s, ps[0], "") == t
    requires forall k :: 1 <= k < |ps| ==> !Contains(t, ps[k])
    ensures RemoveEach(s, ps) == t
    decreases |ps|
  {
    if |ps| == 1 {
      assert ps[..0] == [];
    } else {
      RemoveEachFirst(s, ps[..|ps| - 1], t);
      ReplaceAbsent(t, ps[|ps| - 1], "");
    }
  }

  /** `"<text> - %Var"` without a value for the variable is cleaned to the text. */
  lemma CleanEmptyTrailing(a: string, v: string)
    requires VariableName(v) && '%' !in a && Tidied(a)
    ensures CleanEmpty(a + " - " + v, v) == a
  {
    var ps := Separators(v);
    ReplaceAtEnd(a, ps[0], "", 3, '%');
    assert a + " - " + v == a + ps[0];
    forall k | 1 <= k < |ps|
      ensures !Contains(a, ps[k])
    {
      assert v[0] in ps[k];
      LacksChar(a, ps[k], '%');
    }
    RemoveEachFirst(a + ps[0], ps, a);
    TidyIdle(a);
  }

  lemma VariableNameAt(k: nat)
    requires k < |VariableMap|
    ensures VariableName(VariableMap[k].0)
  {
    VariableNames();
  }

  /** Removing patterns none of which occurs changes nothing. */
  lemma {:induction false} RemoveEachAbsent(s: string, ps: seq<string>)
    requires forall k :: 0 <= k < |ps| ==> |ps[k]| > 0 && !Contains(s, ps[k])
    ensures RemoveEach(s, ps) == s
    decreases |ps|
  {
    if ps != [] {
      RemoveEachAbsent(s, ps[..|ps| - 1]);
      ReplaceAbsent(s, ps[|ps| - 1], "");
    }
  }

  lemma {:induction false} RemoveEachSplit(s: string, ps: seq<string>, qs: seq<string>)
    requires forall k :: 0 <= k < |ps| ==> |ps[k]| > 0
    requires forall k :: 0 <= k < |qs| ==> |qs[k]| > 0
    ensures RemoveEach(s, ps + qs) == RemoveEach(RemoveEach(s, ps), qs)
    decreases |qs|
  {
    if qs == [] {
      assert ps + qs == ps;
    } else {
      assert (ps + qs)[..|ps + qs| - 1] == ps + qs[..|qs| - 1];
      RemoveEachSplit(s, ps, qs[..|qs| - 1]);
    }
  }

  /** Tidied text does not end with a dash. */
  lemma TidiedLast(a: string)
    requires Tidied(a) && a != []
    ensures a[|a| - 1] != '-'
  {
    if !IsSpace(a[|a| - 1]) {
      assert RStrip(a) == a;
    }
  }

  /** In `a + " " + v`, of the separators before `" " + v` none occurs. */
  lemma EarlierSeparatorsAbsent(a: string, v: string)
    requires VariableName(v) && '%' !in a && Tidied(a)
    ensures forall k :: 0 <= k < 5 ==> !Contains(a + " " + v, Separators(v)[k])
  {
    var t := a + " " + v;
    var ps := Separators(v);
    var at := |a| + 1;
    assert forall j :: 0 <= j < |a| ==> t[j] == a[j];
    assert forall j :: at < j < |t| ==> t[j] == v[j - at];
    assert forall j :: 0 <= j < |t| && j != at ==> t[j] != '%';
    if a != [] {
      TidiedLast(a);
    }
    forall k, i | 0 <= k < 5 && 0 <= i <= |t|
      ensures !(ps[k] <= t[i..])
    {
      var p := ps[k];
      var m := if k == 0 then 3 else if k == 2 || k == 4 then 1 else 0;
      assert p[m] == '%';
      if i + |p| <= |t| {
        assert t[i..][m] == t[i + m];
        if i + m == at {
          if k == 0 {
            assert t[i..][1] == a[|a| - 1] && p[1] == '-';
          } else if k == 2 || k == 4 {
            assert t[i..][0] == t[|a|] == ' ';
          }
        }
      }
    }
    forall k | 0 <= k < 5
      ensures !Contains(t, ps[k])
    {
      NotContainsAnywhere(t, ps[k]);
    }
  }

  /**
   * `"<text> %Var"` without a value is cleaned to the text: only the space before
   * the variable goes, whatever the text ends with.
   */
  lemma CleanEmptyAfterSpace(a: string, v: string)
    requires VariableName(v) && '%' !in a && Tidied(a)
    ensures CleanEmpty(a + " " + v, v) == a
  {
    var t := a + " " + v;
    var ps := Separators(v);
    assert RemoveEach(t, ps[..5]) == t by {
      EarlierSeparatorsAbsent(a, v);
      RemoveEachAbsent(t, ps[..5]);
    }
    LastSeparatorsRemove(a, v);
    assert ps == ps[..5] + ps[5..];
    RemoveEachSplit(t, ps[..5], ps[5..]);
    TidyIdle(a);
  }

  /** Of the separators from `" " + v` on, only `" " + v` occurs in `a + " " + v`. */
  lemma LastSeparatorsRemove(a: string, v: string)
    requires VariableName(v) && '%' !in a
    ensures RemoveEach(a + " " + v, Separators(v)[5..]) == a
  {
    var qs := Separators(v)[5..];
    assert qs == [" " + v, v + " ", v];
    ReplaceAtEnd(a, qs[0], "", 1, '%');
    assert a + " " + v == a + qs[0];
    forall k | 1 <= k < 3
      ensures !Contains(a, qs[k])
    {
      assert qs[k][0] == '%';
      LacksChar(a, qs[k], '%');
    }
    RemoveEachFirst(a + " " + v, qs, a);
  }

  lemma StepCleansAfterSpace(a: string, k: nat, md: map<string, Cell>, pyStr: Cell -> string)
    requires k < |VariableMap| && '%' !in a && Tidied(a)
    requires !Truthy(DictGet(md, VariableMap[k].1, Str("")))
    ensures Step(a + " " + VariableMap[k].0, VariableMap[k], md, pyStr) == a
  {
    VariableNameAt(k);
    var v := VariableMap[k].0;
    ContainsAt(a + " " + v, v, |a| + 1);
    CleanEmptyAfterSpace(a, v);
  }

  /**
   * A variable with no value after a space takes only that space with it: what
   * precedes is kept whole, so `"Series - Tome %Number"` without a number gives
   * `"Series - Tome"`.
   */
  lemma EmptyVariableAfterSpace(a: string, k: nat, md: map<string, Cell>, pyStr: Cell -> string)
    requires k < |VariableMap| && '%' !in a && Tidied(a)
    requires !Truthy(DictGet(md, VariableMap[k].1, Str("")))
    ensures Substituted(a + " " + VariableMap[k].0, md, pyStr) == Strip(a)
  {
    var template := a + " " + VariableMap[k].0;
    assert SubstitutedUpTo(template, md, pyStr, k + 1) == a by {
      VariableNameAt(k);
      OnlyVariableAround(a + " ", VariableMap[k].0, []);
      assert (a + " ") + VariableMap[k].0 + [] == template;
      EarlierStepsIdle(template, md, pyStr, k);
      StepCleansAfterSpace(a, k, md, pyStr);
    }
    LaterStepsIdle(template, md, pyStr, k + 1, a);
  }

  /**
   * Without a number, `"Series - Tome %Number"` keeps its `" - Tome"`: only the
   * space before the variable is a separator pattern that occurs.
   */
  lemma TomeWithoutNumber(md: map<string, Cell>, pyStr: Cell -> string)
    requires !Truthy(DictGet(md, "Number", Str("")))
    ensures Substituted("Series - Tome %Number", md, pyStr) == "Series - Tome"
  {
    TomeTidied();
    assert "Series - Tome" + " " + VariableMap[1].0 == "Series - Tome %Number";
    EmptyVariableAfterSpace("Series - Tome", 1, md, pyStr);
  }

  lemma TomeTidied()
    ensures Tidied("Series - Tome") && '%' !in "Series - Tome"
    ensures Strip("Series - Tome") == "Series - Tome"
  {
    TomeStripped();
    TomeSingleSpaced();
  }

  lemma TomeStripped()
    ensures RStrip("Series - Tome") == "Series - Tome"
    ensures LStrip("Series - Tome") == "Series - Tome"
  {
    var a := "Series - Tome";
    assert |a| == 13 && a[0] == 'S' && a[12] == 'e';
    assert !IsSpace(a[0]) && !IsSpace(a[12]);
  }

  lemma TomeSingleSpaced()
    ensures SingleSpaced("Series - Tome")
  {
    var a := "Series - Tome";
    forall i | 0 <= i < |a|
      ensures IsSpace(a[i]) <==> i == 6 || i == 8
    {
    }
  }

  /** The table entries before `k` leave a text holding only variable `k` alone. */
  lemma {:induction false} EarlierStepsIdle(s: string, md: map<string, Cell>, pyStr: Cell -> string, k: nat)
    requires k < |VariableMap| && OnlyVariable(s, VariableMap[k].0)
    ensures SubstitutedUpTo(s, md, pyStr, k) == s
  {
    VariableNames();
    var j := 0;
    while j < k
      invariant j <= k
      invariant SubstitutedUpTo(s, md, pyStr, j) == s
    {
      OtherVariableAbsent(s, VariableMap[k].0, VariableMap[j].0);
      j := j + 1;
    }
  }

  /** The table entries from `k` on leave a text without a percent sign alone. */
  lemma {:induction false} LaterStepsIdle(template: string, md: map<string, Cell>, pyStr: Cell -> string, k: nat, s: string)
    requires k <= |VariableMap| && '%' !in s && SubstitutedUpTo(template, md, pyStr, k) == s
    ensures SubstitutedUpTo(template, md, pyStr, |VariableMap|) == s
  {
    var j := k;
    while j < |VariableMap|
      invariant k <= j <= |VariableMap|
      invariant SubstitutedUpTo(template, md, pyStr, j) == s
    {
      NoVariableIn(s, j);
      j := j + 1;
    }
  }

  /**
   * A variable with no value is removed with the " - " before it: a tidied text
   * followed by `" - %Var"` becomes the stripped text.
   */
  lemma EmptyVariableDropped(a: string, k: nat, md: map<string, Cell>, pyStr: Cell -> string)
    requires k < |VariableMap| && '%' !in a && Tidied(a)
    requires !Truthy(DictGet(md, VariableMap[k].1, Str("")))
    ensures Substituted(a + " - " + VariableMap[k].0, md, pyStr) == Strip(a)
  {
    var template := a + " - " + VariableMap[k].0;
    VariableNameAt(k);
    OnlyVariableAround(a + " - ", VariableMap[k].0, []);
    assert (a + " - ") + VariableMap[k].0 + [] == template;
    EarlierStepsIdle(template, md, pyStr, k);
    StepCleans(a, k, md, pyStr);
    LaterStepsIdle(template, md, pyStr, k + 1, a);
  }

  lemma StepCleans(a: string, k: nat, md: map<string, Cell>, pyStr: Cell -> string)
    requires k < |VariableMap| && '%' !in a && Tidied(a)
    requires !Truthy(DictGet(md, VariableMap[k].1, Str("")))
    ensures Step(a + " - " + VariableMap[k].0, VariableMap[k], md, pyStr) == a
  {
    VariableNames();
    var v := VariableMap[k].0;
    ContainsAt(a + " - " + v, v, |a| + 3);
    CleanEmptyTrailing(a, v);
  }

  /**
   * A variable with a value is replaced by the value's text, and the rest of the
   * template is kept.
   */
  lemma VariableReplaced(a: string, k: nat, b: string, md: map<string, Cell>, pyStr: Cell -> string)
    requires k < |VariableMap| && '%' !in a && '%' !in b
    requires Truthy(DictGet(md, VariableMap[k].1, Str("")))
    requires '%' !in ValueText(VariableMap[k].1, DictGet(md, VariableMap[k].1, Str("")), pyStr)
    ensures Substituted(a + VariableMap[k].0 + b, md, pyStr)
            == Strip(a + ValueText(VariableMap[k].1, DictGet(md, VariableMap[k].1, Str("")), pyStr) + b)
  {
    var text := ValueText(VariableMap[k].1, DictGet(md, VariableMap[k].1, Str("")), pyStr);
    UpToReplaced(a, k, b, md, pyStr);
    NoMarkJoin(a, text, b);
    LaterStepsIdle(a + VariableMap[k].0 + b, md, pyStr, k + 1, a + text + b);
  }

  lemma UpToReplaced(a: string, k: nat, b: string, md: map<string, Cell>, pyStr: Cell -> string)
    requires k < |VariableMap| && '%' !in a && '%' !in b
    requires Truthy(DictGet(md, VariableMap[k].1, Str("")))
    ensures SubstitutedUpTo(a + VariableMap[k].0 + b, md, pyStr, k + 1)
            == a + ValueText(VariableMap[k].1, DictGet(md, VariableMap[k].1, Str("")), pyStr) + b
  {
    var template := a + VariableMap[k].0 + b;
    VariableNameAt(k);
    OnlyVariableAround(a, VariableMap[k].0, b);
    EarlierStepsIdle(template, md, pyStr, k);
    StepReplaces(a, k, b, md, pyStr);
  }

  lemma NoMarkJoin(a: string, t: string, b: string)
    requires '%' !in a && '%' !in t && '%' !in b
    ensures '%' !in a + t + b
  {
  }

  lemma StepReplaces(a: string, k: nat, b: string, md: map<string, Cell>, pyStr: Cell -> string)
    requires k < |VariableMap| && '%' !in a && '%' !in b
    requires Truthy(DictGet(md, VariableMap[k].1, Str("")))
    ensures Step(a + VariableMap[k].0 + b, VariableMap[k], md, pyStr)
            == a + ValueText(VariableMap[k].1, DictGet(md, VariableMap[k].1, Str("")), pyStr) + b
  {
    VariableNames();
    var v := VariableMap[k].0;
    ContainsAt(a + v + b, v, |a|);
    ReplaceOnce(a, v, b, ValueText(VariableMap[k].1, DictGet(md, VariableMap[k].1, Str("")), pyStr));
  }

  /** The one occurrence of a variable is replaced by `text`. */
  lemma ReplaceOnce(a: string, v: string, b: string, text: string)
    requires VariableName(v) && '%' !in a && '%' !in b
    ensures ReplaceAll(a + v + b, v, text) == a + text + b
  {
    assert a + v + b == a + (v + b);
    ReplaceAfterPrefix(a, v + b, v, text);
    ReplaceAtStart(v, b, text);
    LacksChar(b, v, '%');
    ReplaceAbsent(b, v, text);
  }

  // ---------------------------------------------------------------- the sanitizer

  /** `INVALID_CHARS`: the characters not allowed in a file name on some system. */
  predicate IsInvalidChar(c: char) {
    c in {'<', '>', ':', '"', '/', '\\', '|', '?', '*'}
  }

  /** `MAX_FILENAME_LENGTH`. */
  const MaxFilenameLength := 255

  /** `re.sub(INVALID_CHARS, replacement, s)`. */
  function ReplaceInvalid(s: string, replacement: string): (r: string)
    ensures (forall k :: 0 <= k < |replacement| ==> !IsInvalidChar(replacement[k])) ==>
              forall k :: 0 <= k < |r| ==> !IsInvalidChar(r[k])
    decreases |s|
  {
    if s == [] then []
    else (if IsInvalidChar(s[0]) then replacement else [s[0]]) + ReplaceInvalid(s[1..], replacement)
  }

  /** Position of the last `c` in `s`, or -1: `s.rfind(c)`. */
  function RFind(s: string, c: char): (i: int)
    ensures -1 <= i < |s|
    ensures i >= 0 ==> s[i] == c
    ensures forall j :: i < j < |s| ==> s[j] != c
  {
    if s == [] then -1
    else if s[|s| - 1] == c then |s| - 1
    else RFind(s[..|s| - 1], c)
  }

  /** Some character of `p[i..j]` is not a dot: the scan `splitext` makes of the last component. */
  predicate NonDotBetween(p: string, i: nat, j: nat)
    requires j <= |p|
    decreases j - i
  {
    i < j && (p[i] != '.' || NonDotBetween(p, i + 1, j))
  }

  /**
   * `os.path.splitext(p)` on POSIX: the extension runs from the last dot, when
   * that dot lies after the last `/` and something other than dots comes
   * before it in the last component.
   */
  function SplitExt(p: string): (r: (string, string))
    ensures r.0 + r.1 == p
    ensures r.1 == [] || (r.1[0] == '.' && '.' !in r.1[1..] && '/' !in r.1)
  {
    var sepIndex := RFind(p, '/');
    var dotIndex := RFind(p, '.');
    if dotIndex > sepIndex && NonDotBetween(p, sepIndex + 1, dotIndex) then
      assert p[..dotIndex] + p[dotIndex..] == p;
      assert forall j :: 0 <= j < |p| - dotIndex - 1 ==> p[dotIndex..][1..][j] == p[dotIndex + 1 + j];
      (p[..dotIndex], p[dotIndex..])
    else
      assert p + [] == p;
      (p, [])
  }

  /** The characters replaced, the whitespace collapsed. */
  function Cleaned(s: string, replacement: string): string {
    CollapseSpaces(ReplaceInvalid(s, replacement))
  }

  /** The stem without its final dots, cut so that stem and extension fit in 255 characters. */
  function FittedStem(name: string, ext: string): (cut: string)
    ensures |ext| <= MaxFilenameLength ==> |cut| + |ext| <= MaxFilenameLength
    ensures cut <= name
  {
    var stem := RStripChar(name, '.');
    if |stem| > MaxFilenameLength - |ext| then PySliceTo(stem, MaxFilenameLength - |ext|) else stem
  }

  /**
   * What becomes of a cleaned name: the final dots of its stem removed, the
   * stem cut so that stem and extension fit in 255 characters, and the whole
   * stripped.
   */
  function Finished(c: string): (r: string)
    ensures |SplitExt(c).1| <= MaxFilenameLength ==> |r| <= MaxFilenameLength
    ensures r == [] || (!IsSpace(r[0]) && !IsSpace(r[|r| - 1]))
  {
    var (name, ext) := SplitExt(c);
    Strip(FittedStem(name, ext) + ext)
  }

  /**
   * `sanitize(filename, replacement)`: the invalid characters replaced,
   * whitespace collapsed, the final dots of the stem removed, the stem cut to
   * fit 255 characters with its extension, and the whole stripped. Unicode
   * normalisation is not modelled. The replacement is inserted literally, as
   * `re.sub` does for a replacement without a backslash.
   */
  function Sanitize(filename: string, replacement: string): (r: string)
    requires forall k :: 0 <= k < |replacement| ==> replacement[k] != '\\'
    ensures r == [] || (!IsSpace(r[0]) && !IsSpace(r[|r| - 1]))
  {
    Finished(Cleaned(filename, replacement))
  }

  /** The sanitized name fits in 255 characters whenever its extension does. */
  lemma SanitizeLength(filename: string, replacement: string)
    requires forall k :: 0 <= k < |replacement| ==> replacement[k] != '\\'
    ensures |SplitExt(Cleaned(filename, replacement)).1| <= MaxFilenameLength ==>
              |Sanitize(filename, replacement)| <= MaxFilenameLength
  {
  }

  predicate NoInvalidChars(s: string) {
    forall k :: 0 <= k < |s| ==> !IsInvalidChar(s[k])
  }

  /** `strip` keeps a piece of its argument. */
  lemma StripIsSlice(s: string)
    ensures |Strip(s)| <= |RStrip(s)| <= |s|
    ensures Strip(s) == s[|RStrip(s)| - |Strip(s)|..|RStrip(s)|]
  {
    var t := RStrip(s);
    assert t == s[..|t|];
  }

  /** A name splits into pieces of itself: the fitted stem starts it, the extension ends it. */
  lemma FittedParts(c: string)
    ensures var (name, ext) := SplitExt(c);
            FittedStem(name, ext) + ext == c[..|FittedStem(name, ext)|] + c[|name|..]
  {
    var (name, ext) := SplitExt(c);
    var cut := FittedStem(name, ext);
    assert c == name + ext;
    assert c[..|cut|] == cut;
    assert c[|name|..] == ext;
  }

  /** A piece of text without invalid characters has none. */
  lemma NoInvalidSlice(s: string, i: nat, j: nat)
    requires NoInvalidChars(s) && i <= j <= |s|
    ensures NoInvalidChars(s[i..j])
  {
    var p := s[i..j];
    assert forall k :: 0 <= k < |p| ==> p[k] == s[i + k];
  }

  /** Collapsing whitespace brings no invalid character back. */
  lemma CleanedNoInvalid(filename: string, replacement: string)
    requires NoInvalidChars(replacement)
    ensures NoInvalidChars(Cleaned(filename, replacement))
  {
    var r := ReplaceInvalid(filename, replacement);
    var c := Cleaned(filename, replacement);
    CollapseSpacesChars(r);
    forall k | 0 <= k < |c|
      ensures !IsInvalidChar(c[k])
    {
      if c[k] != ' ' {
        var j :| 0 <= j < |r| && r[j] == c[k];
      }
    }
  }

  /** Fitting and stripping a name without invalid characters leaves none. */
  lemma FinishedNoInvalid(c: string)
    requires NoInvalidChars(c)
    ensures NoInvalidChars(Finished(c))
  {
    var (name, ext) := SplitExt(c);
    var cut := FittedStem(name, ext);
    FittedParts(c);
    NoInvalidSlice(c, 0, |cut|);
    NoInvalidSlice(c, |name|, |c|);
    assert c[0..|cut|] == c[..|cut|] && c[|name|..|c|] == c[|name|..];
    var joined := cut + ext;
    assert NoInvalidChars(joined) by {
      forall k | 0 <= k < |joined|
        ensures !IsInvalidChar(joined[k])
      {
        if k >= |cut| {
          assert joined[k] == c[|name|..][k - |cut|];
        }
      }
    }
    StripIsSlice(joined);
    NoInvalidSlice(joined, |RStrip(joined)| - |Strip(joined)|, |RStrip(joined)|);
  }

  /** With a replacement free of invalid characters, no invalid character is left. */
  lemma SanitizeNoInvalid(filename: string, replacement: string)
    requires forall k :: 0 <= k < |replacement| ==> replacement[k] != '\\'
    requires NoInvalidChars(replacement)
    ensures NoInvalidChars(Sanitize(filename, replacement))
  {
    CleanedNoInvalid(filename, replacement);
    FinishedNoInvalid(Cleaned(filename, replacement));
  }

  /** Two single-spaced texts joined before a non-space stay single-spaced. */
  lemma SingleSpacedJoin(a: string, b: string)
    requires SingleSpaced(a) && SingleSpaced(b) && (b == [] || !IsSpace(b[0]))
    ensures SingleSpaced(a + b)
  {
    var s := a + b;
    forall i | 0 <= i < |s| - 1
      ensures !(IsSpace(s[i]) && IsSpace(s[i + 1]))
    {
      if i >= |a| {
        assert s[i] == b[i - |a|] && s[i + 1] == b[i + 1 - |a|];
      } else if i + 1 < |a| {
        assert s[i] == a[i] && s[i + 1] == a[i + 1];
      }
    }
  }

  /** Fitting and stripping a single-spaced name keeps it single-spaced. */
  lemma FinishedSingleSpaced(c: string)
    requires SingleSpaced(c)
    ensures SingleSpaced(Finished(c))
  {
    var (name, ext) := SplitExt(c);
    var cut := FittedStem(name, ext);
    FittedParts(c);
    SingleSpacedPrefix(c, c[..|cut|]);
    SingleSpacedSuffix(c, |c| - |name|);
    SingleSpacedJoin(c[..|cut|], c[|name|..]);
    var joined := cut + ext;
    var rs := RStrip(joined);
    SingleSpacedPrefix(joined, rs);
    SingleSpacedSuffix(rs, |LStrip(rs)|);
  }

  /** The sanitized name has no whitespace but single spaces. */
  lemma SanitizeSingleSpaced(filename: string, replacement: string)
    requires forall k :: 0 <= k < |replacement| ==> replacement[k] != '\\'
    ensures SingleSpaced(Sanitize(filename, replacement))
  {
    CollapseSpacesShape(ReplaceInvalid(filename, replacement));
    FinishedSingleSpaced(Cleaned(filename, replacement));
  }

  /** The extension found in the cleaned name ends the sanitized name, unless it ends in whitespace. */
  lemma SanitizeKeepsExtension(filename: string, replacement: string)
    requires forall k :: 0 <= k < |replacement| ==> replacement[k] != '\\'
    requires SplitExt(Cleaned(filename, replacement)).1 != []
    requires !IsSpace(SplitExt(Cleaned(filename, replacement)).1[|SplitExt(Cleaned(filename, replacement)).1| - 1])
    ensures |SplitExt(Cleaned(filename, replacement)).1| <= |Sanitize(filename, replacement)|
    ensures Sanitize(filename, replacement)[|Sanitize(filename, replacement)| - |SplitExt(Cleaned(filename, replacement)).1|..]
            == SplitExt(Cleaned(filename, replacement)).1
  {
    FinishedKeepsExtension(Cleaned(filename, replacement));
  }

  /** The extension of a name survives fitting and stripping when it ends in a non-space. */
  lemma FinishedKeepsExtension(c: string)
    requires SplitExt(c).1 != [] && !IsSpace(SplitExt(c).1[|SplitExt(c).1| - 1])
    ensures |SplitExt(c).1| <= |Finished(c)|
    ensures Finished(c)[|Finished(c)| - |SplitExt(c).1|..] == SplitExt(c).1
  {
    var (name, ext) := SplitExt(c);
    StripKeepsEnd(FittedStem(name, ext), ext);
  }

  /** Stripping keeps a tail that starts and ends with a non-space. */
  lemma StripKeepsEnd(a: string, b: string)
    requires b != [] && !IsSpace(b[0]) && !IsSpace(b[|b| - 1])
    ensures |b| <= |Strip(a + b)| && Strip(a + b)[|Strip(a + b)| - |b|..] == b
  {
    assert RStrip(a + b) == a + b;
    StripKeepsTail(a, b);
  }

  /** Stripping a text whose tail starts and ends with a non-space keeps that tail. */
  lemma {:induction false} StripKeepsTail(a: string, b: string)
    requires b != [] && !IsSpace(b[0]) && !IsSpace(b[|b| - 1])
    ensures |b| <= |LStrip(a + b)| && LStrip(a + b)[|LStrip(a + b)| - |b|..] == b
    decreases |a|
  {
    if a != [] && IsSpace(a[0]) {
      assert (a + b)[1..] == a[1..] + b;
      StripKeepsTail(a[1..], b);
    } else if a == [] {
      assert a + b == b;
    }
  }
}
