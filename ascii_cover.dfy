/**
 * The terminal cover preview (`ASCIICoverGenerator`): the character sets,
 * the mapping of grey levels to characters with a line break after each row,
 * the box drawn around the art, the preview with its title and the
 * placeholder shown when there is no cover.
 *
 * Opening, resizing and greying the image belong to PIL: whether PIL is
 * installed, the size read from the file (or the exception opening it
 * raised) and the grey levels PIL gives for a requested size are inputs.
 */
module AsciiCover {
  import opened Wrappers
  import opened Text
  import opened Seqs

  // ---------------------------------------------------------------- character sets

  /** `ASCII_CHARS_DETAILED`, `ASCII_CHARS_SIMPLE` and `ASCII_CHARS_BLOCKS`: darkest first, a space last. */
  const Detailed: string := "@%#*+=-:. "
  const Simple: string := "@#*=-:. "
  const Blocks: string := "\U{2588}\U{2593}\U{2592}\U{2591} "

  /** The set `__init__` picks for `char_set`: any other name gives the blocks. */
  function CharSet(name: string): (cs: string)
    ensures name == "detailed" ==> cs == Detailed
    ensures name == "simple" ==> cs == Simple
    ensures name != "detailed" && name != "simple" ==> cs == Blocks
    ensures |cs| >= 5 && cs[|cs| - 1] == ' '
  {
    if name == "detailed" then Detailed
    else if name == "simple" then Simple
    else Blocks
  }

  // ---------------------------------------------------------------- grey levels to characters

  /** A grey level of an image in PIL's mode `L`. */
  type Pixel = p: int | 0 <= p <= 255

  /** `int((p / 255) * (n - 1))`, taken in exact arithmetic. */
  function CharIndex(p: Pixel, n: nat): (k: nat)
    requires n >= 1
    ensures k < n
    ensures p == 0 ==> k == 0
    ensures p == 255 ==> k == n - 1
  {
    var m: nat := n - 1;
    MulMonotone(p, 255, m);
    DivMonotone(p * m, 255 * m, 255);
    DivUnique(255 * m, 255, m, 0);
    (p * m) / 255
  }

  /** A brighter pixel never gets a darker character. */
  lemma CharIndexMonotone(p: Pixel, q: Pixel, n: nat)
    requires n >= 1 && p <= q
    ensures CharIndex(p, n) <= CharIndex(q, n)
  {
    var m: nat := n - 1;
    MulMonotone(p, q, m);
    DivMonotone(p * m, q * m, 255);
  }

  lemma MulMonotone(a: nat, b: nat, m: nat)
    requires a <= b
    ensures a * m <= b * m
  {
    assert b * m == a * m + (b - a) * m;
  }

  /** One more item crosses a row boundary exactly when it completes a row. */
  lemma DivStep(n: nat, w: nat)
    requires w >= 1
    ensures (n + 1) / w == n / w + (if (n + 1) % w == 0 then 1 else 0)
  {
    var q, r := n / w, n % w;
    if r + 1 < w {
      DivUnique(n + 1, w, q, r + 1);
    } else {
      assert n + 1 == (q + 1) * w;
      DivUnique(n + 1, w, q + 1, 0);
    }
  }

  lemma MulAtLeast(k: int, w: nat)
    requires k >= 1
    ensures k * w >= w
  {
    assert k * w == (k - 1) * w + w;
  }

  lemma DivUnique(a: nat, w: nat, q: int, r: int)
    requires w >= 1 && 0 <= r < w && a == q * w + r
    ensures a / w == q && a % w == r
  {
    var q', r' := a / w, a % w;
    assert a == q' * w + r';
    assert (q - q') * w == q * w - q' * w;
    if q > q' {
      MulAtLeast(q - q', w);
    } else if q < q' {
      MulAtLeast(q' - q, w);
    }
  }

  lemma {:induction false} DivMonotone(a: nat, b: nat, w: nat)
    requires w >= 1 && a <= b
    ensures a / w <= b / w
    decreases b - a
  {
    if a < b {
      DivMonotone(a, b - 1, w);
      DivStep(b - 1, w);
    }
  }

  /** The character each pixel gets. */
  function Glyphs(pixels: seq<Pixel>, chars: string): (g: string)
    requires |chars| >= 1
    ensures |g| == |pixels|
  {
    seq(|pixels|, i requires 0 <= i < |pixels| => chars[CharIndex(pixels[i], |chars|)])
  }

  /** Text laid out in rows of `w`: a line break after every `w` characters. */
  function Rows(s: string, w: nat): (art: string)
    requires w >= 1
    ensures |art| == |s| + |s| / w
    decreases |s|
  {
    if s == [] then []
    else
      var n := |s| - 1;
      DivStep(n, w);
      Rows(s[..n], w) + [s[n]] + (if (n + 1) % w == 0 then "\n" else "")
  }

  /** The text the pixel loop builds. */
  function Rendered(pixels: seq<Pixel>, chars: string, w: nat): (art: string)
    requires |chars| >= 1 && w >= 1
    ensures |art| == |pixels| + |pixels| / w
  {
    Rows(Glyphs(pixels, chars), w)
  }

  /** Laying out a prefix gives a prefix of the layout. */
  lemma {:induction false} RowsPrefix(s: string, k: nat, w: nat)
    requires w >= 1 && k <= |s|
    ensures Rows(s[..k], w) <= Rows(s, w)
    decreases |s|
  {
    if k < |s| {
      var n := |s| - 1;
      RowsPrefix(s[..n], k, w);
      assert s[..n][..k] == s[..k];
    } else {
      assert s[..k] == s;
    }
  }

  /** Character `i` sits after the `i / w` line breaks of the rows before it; the last of a row is followed by a line break. */
  lemma RowsAt(s: string, w: nat, i: nat)
    requires w >= 1 && i < |s|
    ensures i + i / w < |Rows(s, w)| && Rows(s, w)[i + i / w] == s[i]
    ensures (i + 1) % w == 0 ==> i + i / w + 1 < |Rows(s, w)| && Rows(s, w)[i + i / w + 1] == '\n'
  {
    RowsPrefix(s, i + 1, w);
    assert s[..i + 1][..i] == s[..i];
  }

  /** Pixel `i` gets its character at `i + i / w`; a row's last pixel is followed by a line break. */
  lemma RenderedAt(pixels: seq<Pixel>, chars: string, w: nat, i: nat)
    requires |chars| >= 1 && w >= 1 && i < |pixels|
    ensures i + i / w < |Rendered(pixels, chars, w)|
            && Rendered(pixels, chars, w)[i + i / w] == chars[CharIndex(pixels[i], |chars|)]
    ensures (i + 1) % w == 0 ==>
              i + i / w + 1 < |Rendered(pixels, chars, w)| && Rendered(pixels, chars, w)[i + i / w + 1] == '\n'
  {
    var g := Glyphs(pixels, chars);
    RowsAt(g, w, i);
    assert g[i] == chars[CharIndex(pixels[i], |chars|)];
  }

  /** The pixel loop of `image_to_ascii`. */
  method PixelsToAscii(pixels: seq<Pixel>, chars: string, w: nat) returns (art: string)
    requires |chars| >= 1 && w >= 1
    ensures art == Rendered(pixels, chars, w)
  {
    ghost var g := Glyphs(pixels, chars);
    art := "";
    for i := 0 to |pixels|
      invariant art == Rows(g[..i], w)
    {
      assert g[..i + 1][..i] == g[..i];
      art := art + [chars[CharIndex(pixels[i], |chars|)]];
      if (i + 1) % w == 0 {
        art := art + "\n";
      }
    }
    assert g[..|pixels|] == g;
  }

  // ---------------------------------------------------------------- the border

  const TopLeft: char := '\U{250C}'
  const TopRight: char := '\U{2510}'
  const BottomLeft: char := '\U{2514}'
  const BottomRight: char := '\U{2518}'
  const Horizontal: char := '\U{2500}'
  const Vertical: char := '\U{2502}'

  /** A horizontal edge: a corner, `width` rules (none for a negative width) and a corner. */
  function Edge(left: char, width: int, right: char): (e: string)
    requires left != '\n' && right != '\n'
    ensures |e| == (if width > 0 then width else 0) + 2
    ensures '\n' !in e
  {
    [left] + Repeat(Horizontal, width) + [right]
  }

  function TopEdge(width: int): string {
    Edge(TopLeft, width, TopRight)
  }

  function BottomEdge(width: int): string {
    Edge(BottomLeft, width, BottomRight)
  }

  /** A line between two vertical bars. */
  function Framed(line: string): (f: string)
    ensures |f| == |line| + 2
    ensures '\n' !in line ==> '\n' !in f
  {
    [Vertical] + line + [Vertical]
  }

  /** Lines, each followed by a line break. */
  function Lines(ls: seq<string>): string
    decreases |ls|
  {
    if ls == [] then "" else ls[0] + "\n" + Lines(ls[1..])
  }

  lemma {:induction false} LinesSnoc(ls: seq<string>, x: string)
    ensures Lines(ls + [x]) == Lines(ls) + x + "\n"
    decreases |ls|
  {
    if ls != [] {
      LinesSnoc(ls[1..], x);
      assert (ls + [x])[1..] == ls[1..] + [x];
    } else {
      assert [x][1..] == [];
    }
  }

  /** Text before a separator it does not contain splits off as the first part. */
  lemma SplitAfter(a: string, rest: string, sep: char)
    requires sep !in a
    ensures Split(a + [sep] + rest, sep) == [a] + Split(rest, sep)
  {
    var s := a + [sep] + rest;
    assert s[|a|] == sep;
    assert s[..|a|] == a;
    var i := IndexOf(s, sep);
    assert i == |a|;
    assert s[i + 1..] == rest;
  }

  /** Lines without breaks, each followed by a break, split back into those lines and a final empty part. */
  lemma {:induction false} SplitLines(ls: seq<string>)
    requires forall k :: 0 <= k < |ls| ==> '\n' !in ls[k]
    ensures Split(Lines(ls), '\n') == ls + [""]
    decreases |ls|
  {
    if ls != [] {
      SplitLines(ls[1..]);
      SplitAfter(ls[0], Lines(ls[1..]), '\n');
      assert ls == [ls[0]] + ls[1..];
    }
  }

  /** The lines of the art without its surrounding whitespace. */
  function ArtLines(art: string): seq<string> {
    Split(Strip(art), '\n')
  }

  /** The lines of a box around `lines`: the top edge, each line between bars, the bottom edge. */
  function BoxOf(lines: seq<string>, width: int): (ls: seq<string>)
    ensures |ls| == |lines| + 2
  {
    [TopEdge(width)] + Map(Framed, lines) + [BottomEdge(width)]
  }

  /** `_add_border(art, width)`: the lines of the box around the art, each followed by a line break. */
  function Bordered(art: string, width: int): string {
    Lines(BoxOf(ArtLines(art), width))
  }

  /** The loop of `_add_border`, from the top edge to the bottom edge. */
  method Box(lines: seq<string>, width: int) returns (box: string)
    ensures box == Lines(BoxOf(lines, width))
  {
    var top := TopEdge(width);
    box := top + "\n";
    assert Map(Framed, lines[..0]) == [];
    assert Lines([top]) == top + "\n" + Lines([]);
    for k := 0 to |lines|
      invariant box == Lines([top] + Map(Framed, lines[..k]))
    {
      LinesSnoc([top] + Map(Framed, lines[..k]), Framed(lines[k]));
      assert [top] + Map(Framed, lines[..k + 1]) == [top] + Map(Framed, lines[..k]) + [Framed(lines[k])];
      box := box + Framed(lines[k]) + "\n";
    }
    assert lines[..|lines|] == lines;
    LinesSnoc([top] + Map(Framed, lines), BottomEdge(width));
    box := box + BottomEdge(width) + "\n";
  }

  method AddBorder(art: string, width: int) returns (bordered: string)
    ensures bordered == Bordered(art, width)
  {
    var lines := ArtLines(art);
    bordered := Box(lines, width);
  }

  /** A box around lines without breaks has no break in any of its lines. */
  lemma BoxNoBreak(lines: seq<string>, width: int)
    requires forall k :: 0 <= k < |lines| ==> '\n' !in lines[k]
    ensures forall k :: 0 <= k < |BoxOf(lines, width)| ==> '\n' !in BoxOf(lines, width)[k]
  {
    var ls := BoxOf(lines, width);
    forall k | 0 <= k < |ls|
      ensures '\n' !in ls[k]
    {
      if 0 < k < |ls| - 1 {
        assert ls[k] == Framed(lines[k - 1]);
      }
    }
  }

  /** A box around lines without breaks splits back into its lines, and nothing after the final break. */
  lemma BoxSplit(lines: seq<string>, width: int)
    requires forall k :: 0 <= k < |lines| ==> '\n' !in lines[k]
    ensures Split(Lines(BoxOf(lines, width)), '\n') == BoxOf(lines, width) + [""]
  {
    BoxNoBreak(lines, width);
    SplitLines(BoxOf(lines, width));
  }

  /** The lines of a box around lines `width` wide are all `width + 2` wide. */
  lemma BoxEven(lines: seq<string>, width: int)
    requires width >= 0
    requires forall k :: 0 <= k < |lines| ==> |lines[k]| == width
    ensures forall k :: 0 <= k < |BoxOf(lines, width)| ==> |BoxOf(lines, width)[k]| == width + 2
  {
    var ls := BoxOf(lines, width);
    forall k | 0 <= k < |ls|
      ensures |ls[k]| == width + 2
    {
      if 0 < k < |ls| - 1 {
        assert ls[k] == Framed(lines[k - 1]);
      }
    }
  }

  /**
   * The bordered art splits into the top edge, each line of the stripped art
   * between bars and the bottom edge, and nothing after the final line break.
   */
  lemma BorderedLines(art: string, width: int)
    ensures Split(Bordered(art, width), '\n') == BoxOf(ArtLines(art), width) + [""]
  {
    var lines := ArtLines(art);
    assert forall k :: 0 <= k < |lines| ==> '\n' !in lines[k];
    BoxSplit(lines, width);
  }

  /** When every line of the art is `width` wide, every line of the box is `width + 2` wide. */
  lemma BorderedEven(art: string, width: int)
    requires width >= 0
    requires forall k :: 0 <= k < |ArtLines(art)| ==> |ArtLines(art)[k]| == width
    ensures forall k :: 0 <= k < |Split(Bordered(art, width), '\n')| - 1 ==> |Split(Bordered(art, width), '\n')[k]| == width + 2
  {
    var lines := ArtLines(art);
    var parts := Split(Bordered(art, width), '\n');
    BorderedLines(art, width);
    BoxEven(lines, width);
    forall k | 0 <= k < |parts| - 1
      ensures |parts[k]| == width + 2
    {
      assert parts[k] == BoxOf(lines, width)[k];
    }
  }

  // ---------------------------------------------------------------- image_to_ascii

  /** Python's `int(x)`: truncation toward zero. */
  function Trunc(x: real): (n: int)
    ensures x >= 0.0 ==> n == x.Floor
    ensures x < 0.0 ==> n == -((-x).Floor)
  {
    if x >= 0.0 then x.Floor else -((-x).Floor)
  }

  /**
   * The size the image is resized to: the requested width and half the
   * image's aspect ratio in height, or the requested height and the width
   * that keeps the ratio when that height is exceeded. A zero image width,
   * or a zero height on the second branch, divides by zero.
   */
  function Dimensions(width: int, height: int, imageWidth: int, imageHeight: int): (d: Outcome<(int, int)>)
    ensures imageWidth == 0 ==> d.Raised?
    ensures d.Returned? ==> d.value.1 <= height
    ensures d.Returned? && d.value.1 < height ==> d.value.0 == width
  {
    if imageWidth == 0 then Raised("ZeroDivisionError")
    else
      var aspect := imageHeight as real / imageWidth as real;
      var newHeight := Trunc(width as real * aspect * 0.5);
      if newHeight > height then
        if aspect == 0.0 then Raised("ZeroDivisionError")
        else Returned((Trunc(height as real / aspect * 2.0), height))
      else Returned((width, newHeight))
  }

  /**
   * `image_to_ascii`: `None` without PIL, when the image does not open, when
   * computing the size divides by zero, or when PIL refuses an empty size;
   * otherwise the rendered pixels, boxed when `addBorder`.
   */
  function AsciiOf(pil: bool, size: Outcome<(int, int)>, grey: (int, int) -> seq<Pixel>,
                   width: int, height: int, chars: string, addBorder: bool): (r: Option<string>)
    requires |chars| >= 1
    ensures !pil ==> r.None?
    ensures size.Raised? ==> r.None?
  {
    if !pil then None
    else match size
      case Raised(_) => None
      case Returned(s) =>
        match Dimensions(width, height, s.0, s.1)
        case Raised(_) => None
        case Returned(d) =>
          if d.0 <= 0 || d.1 <= 0 then None
          else
            var art := Rendered(grey(d.0, d.1), chars, d.0);
            Some(if addBorder then Bordered(art, d.0) else art)
  }

  /** With a usable size, the unboxed art holds one character per pixel and one line break per full row. */
  lemma AsciiOfRows(pil: bool, size: Outcome<(int, int)>, grey: (int, int) -> seq<Pixel>,
                    width: int, height: int, chars: string)
    requires |chars| >= 1 && pil && size.Returned?
    requires Dimensions(width, height, size.value.0, size.value.1).Returned?
    requires Dimensions(width, height, size.value.0, size.value.1).value.0 > 0
    requires Dimensions(width, height, size.value.0, size.value.1).value.1 > 0
    ensures AsciiOf(pil, size, grey, width, height, chars, false).Some?
    ensures var d := Dimensions(width, height, size.value.0, size.value.1).value;
            |AsciiOf(pil, size, grey, width, height, chars, false).value| == |grey(d.0, d.1)| + |grey(d.0, d.1)| / d.0
  {
  }

  // ---------------------------------------------------------------- the generator

  /** The text `generate_preview` shows for the art it got, or for its absence. */
  function PreviewText(art: Option<string>, title: string, width: int): (p: string)
    ensures art.None? || art.value == "" ==> p == "\n" + title + "\n[Cover preview not available]\n"
    ensures art.Some? && art.value != "" && title == "" ==> p == art.value
    ensures art.Some? && art.value != "" && title != "" ==>
              p == "\n" + Center(PySliceTo(title, width), width + 2) + "\n" + art.value
  {
    if art.None? || art.value == "" then "\n" + title + "\n[Cover preview not available]\n"
    else (if title != "" then "\n" + Center(PySliceTo(title, width), width + 2) + "\n" else "") + art.value
  }

  class Generator {
    var width: int
    var height: int
    const chars: string

    ghost predicate Valid()
      reads this
    {
      chars == Detailed || chars == Simple || chars == Blocks
    }

    constructor(width: int, height: int, charSet: string)
      ensures Valid()
      ensures this.width == width && this.height == height && chars == CharSet(charSet)
    {
      this.width := width;
      this.height := height;
      chars := CharSet(charSet);
    }

    /** `image_to_ascii`, at the generator's current size. */
    method ImageToAscii(pil: bool, size: Outcome<(int, int)>, grey: (int, int) -> seq<Pixel>, addBorder: bool)
      returns (r: Option<string>)
      requires Valid()
      ensures r == AsciiOf(pil, size, grey, width, height, chars, addBorder)
    {
      if !pil {
        return None;
      }
      if size.Raised? {
        return None;
      }
      var d := Dimensions(width, height, size.value.0, size.value.1);
      if d.Raised? || d.value.0 <= 0 || d.value.1 <= 0 {
        return None;
      }
      var art := PixelsToAscii(grey(d.value.0, d.value.1), chars, d.value.0);
      if addBorder {
        art := AddBorder(art, d.value.0);
      }
      return Some(art);
    }

    /**
     * `generate_preview`: the art at the requested size under its centred
     * title, the size of the generator put back as it was afterwards.
     */
    method GeneratePreview(pil: bool, size: Outcome<(int, int)>, grey: (int, int) -> seq<Pixel>,
                           title: string, width: int, height: int)
      returns (preview: string)
      requires Valid()
      modifies this
      ensures Valid()
      ensures this.width == old(this.width) && this.height == old(this.height)
      ensures preview == PreviewText(AsciiOf(pil, size, grey, width, height, chars, true), title, width)
    {
      var oldWidth, oldHeight := this.width, this.height;
      this.width, this.height := width, height;
      var art := ImageToAscii(pil, size, grey, true);
      this.width, this.height := oldWidth, oldHeight;
      preview := PreviewText(art, title, width);
    }
  }

  // ---------------------------------------------------------------- the placeholder

  /** `max(0, height // 2 - 2)`: the blank lines above the text, and again below it. */
  function Padding(height: int): (n: nat)
    ensures height >= 4 ==> n == height / 2 - 2
    ensures height < 6 ==> n == 0
  {
    if height / 2 - 2 > 0 then height / 2 - 2 else 0
  }

  function Blank(width: int): string {
    Framed(Repeat(' ', width))
  }

  /** The text between the placeholder's bars: blank padding, the two words centred, the same padding. */
  function PlaceholderInner(width: int, height: int): (ls: seq<string>)
    ensures |ls| == 2 + 2 * Padding(height)
  {
    var pad := seq(Padding(height), _ => Repeat(' ', width));
    pad + [Center("NO COVER", width), Center("AVAILABLE", width)] + pad
  }

  /** The lines of `get_simple_placeholder`: a box around its inner text. */
  function PlaceholderLines(width: int, height: int): seq<string> {
    BoxOf(PlaceholderInner(width, height), width)
  }

  /** The lines the two loops append, in the order they append them, are the box's lines. */
  lemma PlaceholderBox(width: int, height: int)
    ensures [TopEdge(width)] + seq(Padding(height), _ => Blank(width))
            + [Framed(Center("NO COVER", width)), Framed(Center("AVAILABLE", width))]
            + seq(Padding(height), _ => Blank(width)) + [BottomEdge(width)]
            == PlaceholderLines(width, height)
  {
    var pad := Padding(height);
    var inner := PlaceholderInner(width, height);
    var blanks := seq(pad, _ => Blank(width));
    var middle := [Framed(Center("NO COVER", width)), Framed(Center("AVAILABLE", width))];
    assert Map(Framed, inner) == blanks + middle + blanks;
  }

  /** `get_simple_placeholder(width, height)`, its padding built by two loops. */
  method GetSimplePlaceholder(width: int, height: int) returns (r: string)
    ensures r == Join(PlaceholderLines(width, height), "\n")
  {
    var lines := [TopEdge(width)];
    var pad := Padding(height);
    for k := 0 to pad
      invariant lines == [TopEdge(width)] + seq(k, _ => Blank(width))
    {
      lines := lines + [Blank(width)];
    }
    lines := lines + [Framed(Center("NO COVER", width))];
    lines := lines + [Framed(Center("AVAILABLE", width))];
    for k := 0 to pad
      invariant lines == [TopEdge(width)] + seq(pad, _ => Blank(width))
                         + [Framed(Center("NO COVER", width)), Framed(Center("AVAILABLE", width))]
                         + seq(k, _ => Blank(width))
    {
      lines := lines + [Blank(width)];
    }
    lines := lines + [BottomEdge(width)];
    PlaceholderBox(width, height);
    r := Join(lines, "\n");
  }

  /** Centring pads with spaces only. */
  lemma CenterNoBreak(s: string, width: int)
    requires '\n' !in s
    ensures '\n' !in Center(s, width)
    ensures |s| <= width ==> |Center(s, width)| == width
  {
    if width > |s| {
      var left :| 0 <= left <= width - |s| && Center(s, width) == Repeat(' ', left) + s + Repeat(' ', width - |s| - left);
      assert '\n' !in Repeat(' ', left) && '\n' !in Repeat(' ', width - |s| - left);
    }
  }

  /** Parts joined on a separator none of them contains split back into those parts. */
  lemma {:induction false} SplitJoin(parts: seq<string>, sep: char)
    requires |parts| >= 1 && forall k :: 0 <= k < |parts| ==> sep !in parts[k]
    ensures Split(Join(parts, [sep]), sep) == parts
    decreases |parts|
  {
    if |parts| > 1 {
      var rest := parts[1..];
      SplitJoin(rest, sep);
      assert Join(parts, [sep]) == parts[0] + [sep] + Join(rest, [sep]);
      SplitAfter(parts[0], Join(rest, [sep]), sep);
      assert [parts[0]] + rest == parts;
    } else {
      assert Join(parts, [sep]) == parts[0];
      assert [parts[0]] == parts;
    }
  }

  /** The inner text has no line break, and is `width` wide when both words fit. */
  lemma PlaceholderInnerLines(width: int, height: int)
    ensures forall k :: 0 <= k < |PlaceholderInner(width, height)| ==> '\n' !in PlaceholderInner(width, height)[k]
    ensures width >= 9 ==> forall k :: 0 <= k < |PlaceholderInner(width, height)| ==> |PlaceholderInner(width, height)[k]| == width
  {
    var ls := PlaceholderInner(width, height);
    var pad := Padding(height);
    CenterNoBreak("NO COVER", width);
    CenterNoBreak("AVAILABLE", width);
    assert '\n' !in Repeat(' ', width);
    forall k | 0 <= k < |ls|
      ensures '\n' !in ls[k]
      ensures width >= 9 ==> |ls[k]| == width
    {
      if k < pad || k >= pad + 2 {
        assert ls[k] == Repeat(' ', width);
      }
    }
  }

  /**
   * The placeholder's lines: the top edge, the blank padding, the two words
   * centred between bars, the same padding and the bottom edge, joined by
   * line breaks so that they split back into exactly those lines; with a
   * width of at least 9 every line is `width + 2` wide.
   */
  lemma PlaceholderShape(width: int, height: int)
    ensures Split(Join(PlaceholderLines(width, height), "\n"), '\n') == PlaceholderLines(width, height)
    ensures |PlaceholderLines(width, height)| == 4 + 2 * Padding(height)
    ensures width >= 9 ==> forall k :: 0 <= k < |PlaceholderLines(width, height)| ==> |PlaceholderLines(width, height)[k]| == width + 2
  {
    var inner := PlaceholderInner(width, height);
    PlaceholderInnerLines(width, height);
    BoxNoBreak(inner, width);
    SplitJoin(PlaceholderLines(width, height), '\n');
    if width >= 9 {
      BoxEven(inner, width);
    }
  }
}
