/** Re-indenting the continuation lines of a replacement by column arithmetic
    (internal/textfile/edit.go, internal/textfile/editorconfig.go). */
module Indentation {
  import opened TextLines

  datatype Style = Space | Tab | Unknown

  datatype Indent = Indent(style: Style, indentSize: int, tabWidth: int)

  const MAX_INDENT_WIDTH := 32

  /** Unusable settings fall back to four spaces. */
  function Normalized(indent: Indent): (r: Indent)
    ensures r.style != Unknown && 1 <= r.tabWidth <= MAX_INDENT_WIDTH && 1 <= r.indentSize <= MAX_INDENT_WIDTH
    ensures indent.style != Unknown ==> r.style == indent.style
    ensures indent.style == Unknown ==> r.style == Space
    ensures 1 <= indent.indentSize <= MAX_INDENT_WIDTH ==> r.indentSize == indent.indentSize
    ensures !(1 <= indent.indentSize <= MAX_INDENT_WIDTH) ==> r.indentSize == 4
    ensures 1 <= indent.tabWidth <= MAX_INDENT_WIDTH ==> r.tabWidth == indent.tabWidth
    ensures !(1 <= indent.tabWidth <= MAX_INDENT_WIDTH) ==> r.tabWidth == r.indentSize
  {
    var size := if indent.indentSize < 1 || indent.indentSize > MAX_INDENT_WIDTH then 4 else indent.indentSize;
    Indent(if indent.style == Unknown then Space else indent.style, size,
           if indent.tabWidth < 1 || indent.tabWidth > MAX_INDENT_WIDTH then size else indent.tabWidth)
  }

  predicate Blank(c: char) {
    c == ' ' || c == '\t'
  }

  /** How many characters of s from i on are blank. */
  function BlankEnd(s: string, i: nat): (e: nat)
    requires i <= |s|
    ensures i <= e <= |s|
    decreases |s| - i
  {
    if i < |s| && Blank(s[i]) then BlankEnd(s, i + 1) else i
  }

  lemma {:induction false} BlankEndIs(s: string, i: nat, e: nat)
    requires i <= e <= |s| && (e < |s| ==> !Blank(s[e]))
    requires forall k :: i <= k < e ==> Blank(s[k])
    ensures BlankEnd(s, i) == e
    decreases e - i
  {
    if i < e {
      BlankEndIs(s, i + 1, e);
    }
  }

  lemma {:induction false} BlankEndFacts(s: string, i: nat)
    requires i <= |s|
    ensures var e := BlankEnd(s, i);
            (forall k :: i <= k < e ==> Blank(s[k])) && (e < |s| ==> !Blank(s[e]))
    decreases |s| - i
  {
    if i < |s| && Blank(s[i]) {
      BlankEndFacts(s, i + 1);
    }
  }

  /** The column after s[from..to], a stretch of indentation; a tab moves to the next multiple of its width. */
  function Columns(s: string, from: nat, to: nat, tabWidth: int): nat
    requires to <= |s| && tabWidth > 0
  {
    if from >= to then 0
    else
      var before := Columns(s, from, to - 1, tabWidth);
      if s[to - 1] == '\t' then before + tabWidth - before % tabWidth else before + 1
  }

  /** The column at which a line's own text starts. */
  function LeadingColumns(line: string, tabWidth: int): nat
    requires tabWidth > 0
  {
    Columns(line, 0, BlankEnd(line, 0), tabWidth)
  }

  /** A line without its indentation. */
  function Unindented(line: string): string {
    line[BlankEnd(line, 0)..]
  }

  function Repeat(c: char, n: nat): (s: string)
    ensures |s| == n && forall i :: 0 <= i < n ==> s[i] == c
  {
    seq(n, i => c)
  }

  /** As many whole tabs as fit, then spaces. */
  function Render(columns: int, indent: Indent): string
    requires indent.tabWidth > 0
    decreases if columns > 0 then columns else 0
  {
    if columns <= 0 then ""
    else if indent.style == Tab && columns >= indent.tabWidth then
      ['\t'] + Render(columns - indent.tabWidth, indent)
    else Repeat(' ', columns)
  }

  /** Spaces count one column each, wherever they start. */
  lemma {:induction false} ColumnsSpaces(s: string, from: nat, middle: nat, to: nat, tabWidth: int)
    requires from <= middle <= to <= |s| && tabWidth > 0
    requires forall i :: middle <= i < to ==> s[i] == ' '
    ensures Columns(s, from, to, tabWidth) == Columns(s, from, middle, tabWidth) + (to - middle)
  {
    if to > middle {
      ColumnsSpaces(s, from, middle, to - 1, tabWidth);
    }
  }

  /** Equal stretches of indentation measure the same. */
  lemma {:induction false} ColumnsSlice(s: string, from: nat, to: nat, t: string, tabWidth: int)
    requires from <= to <= |s| && to - from <= |t| && tabWidth > 0
    requires forall i :: from <= i < to ==> s[i] == t[i - from]
    ensures Columns(s, from, to, tabWidth) == Columns(t, 0, to - from, tabWidth)
  {
    if from < to {
      ColumnsSlice(s, from, to - 1, t, tabWidth);
    }
  }

  /** A multiple of w that is not zero is at least w away from zero. */
  lemma MultipleApart(w: int, d: int)
    requires w > 0
    ensures d >= 1 ==> w * d >= w
    ensures d <= -1 ==> w * d <= -w
  {
    if d >= 1 {
      assert w * d >= w * 1;
    } else if d <= -1 {
      assert w * d <= w * -1;
    }
  }

  lemma TabStop(k: nat, tabWidth: int)
    requires tabWidth > 0
    ensures (k * tabWidth) % tabWidth == 0 && (k + 1) * tabWidth == k * tabWidth + tabWidth
  {
    var x := k * tabWidth;
    var q := x / tabWidth;
    assert x == tabWidth * q + x % tabWidth;
    assert tabWidth * (k - q) == x % tabWidth;
    MultipleApart(tabWidth, k - q);
  }

  lemma {:induction false} ColumnsTabs(s: string, n: nat, tabWidth: int)
    requires n <= |s| && tabWidth > 0
    requires forall i :: 0 <= i < n ==> s[i] == '\t'
    ensures Columns(s, 0, n, tabWidth) == n * tabWidth
  {
    if n > 0 {
      ColumnsTabs(s, n - 1, tabWidth);
      TabStop(n - 1, tabWidth);
    }
  }

  predicate AllBlank(s: string) {
    forall i :: 0 <= i < |s| ==> Blank(s[i])
  }

  lemma Divide(n: nat, w: int)
    requires w > 0
    ensures n == (n / w) * w + n % w
    ensures n < w ==> n / w == 0 && n % w == n
    ensures n >= w ==> n / w == (n - w) / w + 1 && n % w == (n - w) % w
  {
    if n >= w {
      var q, r := (n - w) / w, (n - w) % w;
      assert n == w * (q + 1) + r;
      assert n == w * (n / w) + n % w;
      assert w * (q + 1 - n / w) == n % w - r;
      MultipleApart(w, q + 1 - n / w);
    }
  }

  /** Rendering with tabs is a division with remainder. */
  lemma {:induction false} RenderDivides(columns: nat, indent: Indent)
    requires indent.tabWidth > 0 && indent.style == Tab
    ensures Render(columns, indent)
              == Repeat('\t', columns / indent.tabWidth) + Repeat(' ', columns % indent.tabWidth)
  {
    var w := indent.tabWidth;
    Divide(columns, w);
    if columns >= w {
      RenderDivides(columns - w, indent);
      OneMore('\t', (columns - w) / w, Repeat(' ', columns % w));
    } else {
      assert Repeat('\t', 0) == "";
    }
  }

  lemma OneMore(c: char, n: nat, rest: string)
    ensures [c] + (Repeat(c, n) + rest) == Repeat(c, n + 1) + rest
  {
  }

  lemma TabsMeasured(columns: nat, w: int)
    requires w > 0
    ensures var s := Repeat('\t', columns / w) + Repeat(' ', columns % w);
            Columns(s, 0, |s|, w) == columns && AllBlank(s)
  {
    var s := Repeat('\t', columns / w) + Repeat(' ', columns % w);
    ColumnsTabs(s, columns / w, w);
    ColumnsSpaces(s, 0, columns / w, |s|, w);
    Divide(columns, w);
  }

  /** Measuring a rendered indentation returns the requested column, in either style and for every width. */
  lemma RenderMeasured(columns: int, indent: Indent)
    requires indent.tabWidth > 0
    ensures var s := Render(columns, indent);
            Columns(s, 0, |s|, indent.tabWidth) == (if columns < 0 then 0 else columns) && AllBlank(s)
  {
    if columns > 0 {
      if indent.style == Tab {
        TabsMeasured(columns, indent.tabWidth);
        RenderDivides(columns, indent);
      } else {
        var s := Render(columns, indent);
        ColumnsSpaces(s, 0, 0, |s|, indent.tabWidth);
      }
    }
  }

  // ----- the adapter ------------------------------------------------------------------

  /** Where the line that contains position i starts. */
  function LineStart(text: string, i: nat): (r: nat)
    requires i <= |text|
    ensures r <= i
  {
    if i == 0 || IsBreak(text[i - 1]) then i else LineStart(text, i - 1)
  }

  /** The line that contains position i starts at the text's start or right after the last break before i. */
  predicate StartsLine(text: string, i: nat, start: nat) {
    && start <= i <= |text|
    && (start == 0 || IsBreak(text[start - 1]))
    && forall k :: start <= k < i ==> !IsBreak(text[k])
  }

  lemma {:induction false} LineStartIff(text: string, i: nat, start: nat)
    requires i <= |text|
    ensures LineStart(text, i) == start <==> StartsLine(text, i, start)
  {
    if i > 0 && !IsBreak(text[i - 1]) {
      LineStartIff(text, i - 1, start);
    }
  }

  /** The column at which the matched line is indented. */
  function TargetColumns(text: string, matchStart: nat, tabWidth: int): nat
    requires matchStart <= |text| && tabWidth > 0
  {
    var start := LineStart(text, matchStart);
    Columns(text, start, BlankEnd(text, start), tabWidth)
  }

  predicate BlankLine(s: string) {
    BlankEnd(s, 0) == |s|
  }

  /** A continuation line: same ending, same text after its indentation, shifted column. */
  function AdaptLine(l: Line, shift: int, indent: Indent): Line
    requires indent.tabWidth > 0
  {
    if BlankLine(l.text) then Line("", l.ending)
    else
      Line(Render(LeadingColumns(l.text, indent.tabWidth) + shift, indent) + Unindented(l.text), l.ending)
  }

  function AdaptBy(shift: int, indent: Indent): Line -> Line
    requires indent.tabWidth > 0
  {
    l => AdaptLine(l, shift, indent)
  }

  function MapLines(lines: seq<Line>, f: Line -> Line): seq<Line> {
    seq(|lines|, i requires 0 <= i < |lines| => f(lines[i]))
  }

  /** The first line as it is, f applied to the others. */
  function MapRest(lines: seq<Line>, f: Line -> Line): seq<Line> {
    if lines == [] then [] else [lines[0]] + MapLines(lines[1..], f)
  }

  /** How far the continuation lines move, so that the first line's own indentation would land
      on the matched line's. */
  function ShiftFor(text: string, matchStart: nat, lines: seq<Line>, tabWidth: int): int
    requires matchStart <= |text| && tabWidth > 0
  {
    if lines == [] then 0
    else TargetColumns(text, matchStart, tabWidth) - LeadingColumns(lines[0].text, tabWidth)
  }

  /** The lines of an adapted replacement. */
  function AdaptedLines(text: string, matchStart: nat, replacement: string, indentation: Indent): seq<Line>
    requires matchStart <= |text|
  {
    var lines, indent := Lines(replacement), Normalized(indentation);
    MapRest(lines, AdaptBy(ShiftFor(text, matchStart, lines, indent.tabWidth), indent))
  }

  function Adapted(text: string, matchStart: nat, replacement: string, indentation: Indent): string
    requires matchStart <= |text|
  {
    Join(AdaptedLines(text, matchStart, replacement, indentation))
  }

  /** What it means that a continuation line was re-indented by shift columns: the ending and the
      text after the indentation are kept, a blank line is emptied, and any other line lands at
      column max(0, own + shift). */
  predicate Reindented(l: Line, a: Line, shift: int, tabWidth: int)
    requires tabWidth > 0
  {
    && a.ending == l.ending
    && Unindented(a.text) == Unindented(l.text)
    && (if BlankLine(l.text) then a.text == ""
        else
          var column := LeadingColumns(l.text, tabWidth) + shift;
          LeadingColumns(a.text, tabWidth) == if column < 0 then 0 else column)
  }

  lemma IndentedBy(prefix: string, rest: string, tabWidth: int)
    requires AllBlank(prefix) && rest != "" && !Blank(rest[0]) && tabWidth > 0
    ensures LeadingColumns(prefix + rest, tabWidth) == Columns(prefix, 0, |prefix|, tabWidth)
    ensures Unindented(prefix + rest) == rest
  {
    var s := prefix + rest;
    BlankEndIs(s, 0, |prefix|);
    ColumnsSlice(s, 0, |prefix|, prefix, tabWidth);
  }

  lemma AdaptLineLands(l: Line, shift: int, indent: Indent)
    requires indent.tabWidth > 0
    ensures Reindented(l, AdaptLine(l, shift, indent), shift, indent.tabWidth)
  {
    if !BlankLine(l.text) {
      var column := LeadingColumns(l.text, indent.tabWidth) + shift;
      RenderMeasured(column, indent);
      BlankEndFacts(l.text, 0);
      IndentedBy(Render(column, indent), Unindented(l.text), indent.tabWidth);
    }
  }

  /** The adapter, line by line: nothing changes but the indentation of continuation lines, and each
      non-blank one lands at column max(0, target + own - first), where target is the column at which the
      indentation of the matched line ends and first the one of the replacement's first line. */
  lemma AdaptedMeans(text: string, matchStart: nat, replacement: string, indentation: Indent, k: nat,
                     start: nat, end: nat)
    requires matchStart <= |text| && k < |Lines(replacement)|
    requires StartsLine(text, matchStart, start)
    requires start <= end <= |text| && AllBlank(text[start..end]) && (end < |text| ==> !Blank(text[end]))
    ensures var lines, adapted := Lines(replacement), AdaptedLines(text, matchStart, replacement, indentation);
            var w := Normalized(indentation).tabWidth;
            var shift := Columns(text, start, end, w) - LeadingColumns(lines[0].text, w);
            && |adapted| == |lines|
            && (k == 0 ==> adapted[k] == lines[k])
            && (k > 0 ==> Reindented(lines[k], adapted[k], shift, w))
    ensures Adapted(text, matchStart, replacement, indentation)
              == Join(AdaptedLines(text, matchStart, replacement, indentation))
  {
    var lines := Lines(replacement);
    var indent := Normalized(indentation);
    var shift := ShiftFor(text, matchStart, lines, indent.tabWidth);
    AdaptLineLands(lines[k], shift, indent);
    LineStartIff(text, matchStart, start);
    forall i | start <= i < end
      ensures Blank(text[i])
    {
      assert text[start..end][i - start] == text[i];
    }
    BlankEndIs(text, start, end);
  }

  /** Two places where dropping a blank line's spaces makes it disappear: a line feed left alone
      after a carriage return joins it, and an unterminated last line leaves nothing. */
  predicate Swallows(lines: seq<Line>) {
    || (exists k :: 0 <= k < |lines| - 1 && lines[k].ending == Cr
                    && lines[k + 1].ending == Lf && BlankLine(lines[k + 1].text))
    || (|lines| > 1 && lines[|lines| - 1].ending == NoEnding && BlankLine(lines[|lines| - 1].text))
  }

  /** The same predicate on indices, which is easier to carry through a map. */
  predicate CanonicalPair(lines: seq<Line>, k: nat)
    requires k < |lines|
  {
    && NoBreak(lines[k].text)
    && (lines[k].ending == NoEnding ==> k + 1 == |lines| && lines[k].text != "")
    && (lines[k].ending == Cr && k + 1 < |lines| ==> lines[k + 1] != Line("", Lf))
  }

  predicate AllPairs(lines: seq<Line>) {
    forall k :: 0 <= k < |lines| ==> CanonicalPair(lines, k)
  }

  lemma {:induction false} CanonicalHasPairs(lines: seq<Line>, k: nat)
    requires Canonical(lines) && k < |lines|
    ensures CanonicalPair(lines, k)
  {
    if k > 0 {
      CanonicalHasPairs(lines[1..], k - 1);
    }
  }

  lemma {:induction false} PairsAreCanonical(lines: seq<Line>)
    requires AllPairs(lines)
    ensures Canonical(lines)
  {
    if lines != [] {
      assert CanonicalPair(lines, 0);
      forall k | 0 <= k < |lines| - 1
        ensures CanonicalPair(lines[1..], k)
      {
        assert CanonicalPair(lines, k + 1);
      }
      PairsAreCanonical(lines[1..]);
    }
  }

  lemma AdaptLineNoBreak(l: Line, shift: int, indent: Indent)
    requires indent.tabWidth > 0 && NoBreak(l.text)
    ensures NoBreak(AdaptLine(l, shift, indent).text)
    ensures AdaptLine(l, shift, indent).text == "" <==> BlankLine(l.text)
  {
    if !BlankLine(l.text) {
      RenderMeasured(LeadingColumns(l.text, indent.tabWidth) + shift, indent);
    }
  }

  /** A line list that differs from a canonical one in the way the adapter changes it. */
  predicate Emptied(lines: seq<Line>, adapted: seq<Line>) {
    && |adapted| == |lines| > 0
    && adapted[0] == lines[0]
    && forall k :: 1 <= k < |lines| ==> EmptiedLine(lines[k], adapted[k])
  }

  predicate EmptiedLine(l: Line, a: Line) {
    a.ending == l.ending && NoBreak(a.text) && (a.text == "" <==> BlankLine(l.text))
  }

  lemma AdaptLinesEmptied(lines: seq<Line>, shift: int, indent: Indent)
    requires Canonical(lines) && lines != [] && indent.tabWidth > 0
    ensures Emptied(lines, MapRest(lines, AdaptBy(shift, indent)))
  {
    var adapted := MapRest(lines, AdaptBy(shift, indent));
    forall k | 1 <= k < |lines|
      ensures EmptiedLine(lines[k], adapted[k])
    {
      MapRestAt(lines, shift, indent, k);
      CanonicalHasPairs(lines, k);
      AdaptLineNoBreak(lines[k], shift, indent);
    }
  }

  lemma MapRestAt(lines: seq<Line>, shift: int, indent: Indent, k: nat)
    requires 0 < k < |lines| && indent.tabWidth > 0
    ensures MapRest(lines, AdaptBy(shift, indent))[k] == AdaptLine(lines[k], shift, indent)
  {
    assert lines[1..][k - 1] == lines[k];
  }

  lemma UnswallowedIsCanonical(lines: seq<Line>, adapted: seq<Line>)
    requires Canonical(lines) && Emptied(lines, adapted) && !Swallows(lines)
    ensures Canonical(adapted)
  {
    forall k | 0 <= k < |adapted|
      ensures CanonicalPair(adapted, k)
    {
      CanonicalHasPairs(lines, k);
    }
    PairsAreCanonical(adapted);
  }

  lemma CanonicalIsUnswallowed(lines: seq<Line>, adapted: seq<Line>)
    requires Canonical(adapted) && Emptied(lines, adapted)
    ensures !Swallows(lines)
  {
    forall k | 0 <= k < |lines| - 1 && lines[k].ending == Cr && lines[k + 1].ending == Lf
      ensures !BlankLine(lines[k + 1].text)
    {
      CanonicalHasPairs(adapted, k);
    }
    CanonicalHasPairs(adapted, |lines| - 1);
  }

  /** The adapted text, split again, has exactly the adapted lines if and only if no blank line
      of the replacement is swallowed. */
  lemma AdaptedSplitsBack(text: string, matchStart: nat, replacement: string, indentation: Indent)
    requires matchStart <= |text|
    ensures Lines(Adapted(text, matchStart, replacement, indentation))
              == AdaptedLines(text, matchStart, replacement, indentation)
            <==> !Swallows(Lines(replacement))
  {
    var lines, adapted := Lines(replacement), AdaptedLines(text, matchStart, replacement, indentation);
    LinesCanonical(replacement);
    if lines != [] {
      var indent := Normalized(indentation);
      var shift := ShiftFor(text, matchStart, lines, indent.tabWidth);
      AdaptLinesEmptied(lines, shift, indent);
      SplitsBackIff(lines, adapted);
    }
  }

  lemma SplitsBackIff(lines: seq<Line>, adapted: seq<Line>)
    requires Canonical(lines) && Emptied(lines, adapted)
    ensures Lines(Join(adapted)) == adapted <==> !Swallows(lines)
  {
    LinesCanonical(Join(adapted));
    if !Swallows(lines) {
      UnswallowedIsCanonical(lines, adapted);
      LinesUnique(adapted);
    } else if Canonical(adapted) {
      CanonicalIsUnswallowed(lines, adapted);
    }
  }

  /** The failing family has a member: a carriage return, then a line of one space and a line feed. */
  lemma SwallowedLine()
    ensures Swallows(Lines("a\r \nb"))
  {
    var lines := [Line("a", Cr), Line(" ", Lf), Line("b", NoEnding)];
    assert lines[1..] == [Line(" ", Lf), Line("b", NoEnding)];
    assert lines[1..][1..] == [Line("b", NoEnding)];
    assert lines[1..][1..][1..] == [];
    assert Canonical(lines);
    assert Join(lines) == "a\r \nb";
    LinesUnique(lines);
    assert lines[0].ending == Cr && lines[1].ending == Lf && BlankLine(lines[1].text);
  }

  // ----- the loops that compute it -----------------------------------------------------

  method LeadingIndentation(line: string, start: nat) returns (end: nat)
    requires start <= |line|
    ensures end == BlankEnd(line, start)
  {
    end := start;
    while end < |line| && Blank(line[end])
      invariant start <= end <= |line|
      invariant BlankEnd(line, start) == BlankEnd(line, end)
    {
      end := end + 1;
    }
  }

  method IndentationColumns(prefix: string, tabWidth: int) returns (columns: nat)
    requires tabWidth > 0
    ensures columns == Columns(prefix, 0, |prefix|, tabWidth)
  {
    columns := 0;
    var i := 0;
    while i < |prefix|
      invariant 0 <= i <= |prefix|
      invariant columns == Columns(prefix, 0, i, tabWidth)
    {
      if prefix[i] == '\t' {
        columns := columns + tabWidth - columns % tabWidth;
      } else {
        columns := columns + 1;
      }
      i := i + 1;
    }
  }

  method RenderIndentation(columns: int, indent: Indent) returns (s: string)
    requires indent.tabWidth > 0
    ensures s == Render(columns, indent)
  {
    if columns <= 0 {
      return "";
    }
    if indent.style == Tab {
      var tabs := columns / indent.tabWidth;
      Divide(columns, indent.tabWidth);
      RenderDivides(columns, indent);
      s := Repeat('\t', tabs) + Repeat(' ', columns - tabs * indent.tabWidth);
    } else {
      s := Repeat(' ', columns);
    }
  }

  method ReplacementLine(value: string, start: nat) returns (end: nat, next: nat)
    requires start < |value|
    ensures start <= end <= next <= |value| && start < next
    ensures var l := LineFrom(value, start);
            value[start..end] == l.text && value[end..next] == l.ending.Text() && next == start + LineLength(l)
  {
    end := start;
    while end < |value| && !IsBreak(value[end])
      invariant start <= end <= |value|
      invariant forall k :: start <= k < end ==> !IsBreak(value[k])
    {
      end := end + 1;
    }
    LineFromIs(value, start, end);
    next := end;
    if next < |value| {
      BreakAtFacts(value, next);
      if value[next] == '\r' && next + 1 < |value| && value[next + 1] == '\n' {
        next := next + 2;
      } else {
        next := next + 1;
      }
    }
  }

  /** One step of the adapter's loop: the re-indented line, written with its ending. */
  method WriteContinuation(l: Line, target: nat, first: nat, indent: Indent) returns (written: string)
    requires indent.tabWidth > 0
    ensures written == Join([AdaptLine(l, target - first, indent)])
  {
    written := "";
    var end := LeadingIndentation(l.text, 0);
    var prefix := l.text[..end];
    if |prefix| < |l.text| {
      ColumnsSlice(l.text, 0, end, prefix, indent.tabWidth);
      var own := IndentationColumns(prefix, indent.tabWidth);
      var desired := target + (own - first);
      if desired < 0 {
        desired := 0;
      }
      var indented := RenderIndentation(desired, indent);
      written := indented + l.text[|prefix|..];
    }
    written := written + l.ending.Text();
    assert [AdaptLine(l, target - first, indent)][1..] == [];
  }

  method MeasureTarget(text: string, matchStart: nat, tabWidth: int) returns (target: nat)
    requires matchStart <= |text| && tabWidth > 0
    ensures target == TargetColumns(text, matchStart, tabWidth)
  {
    var lineStart: nat := matchStart;
    while lineStart > 0 && !IsBreak(text[lineStart - 1])
      invariant lineStart <= matchStart
      invariant LineStart(text, matchStart) == LineStart(text, lineStart)
    {
      lineStart := lineStart - 1;
    }
    var targetEnd := LeadingIndentation(text, lineStart);
    ColumnsSlice(text, lineStart, targetEnd, text[lineStart..targetEnd], tabWidth);
    target := IndentationColumns(text[lineStart..targetEnd], tabWidth);
  }

  method MeasureLine(line: string, tabWidth: int) returns (columns: nat)
    requires tabWidth > 0
    ensures columns == LeadingColumns(line, tabWidth)
  {
    var end := LeadingIndentation(line, 0);
    ColumnsSlice(line, 0, end, line[..end], tabWidth);
    columns := IndentationColumns(line[..end], tabWidth);
  }

  method AdaptOne(replacement: string, start: nat, target: nat, first: nat, indent: Indent, ghost f: Line -> Line)
    returns (written: string, next: nat)
    requires start < |replacement| && indent.tabWidth > 0 && Adapts(f, target - first, indent)
    ensures written == Join([f(LineFrom(replacement, start))])
    ensures next == start + LineLength(LineFrom(replacement, start)) <= |replacement|
  {
    var lineEnd, after := ReplacementLine(replacement, start);
    next := after;
    var ending := LineFrom(replacement, start).ending;
    written := WriteContinuation(Line(replacement[start..lineEnd], ending), target, first, indent);
  }

  /** f stands for re-indenting by shift columns. */
  ghost predicate Adapts(f: Line -> Line, shift: int, indent: Indent)
    requires indent.tabWidth > 0
  {
    forall l: Line {:trigger AdaptLine(l, shift, indent)} :: f(l) == AdaptLine(l, shift, indent)
  }

  /** The adapter's loop over the continuation lines, from position start on. */
  method AdaptFrom(replacement: string, start: nat, target: nat, first: nat, indent: Indent, ghost f: Line -> Line)
    returns (written: string)
    requires start <= |replacement| && indent.tabWidth > 0 && Adapts(f, target - first, indent)
    ensures written == Join(MapLines(LinesFrom(replacement, start), f))
  {
    var next := start;
    written := "";
    ghost var whole := Join(MapLines(LinesFrom(replacement, start), f));
    while next < |replacement|
      invariant next <= |replacement|
      invariant written + Join(MapLines(LinesFrom(replacement, next), f)) == whole
    {
      var line, after := AdaptOne(replacement, next, target, first, indent, f);
      WalkOn(replacement, next, written, f);
      written := written + line;
      next := after;
    }
  }

  method AdaptLinesOf(replacement: string, target: nat, indent: Indent, ghost f: Line -> Line) returns (adapted: string)
    requires replacement != "" && indent.tabWidth > 0
    requires Adapts(f, target - LeadingColumns(LineFrom(replacement, 0).text, indent.tabWidth), indent)
    ensures adapted == Join(MapRest(Lines(replacement), f))
  {
    var firstEnd, next := ReplacementLine(replacement, 0);
    if firstEnd == |replacement| {
      OneLine(replacement, f);
      return replacement;
    }
    var first := MeasureLine(replacement[0..firstEnd], indent.tabWidth);
    var rest := AdaptFrom(replacement, next, target, first, indent, f);
    adapted := replacement[..next] + rest;
    MapRestFrom(replacement, next, rest, f);
  }

  /** Adapting writes the first line as it is and every other line at its shifted column. */
  method AdaptReplacementIndentation(text: string, matchStart: nat, replacement: string, indentation: Indent)
    returns (adapted: string)
    requires matchStart <= |text|
    ensures adapted == Adapted(text, matchStart, replacement, indentation)
  {
    if replacement == "" {
      return replacement;
    }
    var indent := Normalized(indentation);
    var target := MeasureTarget(text, matchStart, indent.tabWidth);
    FirstOfReplacement(replacement);
    ghost var shift := ShiftFor(text, matchStart, Lines(replacement), indent.tabWidth);
    adapted := AdaptLinesOf(replacement, target, indent, AdaptBy(shift, indent));
  }

  lemma FirstOfReplacement(s: string)
    requires s != ""
    ensures var l := LineFrom(s, 0);
            && Lines(s) != [] && Lines(s)[0] == l && Lines(s)[1..] == LinesFrom(s, LineLength(l))
            && s[..LineLength(l)] == l.text + l.ending.Text()
  {
    LinesFromStart(s);
    LinesFromTail(s, 0);
    var e := LineEnd(s, 0);
    if e < |s| {
      BreakAtFacts(s, e);
    }
  }

  lemma OneLine(s: string, f: Line -> Line)
    requires s != "" && LineLength(LineFrom(s, 0)) == |s|
    ensures Join(MapRest(Lines(s), f)) == s
  {
    LinesFromStart(s);
    LinesJoin(s);
    assert Lines(s)[1..] == [];
  }

  lemma MapRestShape(s: string, f: Line -> Line)
    requires s != ""
    ensures var l := LineFrom(s, 0);
            Join(MapRest(Lines(s), f)) == s[..LineLength(l)] + Join(MapLines(LinesFrom(s, LineLength(l)), f))
  {
    FirstOfReplacement(s);
    JoinHeadTail(Lines(s)[0], MapLines(Lines(s)[1..], f));
  }

  lemma MapRestFrom(s: string, next: nat, rest: string, f: Line -> Line)
    requires s != "" && next == LineLength(LineFrom(s, 0)) <= |s| && rest == Join(MapLines(LinesFrom(s, next), f))
    ensures s[..next] + rest == Join(MapRest(Lines(s), f))
  {
    MapRestShape(s, f);
  }

  lemma JoinHeadTail(l: Line, rest: seq<Line>)
    ensures Join([l] + rest) == l.text + l.ending.Text() + Join(rest)
  {
  }

  lemma LinesFromTail(s: string, i: nat)
    requires i < |s|
    ensures LinesFrom(s, i)[0] == LineFrom(s, i)
    ensures LinesFrom(s, i)[1..] == LinesFrom(s, i + LineLength(LineFrom(s, i)))
  {
  }

  lemma WalkOn(s: string, i: nat, written: string, f: Line -> Line)
    requires i < |s|
    ensures var l := LineFrom(s, i);
            written + Join([f(l)]) + Join(MapLines(LinesFrom(s, i + LineLength(l)), f))
              == written + Join(MapLines(LinesFrom(s, i), f))
  {
    LinesFromTail(s, i);
    MapHead(LinesFrom(s, i), f);
  }

  lemma MapHead(lines: seq<Line>, f: Line -> Line)
    requires lines != []
    ensures Join(MapLines(lines, f)) == Join([f(lines[0])]) + Join(MapLines(lines[1..], f))
  {
    var head, tail := [f(lines[0])], MapLines(lines[1..], f);
    assert MapLines(lines, f) == head + tail;
    JoinAppend(head, tail);
  }
}
