/** Inspecting and normalising line breaks (internal/textfile/codec.go). */
module Newlines {
  import opened Basics
  import opened TextLines

  datatype Style = NoStyle | LfStyle | CrLfStyle | CrStyle | MixedStyle

  // ----- what the counts and the styles mean -------------------------------------------------

  /** How many lines end with a given break. */
  function Count(lines: seq<Line>, ending: Ending): nat {
    if lines == [] then 0 else (if lines[0].ending == ending then 1 else 0) + Count(lines[1..], ending)
  }

  function StyleOf(ending: Ending): Style {
    match ending
    case NoEnding => NoStyle
    case Lf => LfStyle
    case CrLf => CrLfStyle
    case Cr => CrStyle
  }

  /** The style of the first break. */
  function FirstStyle(lines: seq<Line>): Style {
    if lines == [] then NoStyle else StyleOf(lines[0].ending)
  }

  /** A character that is no break changes no count. */
  lemma CharStep(s: string, i: nat, ending: Ending)
    requires i < |s| && !IsBreak(s[i]) && ending != NoEnding
    ensures Count(LinesFrom(s, i), ending) == Count(LinesFrom(s, i + 1), ending)
    ensures FirstStyle(LinesFrom(s, i)) == FirstStyle(LinesFrom(s, i + 1))
  {
    if i + 1 < |s| {
      var l, m := LineFrom(s, i), LineFrom(s, i + 1);
      assert l.ending == m.ending && i + LineLength(l) == i + 1 + LineLength(m);
    } else {
      LastLineFrom(s, i);
    }
  }

  lemma BreakStep(s: string, i: nat, ending: Ending)
    requires i < |s| && IsBreak(s[i])
    ensures var b := BreakAt(s, i);
            && Count(LinesFrom(s, i), ending)
                 == (if b == ending then 1 else 0) + Count(LinesFrom(s, i + b.Size()), ending)
            && FirstStyle(LinesFrom(s, i)) == StyleOf(b)
  {
    LineFromIs(s, i, i);
  }

  /** What the reported style means. */
  predicate StyleMeans(style: Style, first: Style, lf: nat, crlf: nat, cr: nat) {
    var kinds := (if lf > 0 then 1 else 0) + (if crlf > 0 then 1 else 0) + (if cr > 0 then 1 else 0);
    style == if kinds == 0 then NoStyle else if kinds == 1 then first else MixedStyle
  }

  function CountOf(style: Style, lf: nat, crlf: nat, cr: nat): int {
    match style
    case LfStyle => lf
    case CrLfStyle => crlf
    case CrStyle => cr
    case _ => -1
  }

  /** The dominant style is a most frequent one, the first one of the text when that is most frequent. */
  predicate DominantMeans(dominant: Style, first: Style, lf: nat, crlf: nat, cr: nat) {
    var n := CountOf(dominant, lf, crlf, cr);
    if lf + crlf + cr == 0 then dominant == NoStyle
    else n >= lf && n >= crlf && n >= cr && (CountOf(first, lf, crlf, cr) == n ==> dominant == first)
  }

  lemma {:induction false} FirstCounts(lines: seq<Line>)
    requires Canonical(lines)
    ensures FirstStyle(lines) == NoStyle
            <==> Count(lines, Lf) + Count(lines, CrLf) + Count(lines, Cr) == 0
    ensures FirstStyle(lines) != MixedStyle
    ensures FirstStyle(lines) != NoStyle
            ==> CountOf(FirstStyle(lines), Count(lines, Lf), Count(lines, CrLf), Count(lines, Cr)) > 0
  {
    if lines != [] && lines[0].ending == NoEnding {
      assert lines[1..] == [];
    }
  }

  method InspectNewlines(text: string) returns (style: Style, dominant: Style, lf: nat, crlf: nat, cr: nat)
    ensures var lines := Lines(text);
            && lf == Count(lines, Lf) && crlf == Count(lines, CrLf) && cr == Count(lines, Cr)
            && StyleMeans(style, FirstStyle(lines), lf, crlf, cr)
            && DominantMeans(dominant, FirstStyle(lines), lf, crlf, cr)
  {
    var first;
    first, lf, crlf, cr := CountBreaks(text);
    LinesCanonical(text);
    FirstCounts(Lines(text));
    var kinds := 0;
    if lf > 0 {
      kinds := kinds + 1;
    }
    if crlf > 0 {
      kinds := kinds + 1;
    }
    if cr > 0 {
      kinds := kinds + 1;
    }
    if kinds == 0 {
      return NoStyle, NoStyle, 0, 0, 0;
    }
    style := first;
    if kinds > 1 {
      style := MixedStyle;
    }
    var items := [(LfStyle, lf), (CrLfStyle, crlf), (CrStyle, cr)];
    var max: int;
    dominant, max := first, -1;
    for k := 0 to 3
      invariant max >= -1 && (k == 0 ==> max == -1)
      invariant forall j :: 0 <= j < k ==> items[j].1 <= max
      invariant k > 0 ==> exists j :: 0 <= j < k && items[j] == (dominant, max)
      invariant forall j :: 0 <= j < k && items[j] == (first, max) ==> dominant == first
    {
      if items[k].1 > max || (items[k].1 == max && items[k].0 == first) {
        dominant, max := items[k].0, items[k].1;
      }
    }
    assert items[0].1 == lf && items[1].1 == crlf && items[2].1 == cr;
  }

  /** The first style and the counts kept by the inspection loop. */
  datatype Tally = Tally(first: Style, lf: nat, crlf: nat, cr: nat)

  /** The tally after one more break. */
  function AddBreak(t: Tally, b: Ending): Tally
    requires b != NoEnding
  {
    Tally(if t.first == NoStyle then StyleOf(b) else t.first, if b == Lf then t.lf + 1 else t.lf,
          if b == CrLf then t.crlf + 1 else t.crlf, if b == Cr then t.cr + 1 else t.cr)
  }

  /** The tally after the character, or the two-character break, at position i. */
  function Tallied(t: Tally, s: string, i: nat): Tally
    requires i < |s|
  {
    if IsBreak(s[i]) then AddBreak(t, BreakAt(s, i)) else t
  }

  function NextAt(s: string, i: nat): nat
    requires i < |s|
  {
    if IsBreak(s[i]) then i + BreakAt(s, i).Size() else i + 1
  }

  /** The counts so far, and those of the lines to come, are those of all lines. */
  predicate Counted(all: seq<Line>, rest: seq<Line>, t: Tally) {
    && FirstStyle(all) == (if t.first == NoStyle then FirstStyle(rest) else t.first)
    && Count(all, Lf) == t.lf + Count(rest, Lf)
    && Count(all, CrLf) == t.crlf + Count(rest, CrLf)
    && Count(all, Cr) == t.cr + Count(rest, Cr)
  }

  lemma CountedStep(all: seq<Line>, s: string, i: nat, t: Tally)
    requires i < |s| && Counted(all, LinesFrom(s, i), t)
    ensures NextAt(s, i) <= |s| && Counted(all, LinesFrom(s, NextAt(s, i)), Tallied(t, s, i))
  {
    if IsBreak(s[i]) {
      BreakStep(s, i, Lf);
      BreakStep(s, i, CrLf);
      BreakStep(s, i, Cr);
    } else {
      CharStep(s, i, Lf);
      CharStep(s, i, CrLf);
      CharStep(s, i, Cr);
    }
  }

  /** One round of the loop: one character, or a carriage return with the line feed after it. */
  method CountOne(text: string, i: nat, before: Tally) returns (t: Tally, next: nat)
    requires i < |text|
    ensures t == Tallied(before, text, i) && next == NextAt(text, i)
  {
    t := before;
    if text[i] == '\r' {
      if i + 1 < |text| && text[i + 1] == '\n' {
        t := t.(crlf := t.crlf + 1);
        if t.first == NoStyle {
          t := t.(first := CrLfStyle);
        }
        next := i + 2;
      } else {
        t := t.(cr := t.cr + 1);
        if t.first == NoStyle {
          t := t.(first := CrStyle);
        }
        next := i + 1;
      }
    } else if text[i] == '\n' {
      t := t.(lf := t.lf + 1);
      if t.first == NoStyle {
        t := t.(first := LfStyle);
      }
      next := i + 1;
    } else {
      next := i + 1;
    }
  }

  method CountBreaks(text: string) returns (first: Style, lf: nat, crlf: nat, cr: nat)
    ensures first == FirstStyle(Lines(text))
    ensures lf == Count(Lines(text), Lf) && crlf == Count(Lines(text), CrLf) && cr == Count(Lines(text), Cr)
  {
    LinesFromStart(text);
    ghost var all := Lines(text);
    var t := Tally(NoStyle, 0, 0, 0);
    var i := 0;
    while i < |text|
      invariant 0 <= i <= |text| && Counted(all, LinesFrom(text, i), t)
    {
      CountedStep(all, text, i, t);
      t, i := CountOne(text, i, t);
    }
    return t.first, t.lf, t.crlf, t.cr;
  }

  // ----- normalising -------------------------------------------------------------------------

  function Separator(style: Style): (e: Ending)
    ensures e != NoEnding
  {
    match style
    case CrLfStyle => CrLf
    case CrStyle => Cr
    case _ => Lf
  }

  /** The same lines, every break replaced by one kind. */
  function Restyle(lines: seq<Line>, e: Ending): seq<Line> {
    if lines == [] then []
    else [Line(lines[0].text, if lines[0].ending == NoEnding then NoEnding else e)] + Restyle(lines[1..], e)
  }

  function Normalized(text: string, style: Style): string {
    if style == NoStyle then text else Join(Restyle(Lines(text), Separator(style)))
  }

  lemma {:induction false} RestyleCanonical(lines: seq<Line>, e: Ending)
    requires Canonical(lines) && e != NoEnding
    ensures Canonical(Restyle(lines, e))
  {
    if lines != [] {
      RestyleCanonical(lines[1..], e);
      assert Restyle(lines, e)[1..] == Restyle(lines[1..], e);
    }
  }

  lemma {:induction false} RestyleAt(lines: seq<Line>, e: Ending)
    ensures |Restyle(lines, e)| == |lines|
    ensures forall k :: 0 <= k < |lines| ==>
              Restyle(lines, e)[k] == Line(lines[k].text, if lines[k].ending == NoEnding then NoEnding else e)
  {
    if lines != [] {
      RestyleAt(lines[1..], e);
    }
  }

  lemma {:induction false} RestyleTwice(lines: seq<Line>, e: Ending, f: Ending)
    requires e != NoEnding
    ensures Restyle(Restyle(lines, e), f) == Restyle(lines, f)
  {
    if lines != [] {
      RestyleTwice(lines[1..], e, f);
      assert Restyle(lines, e)[1..] == Restyle(lines[1..], e);
    }
  }

  lemma {:induction false} RestyleCounts(lines: seq<Line>, e: Ending, ending: Ending)
    requires e != NoEnding && ending != NoEnding
    ensures Count(Restyle(lines, e), ending)
              == if ending == e then Count(lines, Lf) + Count(lines, CrLf) + Count(lines, Cr) else 0
  {
    if lines != [] {
      RestyleCounts(lines[1..], e, ending);
      assert Restyle(lines, e)[1..] == Restyle(lines[1..], e);
    }
  }

  /** Normalising to one style keeps the number of lines and every line's content, and every
      break becomes the chosen one. */
  lemma NormalizedLines(text: string, style: Style, k: nat)
    requires style != NoStyle && k < |Lines(text)|
    ensures var before, after := Lines(text), Lines(Normalized(text, style));
            && |after| == |before|
            && after[k].text == before[k].text
            && after[k].ending == if before[k].ending == NoEnding then NoEnding else Separator(style)
  {
    SplitsBack(text, style);
    RestyleAt(Lines(text), Separator(style));
  }

  lemma SplitsBack(text: string, style: Style)
    requires style != NoStyle
    ensures Lines(Normalized(text, style)) == Restyle(Lines(text), Separator(style))
  {
    LinesCanonical(text);
    RestyleCanonical(Lines(text), Separator(style));
    LinesUnique(Restyle(Lines(text), Separator(style)));
  }

  /** Normalising a second time, to any style, is as if the first had not happened. */
  lemma NormalizeTwice(text: string, first: Style, second: Style)
    requires second != NoStyle
    ensures Normalized(Normalized(text, first), second) == Normalized(text, second)
  {
    if first != NoStyle {
      SplitsBack(text, first);
      RestyleTwice(Lines(text), Separator(first), Separator(second));
    }
  }

  /** After normalising, only the chosen break is counted, as often as all three before. */
  lemma NormalizedCounts(text: string, style: Style, ending: Ending)
    requires style != NoStyle && ending != NoEnding
    ensures var before, after := Lines(text), Lines(Normalized(text, style));
            Count(after, ending)
              == if ending == Separator(style) then Count(before, Lf) + Count(before, CrLf) + Count(before, Cr) else 0
  {
    SplitsBack(text, style);
    RestyleCounts(Lines(text), Separator(style), ending);
  }

  /** Normalising to one of the three breaks makes it the first and only kind of the text's breaks. */
  lemma NormalizedStyle(text: string, style: Style)
    requires style in {LfStyle, CrLfStyle, CrStyle}
    requires exists k :: 0 <= k < |Lines(text)| && Lines(text)[k].ending != NoEnding
    ensures var after := Lines(Normalized(text, style));
            && FirstStyle(after) == style
            && forall k :: 0 <= k < |after| ==> StyleOf(after[k].ending) in {style, NoStyle}
  {
    var lines := Lines(text);
    LinesCanonical(text);
    FirstEnds(lines);
    SplitsBack(text, style);
    RestyleAt(lines, Separator(style));
  }

  /** Only a last line lacks a break. */
  lemma FirstEnds(lines: seq<Line>)
    requires Canonical(lines) && exists k :: 0 <= k < |lines| && lines[k].ending != NoEnding
    ensures lines[0].ending != NoEnding
  {
    if lines[0].ending == NoEnding {
      AloneUnended(lines);
    }
  }

  lemma AloneUnended(lines: seq<Line>)
    requires Canonical(lines) && lines != [] && lines[0].ending == NoEnding
    ensures |lines| == 1
  {
  }

  // ----- the counts, character by character ----------------------------------------------------

  /** A line feed that no carriage return precedes, a carriage return that no line feed follows, or the two
      together. */
  predicate BreaksAt(s: string, i: nat, ending: Ending)
    requires i < |s|
  {
    match ending
    case Lf => s[i] == '\n' && (i == 0 || s[i - 1] != '\r')
    case CrLf => s[i] == '\r' && i + 1 < |s| && s[i + 1] == '\n'
    case Cr => s[i] == '\r' && (i + 1 == |s| || s[i + 1] != '\n')
    case NoEnding => false
  }

  function BreakPlaces(s: string, from: nat, ending: Ending): set<nat> {
    set i: nat | from <= i < |s| && BreaksAt(s, i, ending)
  }

  /** Position i is not inside a two-character break. */
  predicate Outside(s: string, i: nat) {
    0 < i < |s| ==> !(s[i - 1] == '\r' && s[i] == '\n')
  }

  lemma PlacesBreak(s: string, i: nat, ending: Ending)
    requires i < |s| && Outside(s, i) && IsBreak(s[i]) && ending != NoEnding
    ensures var next := i + BreakAt(s, i).Size();
            && i < next <= |s| && Outside(s, next)
            && BreakPlaces(s, i, ending) == BreakPlaces(s, next, ending) + (if BreakAt(s, i) == ending then {i} else {})
  {
    BreakAtFacts(s, i);
    var next := i + BreakAt(s, i).Size();
    assert BreaksAt(s, i, ending) <==> BreakAt(s, i) == ending;
    if next == i + 2 {
      assert !BreaksAt(s, i + 1, ending);
    }
  }

  lemma PlacesChar(s: string, i: nat, ending: Ending)
    requires i < |s| && !IsBreak(s[i]) && ending != NoEnding
    ensures Outside(s, i + 1) && BreakPlaces(s, i, ending) == BreakPlaces(s, i + 1, ending)
  {
    assert !BreaksAt(s, i, ending);
  }

  lemma {:induction false} PlacesFrom(s: string, i: nat, ending: Ending)
    requires i <= |s| && Outside(s, i) && ending != NoEnding
    ensures Count(LinesFrom(s, i), ending) == |BreakPlaces(s, i, ending)|
    decreases |s| - i
  {
    if i < |s| {
      if IsBreak(s[i]) {
        PlacesBreak(s, i, ending);
        PlacesFrom(s, i + BreakAt(s, i).Size(), ending);
        BreakStep(s, i, ending);
      } else {
        PlacesChar(s, i, ending);
        PlacesFrom(s, i + 1, ending);
        CharStep(s, i, ending);
      }
    } else {
      assert BreakPlaces(s, i, ending) == {};
    }
  }

  /** The reported counts are the numbers of places where each kind of break stands in the text. */
  lemma CountsArePlaces(text: string, ending: Ending)
    requires ending != NoEnding
    ensures Count(Lines(text), ending) == |BreakPlaces(text, 0, ending)|
  {
    LinesFromStart(text);
    PlacesFrom(text, 0, ending);
  }

  /** Character by character, the text from position i on with its breaks replaced. */
  function Rewrite(s: string, i: nat, e: Ending): string
    requires i <= |s|
    decreases |s| - i
  {
    if i == |s| then ""
    else if IsBreak(s[i]) then e.Text() + Rewrite(s, i + BreakAt(s, i).Size(), e)
    else [s[i]] + Rewrite(s, i + 1, e)
  }

  lemma {:induction false} RewriteRestyles(s: string, i: nat, e: Ending)
    requires i <= |s|
    ensures Rewrite(s, i, e) == Join(Restyle(LinesFrom(s, i), e))
    decreases |s| - i
  {
    if i < |s| {
      if IsBreak(s[i]) {
        RewriteRestyles(s, i + BreakAt(s, i).Size(), e);
        RestyleBreak(s, i, e);
        RewriteBreak(s, i, e);
      } else {
        RewriteRestyles(s, i + 1, e);
        RestyleChar(s, i, e);
        RewriteChar(s, i, e);
      }
    }
  }

  lemma RewriteBreak(s: string, i: nat, e: Ending)
    requires i < |s| && IsBreak(s[i])
    ensures Rewrite(s, i, e) == e.Text() + Rewrite(s, i + BreakAt(s, i).Size(), e)
  {
  }

  lemma RewriteChar(s: string, i: nat, e: Ending)
    requires i < |s| && !IsBreak(s[i])
    ensures Rewrite(s, i, e) == [s[i]] + Rewrite(s, i + 1, e)
  {
  }

  lemma RestyleBreak(s: string, i: nat, e: Ending)
    requires i < |s| && IsBreak(s[i])
    ensures Join(Restyle(LinesFrom(s, i), e))
              == e.Text() + Join(Restyle(LinesFrom(s, i + BreakAt(s, i).Size()), e))
  {
    LineFromIs(s, i, i);
    var lines := LinesFrom(s, i);
    assert lines[0] == Line("", BreakAt(s, i));
    assert lines[1..] == LinesFrom(s, i + BreakAt(s, i).Size());
    RestyleJoin(lines, e);
  }

  lemma RestyleJoin(lines: seq<Line>, e: Ending)
    requires lines != []
    ensures Join(Restyle(lines, e))
              == lines[0].text + (if lines[0].ending == NoEnding then "" else e.Text()) + Join(Restyle(lines[1..], e))
  {
    assert Restyle(lines, e)[1..] == Restyle(lines[1..], e);
  }

  lemma CharLine(s: string, i: nat)
    requires i + 1 < |s| && !IsBreak(s[i])
    ensures var lines, rest := LinesFrom(s, i), LinesFrom(s, i + 1);
            lines[0] == Line([s[i]] + rest[0].text, rest[0].ending) && lines[1..] == rest[1..]
  {
    var l, m := LineFrom(s, i), LineFrom(s, i + 1);
    assert l.ending == m.ending && l.text == [s[i]] + m.text;
  }

  lemma RestyleGrow(c: char, lines: seq<Line>, rest: seq<Line>, e: Ending)
    requires lines != [] && rest != []
    requires lines[0] == Line([c] + rest[0].text, rest[0].ending) && lines[1..] == rest[1..]
    ensures Join(Restyle(lines, e)) == [c] + Join(Restyle(rest, e))
  {
    RestyleJoin(lines, e);
    RestyleJoin(rest, e);
  }

  lemma RestyleLast(c: char, e: Ending)
    ensures Join(Restyle([Line([c], NoEnding)], e)) == [c] + Join(Restyle([], e))
  {
    RestyleJoin([Line([c], NoEnding)], e);
  }

  lemma RestyleChar(s: string, i: nat, e: Ending)
    requires i < |s| && !IsBreak(s[i])
    ensures Join(Restyle(LinesFrom(s, i), e)) == [s[i]] + Join(Restyle(LinesFrom(s, i + 1), e))
  {
    if i + 1 < |s| {
      CharLine(s, i);
      RestyleGrow(s[i], LinesFrom(s, i), LinesFrom(s, i + 1), e);
    } else {
      LastLineFrom(s, i);
      assert s[i..] == [s[i]];
      RestyleLast(s[i], e);
    }
  }

  /** The sizing pass: the exact length of the result, or nothing once it exceeds the limit. */
  method Measure(text: string, e: Ending, limit: int) returns (ok: bool, length: nat)
    ensures ok <==> text == "" || |Rewrite(text, 0, e)| <= limit
    ensures ok ==> length == |Rewrite(text, 0, e)|
  {
    length := 0;
    var i := 0;
    while i < |text|
      invariant 0 <= i <= |text| && (i > 0 ==> length <= limit)
      invariant length + |Rewrite(text, i, e)| == |Rewrite(text, 0, e)|
    {
      if IsBreak(text[i]) {
        i := i + BreakAt(text, i).Size();
        length := length + e.Size();
      } else {
        i := i + 1;
        length := length + 1;
      }
      if length > limit {
        return false, length;
      }
    }
    ok := true;
  }

  method BuildText(text: string, e: Ending) returns (built: string)
    ensures built == Rewrite(text, 0, e)
  {
    built := "";
    var i := 0;
    while i < |text|
      invariant 0 <= i <= |text|
      invariant built + Rewrite(text, i, e) == Rewrite(text, 0, e)
    {
      var next, piece := i + 1, [text[i]];
      if IsBreak(text[i]) {
        next, piece := i + BreakAt(text, i).Size(), e.Text();
      }
      Associate(built, piece, Rewrite(text, next, e));
      built := built + piece;
      i := next;
    }
  }

  datatype Outcome = Text(text: string) | TooLarge

  /** Sizing and building agree: the normalised text is returned exactly when it fits the limit
      (the empty text always does), and nothing else is ever returned. */
  method NormalizeNewlines(text: string, style: Style, limit: int) returns (r: Outcome)
    ensures r == if (text == "" && style != NoStyle) || |Normalized(text, style)| <= limit
                 then Text(Normalized(text, style)) else TooLarge
  {
    if style == NoStyle {
      if |text| > limit {
        return TooLarge;
      }
      return Text(text);
    }
    var e := Separator(style);
    LinesFromStart(text);
    RewriteRestyles(text, 0, e);
    var ok, length := Measure(text, e, limit);
    if !ok {
      return TooLarge;
    }
    var built := BuildText(text, e);
    r := Text(built);
  }
}
