/** Splitting text into lines: the specification shared by the diff engine, the
    indentation adapter and the newline normaliser.  A text is a string in which
    each character stands for one byte. */
module TextLines {

  /** How a line ends; only the last line of a text may end with no break. */
  datatype Ending = NoEnding | Lf | CrLf | Cr {
    function Text(): (s: string)
      ensures |s| == Size()
    {
      match this
      case NoEnding => ""
      case Lf => "\n"
      case CrLf => "\r\n"
      case Cr => "\r"
    }

    function Size(): nat {
      match this
      case NoEnding => 0
      case CrLf => 2
      case _ => 1
    }
  }

  datatype Line = Line(text: string, ending: Ending)

  predicate IsBreak(c: char) {
    c == '\r' || c == '\n'
  }

  predicate NoBreak(s: string) {
    forall i :: 0 <= i < |s| ==> !IsBreak(s[i])
  }

  /** The line break that starts at s[i]. */
  function BreakAt(s: string, i: nat): (b: Ending)
    requires i < |s| && IsBreak(s[i])
    ensures b != NoEnding && i + b.Size() <= |s|
  {
    if s[i] == '\n' then Lf
    else if i + 1 < |s| && s[i + 1] == '\n' then CrLf
    else Cr
  }

  lemma BreakAtFacts(s: string, i: nat)
    requires i < |s| && IsBreak(s[i])
    ensures var b := BreakAt(s, i);
            && s[i..i + b.Size()] == b.Text()
            && (b == Cr && i + 1 < |s| ==> s[i + 1] != '\n')
  {
  }

  /** The first position from i on that holds a break, or the end of s. */
  function LineEnd(s: string, i: nat): (e: nat)
    requires i <= |s|
    ensures i <= e <= |s| && (e < |s| ==> IsBreak(s[e]))
    decreases |s| - i
  {
    if i == |s| || IsBreak(s[i]) then i else LineEnd(s, i + 1)
  }

  lemma {:induction false} LineEndFacts(s: string, i: nat)
    requires i <= |s|
    ensures forall k :: i <= k < LineEnd(s, i) ==> !IsBreak(s[k])
    decreases |s| - i
  {
    if i < |s| && !IsBreak(s[i]) {
      LineEndFacts(s, i + 1);
    }
  }

  /** The first line of s. */
  function FirstLine(s: string): (l: Line)
    requires s != ""
    ensures 0 < LineLength(l) <= |s|
  {
    var e := LineEnd(s, 0);
    if e == |s| then Line(s, NoEnding) else Line(s[..e], BreakAt(s, e))
  }

  lemma FirstLineFacts(s: string)
    requires s != ""
    ensures var l := FirstLine(s);
            && NoBreak(l.text)
            && s == l.text + l.ending.Text() + s[LineLength(l)..]
            && (l.ending == NoEnding ==> LineLength(l) == |s|)
            && (l.ending == Cr && LineLength(l) < |s| ==> s[LineLength(l)] != '\n')
  {
    var e := LineEnd(s, 0);
    LineEndFacts(s, 0);
    if e < |s| {
      BreakAtFacts(s, e);
    }
  }

  function LineLength(l: Line): nat {
    |l.text| + l.ending.Size()
  }

  /** The lines of s, each with the break that ends it. */
  function Lines(s: string): seq<Line> {
    if s == "" then [] else [FirstLine(s)] + Lines(s[LineLength(FirstLine(s))..])
  }

  function Join(lines: seq<Line>): string {
    if lines == [] then "" else lines[0].text + lines[0].ending.Text() + Join(lines[1..])
  }

  /** The line lists that splitting can produce: a line break is never cut in two,
      and only a last, non-empty line may lack one. */
  predicate Canonical(lines: seq<Line>) {
    lines != [] ==>
      && NoBreak(lines[0].text)
      && (lines[0].ending == NoEnding ==> |lines| == 1 && lines[0].text != "")
      && (lines[0].ending == Cr && |lines| > 1 ==> lines[1] != Line("", Lf))
      && Canonical(lines[1..])
  }

  lemma {:induction false} LineEndIs(s: string, i: nat, e: nat)
    requires i <= e <= |s| && (e < |s| ==> IsBreak(s[e]))
    requires forall k :: i <= k < e ==> !IsBreak(s[k])
    ensures LineEnd(s, i) == e
    decreases e - i
  {
    if i < e {
      LineEndIs(s, i + 1, e);
    }
  }

  /** Splitting loses nothing. */
  lemma {:induction false} LinesJoin(s: string)
    ensures Join(Lines(s)) == s
  {
    if s != "" {
      FirstLineFacts(s);
      LinesJoin(s[LineLength(FirstLine(s))..]);
      assert Lines(s)[1..] == Lines(s[LineLength(FirstLine(s))..]);
    }
  }

  /** What splitting produces is canonical. */
  lemma {:induction false} LinesCanonical(s: string)
    ensures Canonical(Lines(s))
  {
    if s != "" {
      FirstLineFacts(s);
      var rest := s[LineLength(FirstLine(s))..];
      LinesCanonical(rest);
      assert Lines(s)[1..] == Lines(rest);
    }
  }

  lemma JoinHead(lines: seq<Line>)
    requires Canonical(lines) && lines != []
    ensures Join(lines) != ""
    ensures Join(lines)[0] == '\n' ==> lines[0] == Line("", Lf)
  {
    var l := lines[0];
    if l.text != "" {
      assert Join(lines)[0] == l.text[0];
    } else {
      assert l.ending != NoEnding;
      assert Join(lines)[0] == l.ending.Text()[0];
    }
  }

  /** The first line of a text that starts with a whole line. */
  lemma FirstLineIs(l: Line, rest: string)
    requires NoBreak(l.text)
    requires l.ending == NoEnding ==> rest == "" && l.text != ""
    requires l.ending == Cr && rest != "" ==> rest[0] != '\n'
    ensures var s := l.text + l.ending.Text() + rest;
            s != "" && FirstLine(s) == l && s[LineLength(l)..] == rest
  {
    var s := l.text + l.ending.Text() + rest;
    var e := |l.text|;
    assert forall k :: 0 <= k < e ==> s[k] == l.text[k];
    if l.ending != NoEnding {
      assert s[e] == l.ending.Text()[0];
      LineEndIs(s, 0, e);
      assert s[..e] == l.text;
      if e + 1 < |s| {
        assert s[e + 1] == if l.ending == CrLf then l.ending.Text()[1] else rest[0];
      }
    } else {
      assert s == l.text;
      LineEndIs(s, 0, e);
    }
  }

  /** A canonical line list is recovered exactly from its text, so the split is the only one. */
  lemma {:induction false} LinesUnique(lines: seq<Line>)
    requires Canonical(lines)
    ensures Lines(Join(lines)) == lines
  {
    if lines != [] {
      LinesUnique(lines[1..]);
      if lines[1..] != [] {
        JoinHead(lines[1..]);
      }
      FirstLineIs(lines[0], Join(lines[1..]));
    }
  }

  /** The line of s that starts at position i, which is cut at the first break after it. */
  function LineFrom(s: string, i: nat): (l: Line)
    requires i < |s|
    ensures 0 < LineLength(l) <= |s| - i
  {
    var e := LineEnd(s, i);
    Line(s[i..e], if e == |s| then NoEnding else BreakAt(s, e))
  }

  /** The lines of s from position i on, without slicing the text. */
  function LinesFrom(s: string, i: nat): seq<Line>
    requires i <= |s|
    decreases |s| - i
  {
    if i == |s| then [] else [LineFrom(s, i)] + LinesFrom(s, i + LineLength(LineFrom(s, i)))
  }

  lemma LineFromIs(s: string, i: nat, e: nat)
    requires i <= e <= |s| && i < |s| && (e < |s| ==> IsBreak(s[e]))
    requires forall k :: i <= k < e ==> !IsBreak(s[k])
    ensures LineFrom(s, i) == Line(s[i..e], if e == |s| then NoEnding else BreakAt(s, e))
  {
    LineEndIs(s, i, e);
  }

  lemma LineFromSlice(s: string, i: nat)
    requires i < |s|
    ensures var l := LineFrom(s, i);
            FirstLine(s[i..]) == l && s[i..][LineLength(l)..] == s[i + LineLength(l)..]
  {
    var l := LineFrom(s, i);
    var e := LineEnd(s, i);
    LineEndFacts(s, i);
    if e < |s| {
      BreakAtFacts(s, e);
    }
    var rest := s[i + LineLength(l)..];
    assert s[i..] == l.text + l.ending.Text() + rest;
    FirstLineIs(l, rest);
  }

  lemma LinesUnfold(s: string)
    requires s != ""
    ensures Lines(s) == [FirstLine(s)] + Lines(s[LineLength(FirstLine(s))..])
  {
  }

  lemma {:induction false} LinesFromSlice(s: string, i: nat)
    requires i <= |s|
    ensures LinesFrom(s, i) == Lines(s[i..])
    decreases |s| - i
  {
    if i < |s| {
      LineFromSlice(s, i);
      LinesFromSlice(s, i + LineLength(LineFrom(s, i)));
      LinesUnfold(s[i..]);
    }
  }

  lemma LinesFromStart(s: string)
    ensures LinesFrom(s, 0) == Lines(s)
  {
    LinesFromSlice(s, 0);
    assert s[0..] == s;
  }

  lemma LastLineFrom(s: string, i: nat)
    requires i < |s| && forall k :: i <= k < |s| ==> !IsBreak(s[k])
    ensures LinesFrom(s, i) == [Line(s[i..], NoEnding)]
  {
    LineEndIs(s, i, |s|);
    var l := LineFrom(s, i);
    assert s[i..|s|] == s[i..];
    assert l == Line(s[i..], NoEnding);
    assert i + LineLength(l) == |s|;
  }

  lemma {:induction false} JoinAppend(a: seq<Line>, b: seq<Line>)
    ensures Join(a + b) == Join(a) + Join(b)
  {
    if a == [] {
      assert a + b == b;
    } else {
      assert (a + b)[1..] == a[1..] + b;
      JoinAppend(a[1..], b);
    }
  }
}
