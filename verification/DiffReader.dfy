/** Reading a printed unified diff back, as a patch program does: the printed text determines the names,
    every header number, and the kind and content of every line; only the breaks CR and CRLF are printed
    alike (internal/textfile/diff.go; "Diff -u or -U Output Format", diff utility, POSIX.1-2017 XCU). */
module DiffReader {
  import opened Basics
  import opened TextLines
  import opened DiffScripts
  import opened DiffHunks
  import opened DiffPatch
  import opened DiffEngine
  import opened UnifiedDiff

  // ----- printed lines -------------------------------------------------------------------------

  predicate OneLine(s: string) {
    '\n' !in s
  }

  predicate AllOneLine(lines: seq<string>) {
    forall i :: 0 <= i < |lines| ==> OneLine(lines[i])
  }

  function Unlines(lines: seq<string>): string {
    if lines == [] then "" else lines[0] + "\n" + Unlines(lines[1..])
  }

  lemma {:induction false} UnlinesAppend(a: seq<string>, b: seq<string>)
    ensures Unlines(a + b) == Unlines(a) + Unlines(b)
    decreases |a|
  {
    if a == [] {
      assert a + b == b;
    } else {
      assert (a + b)[1..] == a[1..] + b;
      UnlinesAppend(a[1..], b);
    }
  }

  /** The position of the first line feed, or the end. */
  function FeedAt(s: string): (i: nat)
    ensures i <= |s| && (i < |s| ==> s[i] == '\n') && forall k :: 0 <= k < i ==> s[k] != '\n'
  {
    if s == "" || s[0] == '\n' then 0 else 1 + FeedAt(s[1..])
  }

  /** The printed lines of a text. */
  function ReadLines(s: string): seq<string>
    decreases |s|
  {
    if s == "" then []
    else if FeedAt(s) == |s| then [s]
    else [s[..FeedAt(s)]] + ReadLines(s[FeedAt(s) + 1..])
  }

  lemma {:induction false} ReadUnlines(lines: seq<string>)
    requires AllOneLine(lines)
    ensures ReadLines(Unlines(lines)) == lines
  {
    if lines != [] {
      ReadUnlines(lines[1..]);
      FeedAfter(lines[0], Unlines(lines[1..]));
      OneLineRead(lines[0], Unlines(lines[1..]));
      assert lines == [lines[0]] + lines[1..];
    }
  }

  lemma OneLineRead(line: string, rest: string)
    requires FeedAt(line + "\n" + rest) == |line|
    ensures ReadLines(line + "\n" + rest) == [line] + ReadLines(rest)
  {
    var s := line + "\n" + rest;
    assert s[..|line|] == line && s[|line| + 1..] == rest;
  }

  lemma FeedIs(s: string, i: nat)
    requires i <= |s| && (i < |s| ==> s[i] == '\n') && forall k :: 0 <= k < i ==> s[k] != '\n'
    ensures FeedAt(s) == i
  {
  }

  lemma FeedAfter(line: string, rest: string)
    requires OneLine(line)
    ensures FeedAt(line + "\n" + rest) == |line|
  {
    var s := line + "\n" + rest;
    forall k | 0 <= k < |line|
      ensures s[k] != '\n'
    {
      assert s[k] == line[k] && line[k] in line;
    }
    FeedIs(s, |line|);
  }

  // ----- numbers ---------------------------------------------------------------------------------

  predicate Digit(c: char) {
    '0' <= c <= '9'
  }

  function DigitValue(c: char): nat
    requires Digit(c)
  {
    c as int - '0' as int
  }

  function Value(digits: string): nat
    requires forall i :: 0 <= i < |digits| ==> Digit(digits[i])
  {
    if digits == "" then 0
    else
      var last := digits[|digits| - 1];
      Value(digits[..|digits| - 1]) * 10 + DigitValue(last)
  }

  /** How many digits s begins with. */
  function DigitCount(s: string): (n: nat)
    ensures n <= |s| && (forall i :: 0 <= i < n ==> Digit(s[i])) && (n < |s| ==> !Digit(s[n]))
  {
    if s == "" || !Digit(s[0]) then 0 else 1 + DigitCount(s[1..])
  }

  lemma {:induction false} DecimalReads(n: nat)
    ensures var d := Decimal(n);
            d != "" && (forall i :: 0 <= i < |d| ==> Digit(d[i])) && Value(d) == n
  {
    var d := Decimal(n);
    if n >= 10 {
      DecimalReads(n / 10);
      assert d[..|d| - 1] == Decimal(n / 10);
    } else {
      assert d[..|d| - 1] == "";
    }
  }

  /** A number, and a count after a comma; without a comma the count is one. */
  function ReadRange(s: string): Option<(nat, nat, string)> {
    var n := DigitCount(s);
    if n == 0 then None
    else
      var rest := s[n..];
      if rest != "" && rest[0] == ',' then
        var m := DigitCount(rest[1..]);
        if m == 0 then None else Some((Value(s[..n]), Value(rest[1..][..m]), rest[1..][m..]))
      else Some((Value(s[..n]), 1, rest))
  }

  lemma DigitCountIs(s: string, n: nat)
    requires n <= |s| && (forall i :: 0 <= i < n ==> Digit(s[i])) && (n < |s| ==> !Digit(s[n]))
    ensures DigitCount(s) == n
  {
  }

  lemma DigitsEnd(d: string, rest: string)
    requires (forall i :: 0 <= i < |d| ==> Digit(d[i])) && (rest != "" ==> !Digit(rest[0]))
    ensures DigitCount(d + rest) == |d| && (d + rest)[..|d|] == d && (d + rest)[|d|..] == rest
  {
    DigitCountIs(d + rest, |d|);
  }

  /** Some digits, and what follows them. */
  lemma NumberReads(n: nat, rest: string)
    requires rest != "" ==> !Digit(rest[0])
    ensures var s, d := Decimal(n) + rest, Decimal(n);
            && DigitCount(s) == |d| > 0 && s[..|d|] == d && s[|d|..] == rest
            && (forall i :: 0 <= i < |d| ==> Digit(d[i])) && Value(d) == n
  {
    DecimalReads(n);
    DigitsEnd(Decimal(n), rest);
  }

  lemma RangeReads(start: nat, count: nat, rest: string)
    requires rest != "" && !Digit(rest[0]) && rest[0] != ','
    ensures ReadRange(RenderRange(start, count) + rest) == Some((start, count, rest))
  {
    if count == 1 {
      NumberReads(start, rest);
    } else {
      PairReads(start, count, rest);
    }
  }

  lemma PairReads(start: nat, count: nat, rest: string)
    requires rest != "" && !Digit(rest[0]) && count != 1
    ensures ReadRange(RenderRange(start, count) + rest) == Some((start, count, rest))
  {
    NumberReads(count, rest);
    NumberReads(start, "," + (Decimal(count) + rest));
    CommaReads(Decimal(start), Decimal(count) + rest, |Decimal(count)|);
    Pieces(Decimal(start), Decimal(count), rest);
  }

  lemma Pieces(a: string, b: string, rest: string)
    ensures (a + "," + b) + rest == a + ("," + (b + rest))
  {
  }

  lemma CommaReads(a: string, tail: string, m: nat)
    requires a != "" && (forall i :: 0 <= i < |a| ==> Digit(a[i])) && DigitCount(tail) == m > 0
    requires DigitCount(a + ("," + tail)) == |a|
    requires (a + ("," + tail))[..|a|] == a && (a + ("," + tail))[|a|..] == "," + tail
    ensures ReadRange(a + ("," + tail)) == Some((Value(a), Value(tail[..m]), tail[m..]))
  {
    var rest := "," + tail;
    HeadTailOf(',', tail);
    assert rest[1..] == tail;
  }

  lemma HeadTailOf(c: char, tail: string)
    ensures ([c] + tail)[0] == c && ([c] + tail)[1..] == tail
  {
  }

  datatype Header = Header(oldStart: nat, oldCount: nat, newStart: nat, newCount: nat)

  function ReadHeader(s: string): Option<Header> {
    if !("@@ -" <= s) then None
    else
      match ReadRange(s[4..])
      case None => None
      case Some(first) =>
        if !(" +" <= first.2) then None
        else
          match ReadRange(first.2[2..])
          case None => None
          case Some(second) =>
            if second.2 == " @@" then Some(Header(first.0, first.1, second.0, second.1)) else None
  }

  function HeaderLine(h: Hunk): string {
    "@@ -" + RenderRange(h.oldStart, h.oldCount) + " +" + RenderRange(h.newStart, h.newCount) + " @@"
  }

  lemma HeaderParts(h: Hunk)
    ensures var second := RenderRange(h.newStart, h.newCount) + " @@";
            var first := RenderRange(h.oldStart, h.oldCount) + (" +" + second);
            "@@ -" <= HeaderLine(h) && HeaderLine(h)[4..] == first && (" +" + second)[2..] == second
  {
    var second := RenderRange(h.newStart, h.newCount) + " @@";
    var first := RenderRange(h.oldStart, h.oldCount) + (" +" + second);
    assert HeaderLine(h) == "@@ -" + first;
  }

  lemma HeaderReads(h: Hunk)
    ensures ReadHeader(HeaderLine(h)) == Some(Header(h.oldStart, h.oldCount, h.newStart, h.newCount))
  {
    var second := RenderRange(h.newStart, h.newCount) + " @@";
    HeaderParts(h);
    RangeReads(h.newStart, h.newCount, " @@");
    RangeReads(h.oldStart, h.oldCount, " +" + second);
  }

  // ----- lines of hunks ----------------------------------------------------------------------------

  const MARKER := "\\ No newline at end of file"

  /** CR and CRLF are printed alike. */
  function Fade(l: Line): Line {
    if l.ending == Cr then l.(ending := CrLf) else l
  }

  function FadeOp(op: Op): Op {
    op.(line := Fade(op.line))
  }

  function PrintedOp(op: Op): seq<string> {
    [[Mark(op.kind)] + op.line.text + (if op.line.ending == CrLf || op.line.ending == Cr then "\r" else "")]
    + (if op.line.ending == NoEnding then [MARKER] else [])
  }

  function PrintedOps(ops: seq<Op>): seq<string> {
    if ops == [] then [] else PrintedOp(ops[0]) + PrintedOps(ops[1..])
  }

  function FadeOps(ops: seq<Op>): seq<Op> {
    if ops == [] then [] else [FadeOp(ops[0])] + FadeOps(ops[1..])
  }

  predicate OpLine(s: string) {
    s != "" && (s[0] == ' ' || s[0] == '-' || s[0] == '+')
  }

  function KindOf(c: char): Kind {
    if c == '-' then Delete else if c == '+' then Insert else Equal
  }

  /** The line a body says, if the marker does not follow. */
  function BodyLine(body: string): Line {
    if body != "" && body[|body| - 1] == '\r' then Line(body[..|body| - 1], CrLf) else Line(body, Lf)
  }

  /** The operations at the front of the printed lines, and the lines after them. */
  function ReadOps(lines: seq<string>): (r: (seq<Op>, seq<string>))
    ensures |r.1| <= |lines|
  {
    if lines == [] || !OpLine(lines[0]) then ([], lines)
    else
      var kind, body := KindOf(lines[0][0]), lines[0][1..];
      if |lines| > 1 && lines[1] == MARKER then
        var (ops, rest) := ReadOps(lines[2..]);
        ([Op(kind, Line(body, NoEnding))] + ops, rest)
      else
        var (ops, rest) := ReadOps(lines[1..]);
        ([Op(kind, BodyLine(body))] + ops, rest)
  }

  /** What may follow the lines of a hunk: the end, or another header. */
  predicate HunkEnd(rest: seq<string>) {
    rest == [] || "@@" <= rest[0]
  }

  predicate PlainOps(ops: seq<Op>) {
    forall i :: 0 <= i < |ops| ==> NoBreak(ops[i].line.text)
  }

  /** What an operation's own line says after its mark. */
  function PrintedBody(l: Line): string {
    l.text + (if l.ending == CrLf || l.ending == Cr then "\r" else "")
  }

  lemma PrintedParts(op: Op, rest: seq<string>)
    ensures var lines := PrintedOp(op) + rest;
            && lines[0] == [Mark(op.kind)] + PrintedBody(op.line) && lines[0][1..] == PrintedBody(op.line)
            && OpLine(lines[0]) && KindOf(lines[0][0]) == op.kind
            && (op.line.ending == NoEnding ==> |lines| > 1 && lines[1] == MARKER && lines[2..] == rest)
            && (op.line.ending != NoEnding ==> lines[1..] == rest)
  {
    var first := [Mark(op.kind)] + op.line.text + (if op.line.ending == CrLf || op.line.ending == Cr then "\r" else "");
    assert first == [Mark(op.kind)] + PrintedBody(op.line);
    assert PrintedOp(op)[0] == first;
  }

  lemma OpReads(op: Op, rest: seq<string>)
    requires NoBreak(op.line.text) && (rest != [] ==> rest[0] != MARKER)
    ensures ReadOps(PrintedOp(op) + rest) == ([FadeOp(op)] + ReadOps(rest).0, ReadOps(rest).1)
  {
    PrintedParts(op, rest);
    if op.line.ending == NoEnding {
      assert PrintedBody(op.line) == op.line.text;
    } else {
      BodyReads(op.line);
    }
  }

  lemma BodyReads(l: Line)
    requires NoBreak(l.text) && l.ending != NoEnding
    ensures BodyLine(PrintedBody(l)) == Fade(l)
  {
    if l.ending == Lf {
      assert l.text + "" == l.text;
    } else {
      assert (l.text + "\r")[..|l.text|] == l.text;
    }
  }

  lemma {:induction false} OpsRead(ops: seq<Op>, rest: seq<string>)
    requires PlainOps(ops) && HunkEnd(rest)
    ensures ReadOps(PrintedOps(ops) + rest) == (FadeOps(ops), rest)
  {
    if ops == [] {
      assert PrintedOps(ops) + rest == rest;
    } else {
      var more := PrintedOps(ops[1..]) + rest;
      assert PrintedOps(ops) + rest == PrintedOp(ops[0]) + more;
      OpsRead(ops[1..], rest);
      NoMarkerFirst(ops[1..], rest);
      OpReads(ops[0], more);
    }
  }

  lemma NoMarkerFirst(ops: seq<Op>, rest: seq<string>)
    requires HunkEnd(rest)
    ensures var lines := PrintedOps(ops) + rest; lines != [] ==> lines[0] != MARKER
  {
    var lines := PrintedOps(ops) + rest;
    assert MARKER[0] == '\\';
    if ops != [] {
      PrintedParts(ops[0], PrintedOps(ops[1..]) + rest);
      assert lines[0] == (PrintedOp(ops[0]) + (PrintedOps(ops[1..]) + rest))[0];
    } else if rest != [] {
      assert lines[0] == rest[0] && rest[0][0] == "@@"[0];
    }
  }

  // ----- whole diffs -----------------------------------------------------------------------------

  function PrintedHunks(hunks: seq<Hunk>): seq<string> {
    if hunks == [] then [] else [HeaderLine(hunks[0])] + PrintedOps(hunks[0].body) + PrintedHunks(hunks[1..])
  }

  function FadeHunk(h: Hunk): Hunk {
    h.(body := FadeOps(h.body))
  }

  function FadeHunks(hunks: seq<Hunk>): seq<Hunk> {
    if hunks == [] then [] else [FadeHunk(hunks[0])] + FadeHunks(hunks[1..])
  }

  function ReadHunks(lines: seq<string>): Option<seq<Hunk>>
    decreases |lines|
  {
    if lines == [] then Some([])
    else
      match ReadHeader(lines[0])
      case None => None
      case Some(h) =>
        var (body, rest) := ReadOps(lines[1..]);
        match ReadHunks(rest)
        case None => None
        case Some(hunks) => Some([Hunk(h.oldStart, h.oldCount, h.newStart, h.newCount, body)] + hunks)
  }

  predicate PlainHunks(hunks: seq<Hunk>) {
    forall i :: 0 <= i < |hunks| ==> PlainOps(hunks[i].body)
  }

  lemma {:induction false} HunksRead(hunks: seq<Hunk>)
    requires PlainHunks(hunks)
    ensures ReadHunks(PrintedHunks(hunks)) == Some(FadeHunks(hunks))
  {
    if hunks != [] {
      var h, more := hunks[0], PrintedHunks(hunks[1..]);
      var lines := PrintedHunks(hunks);
      HunksRead(hunks[1..]);
      HunkLines(hunks);
      HunkReads(h, more, lines, FadeHunks(hunks[1..]));
    }
  }

  lemma HeaderBegins(h: Hunk)
    ensures "@@" <= HeaderLine(h)
  {
    var line := HeaderLine(h);
    assert line[0] == '@' && line[1] == '@';
  }

  lemma HunkLines(hunks: seq<Hunk>)
    requires hunks != []
    ensures var lines := PrintedHunks(hunks);
            && lines != [] && lines[0] == HeaderLine(hunks[0])
            && lines[1..] == PrintedOps(hunks[0].body) + PrintedHunks(hunks[1..])
    ensures HunkEnd(PrintedHunks(hunks[1..]))
  {
    Associate([HeaderLine(hunks[0])], PrintedOps(hunks[0].body), PrintedHunks(hunks[1..]));
    HeadTail(HeaderLine(hunks[0]), PrintedOps(hunks[0].body) + PrintedHunks(hunks[1..]));
    if |hunks| > 1 {
      FirstHeader(hunks[1..]);
    }
  }

  lemma HeadTail(head: string, tail: seq<string>)
    ensures ([head] + tail)[0] == head && ([head] + tail)[1..] == tail
  {
  }

  lemma FirstHeader(hunks: seq<Hunk>)
    requires hunks != []
    ensures PrintedHunks(hunks) != [] && "@@" <= PrintedHunks(hunks)[0]
  {
    Associate([HeaderLine(hunks[0])], PrintedOps(hunks[0].body), PrintedHunks(hunks[1..]));
    HeadTail(HeaderLine(hunks[0]), PrintedOps(hunks[0].body) + PrintedHunks(hunks[1..]));
    HeaderBegins(hunks[0]);
  }

  lemma HunkReads(h: Hunk, more: seq<string>, lines: seq<string>, rest: seq<Hunk>)
    requires PlainOps(h.body) && HunkEnd(more) && ReadHunks(more) == Some(rest)
    requires lines != [] && lines[0] == HeaderLine(h) && lines[1..] == PrintedOps(h.body) + more
    ensures ReadHunks(lines) == Some([FadeHunk(h)] + rest)
  {
    HeaderReads(h);
    OpsRead(h.body, more);
  }

  datatype Printed = Printed(oldName: string, newName: string, hunks: seq<Hunk>)

  /** Reading a whole printed diff. */
  function ReadDiff(s: string): Option<Printed> {
    var lines := ReadLines(s);
    if |lines| < 2 || !("--- " <= lines[0]) || !("+++ " <= lines[1]) then None
    else
      match ReadHunks(lines[2..])
      case None => None
      case Some(hunks) => Some(Printed(lines[0][4..], lines[1][4..], hunks))
  }

  // ----- the printed text is made of these lines -----------------------------------------------------

  lemma OpPrinted(op: Op)
    ensures RenderOp(op) == Unlines(PrintedOp(op))
  {
    var lines := PrintedOp(op);
    if op.line.ending == NoEnding {
      assert lines[1..] == [MARKER] && [MARKER][1..] == [];
      assert Unlines([MARKER]) == MARKER + "\n" + "";
      assert MARKER + "\n" == "\\ No newline at end of file\n";
    } else {
      assert lines[1..] == [];
    }
  }

  lemma {:induction false} OpsSnoc(ops: seq<Op>)
    requires ops != []
    ensures PrintedOps(ops) == PrintedOps(ops[..|ops| - 1]) + PrintedOp(ops[|ops| - 1])
  {
    if |ops| > 1 {
      OpsSnoc(ops[1..]);
      assert ops[1..][..|ops| - 2] == ops[..|ops| - 1][1..];
    } else {
      assert ops[1..] == [];
    }
  }

  lemma {:induction false} OpsPrinted(ops: seq<Op>)
    ensures RenderOps(ops) == Unlines(PrintedOps(ops))
  {
    if ops != [] {
      var n := |ops| - 1;
      OpsPrinted(ops[..n]);
      OpPrinted(ops[n]);
      OpsSnoc(ops);
      UnlinesAppend(PrintedOps(ops[..n]), PrintedOp(ops[n]));
    }
  }

  function PrintedHunk(h: Hunk): seq<string> {
    [HeaderLine(h)] + PrintedOps(h.body)
  }

  lemma HunkPrinted(h: Hunk)
    ensures RenderHeader(h) + RenderOps(h.body) == Unlines(PrintedHunk(h))
  {
    OpsPrinted(h.body);
    assert PrintedHunk(h)[1..] == PrintedOps(h.body);
    HeaderEnds(h);
  }

  lemma HeaderEnds(h: Hunk)
    ensures RenderHeader(h) == HeaderLine(h) + "\n"
  {
    assert " @@\n" == " @@" + "\n";
  }

  lemma {:induction false} HunksSnoc(hunks: seq<Hunk>)
    requires hunks != []
    ensures PrintedHunks(hunks) == PrintedHunks(hunks[..|hunks| - 1]) + PrintedHunk(hunks[|hunks| - 1])
  {
    if |hunks| > 1 {
      HunksSnoc(hunks[1..]);
      assert hunks[1..][..|hunks| - 2] == hunks[..|hunks| - 1][1..];
      Associate(PrintedHunk(hunks[0]), PrintedHunks(hunks[1..][..|hunks| - 2]), PrintedHunk(hunks[|hunks| - 1]));
    } else {
      assert hunks[1..] == [];
    }
  }

  lemma {:induction false} HunksPrinted(hunks: seq<Hunk>)
    ensures RenderHunks(hunks) == Unlines(PrintedHunks(hunks))
  {
    if hunks != [] {
      var n := |hunks| - 1;
      HunksPrinted(hunks[..n]);
      HunkPrinted(hunks[n]);
      HunksSnoc(hunks);
      UnlinesAppend(PrintedHunks(hunks[..n]), PrintedHunk(hunks[n]));
      Associate(RenderHunks(hunks[..n]), RenderHeader(hunks[n]), RenderOps(hunks[n].body));
    }
  }

  lemma OneLineAppend(a: string, b: string)
    requires OneLine(a) && OneLine(b)
    ensures OneLine(a + b)
  {
  }

  lemma RangeOneLine(start: nat, count: nat)
    ensures OneLine(RenderRange(start, count))
  {
    DecimalReads(start);
    DecimalReads(count);
  }

  lemma HeaderOneLine(h: Hunk)
    ensures OneLine(HeaderLine(h))
  {
    RangeOneLine(h.oldStart, h.oldCount);
    RangeOneLine(h.newStart, h.newCount);
  }

  lemma {:induction false} OpsOneLine(ops: seq<Op>)
    requires PlainOps(ops)
    ensures AllOneLine(PrintedOps(ops))
  {
    if ops != [] {
      OpsOneLine(ops[1..]);
      OpOneLine(ops[0]);
    }
  }

  lemma OpOneLine(op: Op)
    requires NoBreak(op.line.text)
    ensures AllOneLine(PrintedOp(op))
  {
  }

  lemma {:induction false} HunksOneLine(hunks: seq<Hunk>)
    requires PlainHunks(hunks)
    ensures AllOneLine(PrintedHunks(hunks))
  {
    if hunks != [] {
      HunksOneLine(hunks[1..]);
      OpsOneLine(hunks[0].body);
      HeaderOneLine(hunks[0]);
    }
  }

  /** The printed diff, read back: the same names, header numbers, kinds and lines. */
  lemma RenderReadsBack(oldName: string, newName: string, hunks: seq<Hunk>)
    requires OneLine(oldName) && OneLine(newName) && PlainHunks(hunks)
    ensures ReadDiff(Render(oldName, newName, hunks)) == Some(Printed(oldName, newName, FadeHunks(hunks)))
  {
    var names := ["--- " + oldName, "+++ " + newName];
    var lines := names + PrintedHunks(hunks);
    HunksPrinted(hunks);
    NamesPrinted(oldName, newName);
    UnlinesAppend(names, PrintedHunks(hunks));
    HunksOneLine(hunks);
    ReadUnlines(lines);
    HunksRead(hunks);
    assert lines[2..] == PrintedHunks(hunks);
    assert ("--- " + oldName)[4..] == oldName && ("+++ " + newName)[4..] == newName;
  }

  lemma NamesPrinted(oldName: string, newName: string)
    ensures RenderNames(oldName, newName) == Unlines(["--- " + oldName, "+++ " + newName])
  {
    var second := ["+++ " + newName];
    assert ["--- " + oldName, "+++ " + newName][1..] == second && second[1..] == [];
    assert Unlines(second) == "+++ " + newName + "\n" + "";
  }

  // ----- patching with the printed diff ----------------------------------------------------------------

  function FadeLines(lines: seq<Line>): seq<Line> {
    seq(|lines|, i requires 0 <= i < |lines| => Fade(lines[i]))
  }

  lemma FadePrepend(head: seq<Line>, tail: seq<Line>)
    ensures FadeLines(head + tail) == FadeLines(head) + FadeLines(tail)
  {
  }

  lemma FadeFew(l: Line)
    ensures FadeLines([l]) == [Fade(l)] && FadeLines([]) == []
  {
  }

  lemma {:induction false} SidesFade(ops: seq<Op>)
    ensures OldSide(FadeOps(ops)) == FadeLines(OldSide(ops)) && NewSide(FadeOps(ops)) == FadeLines(NewSide(ops))
  {
    if ops != [] {
      var op := ops[0];
      SidesFade(ops[1..]);
      SidesHead(FadeOp(op), FadeOps(ops[1..]));
      FadeFew(op.line);
      FadePrepend(if op.kind == Insert then [] else [op.line], OldSide(ops[1..]));
      FadePrepend(if op.kind == Delete then [] else [op.line], NewSide(ops[1..]));
    }
  }

  lemma FadeAppend(a: seq<Line>, b: seq<Line>, c: seq<Line>)
    ensures FadeLines(a + b + c) == FadeLines(a) + FadeLines(b) + FadeLines(c)
  {
  }

  lemma FadeSlice(lines: seq<Line>, i: nat, j: nat)
    requires i <= j <= |lines|
    ensures FadeLines(lines)[i..j] == FadeLines(lines[i..j])
  {
  }

  /** One hunk applied, and the rest after it. */
  lemma PatchMakes(source: seq<Line>, pos: nat, emitted: nat, hunks: seq<Hunk>, rest: seq<Line>)
    requires pos <= |source| && hunks != []
    requires var h := hunks[0];
             var at := Position(h.oldStart, h.oldCount);
             && pos <= at && at + h.oldCount <= |source| && OldSide(h.body) == source[at..at + h.oldCount]
             && Position(h.newStart, h.newCount) == emitted + (at - pos) && |NewSide(h.body)| == h.newCount
             && Patch(source, at + h.oldCount, emitted + (at - pos) + h.newCount, hunks[1..]) == Some(rest)
    ensures var h := hunks[0];
            Patch(source, pos, emitted, hunks)
              == Some(source[pos..Position(h.oldStart, h.oldCount)] + NewSide(h.body) + rest)
  {
  }

  lemma PatchGives(source: seq<Line>, pos: nat, emitted: nat, hunks: seq<Hunk>, rest: seq<Line>)
    requires pos <= |source| && hunks != [] && Patch(source, pos, emitted, hunks).Some?
    requires var h := hunks[0];
             var at := Position(h.oldStart, h.oldCount);
             rest == Patch(source, at + h.oldCount, emitted + (at - pos) + h.newCount, hunks[1..]).value
    ensures var h := hunks[0];
            Patch(source, pos, emitted, hunks).value
              == source[pos..Position(h.oldStart, h.oldCount)] + NewSide(h.body) + rest
  {
  }

  lemma NoMorePatches(source: seq<Line>, pos: nat, emitted: nat)
    requires pos <= |source|
    ensures Patch(FadeLines(source), pos, emitted, FadeHunks([]))
              == Some(FadeLines(Patch(source, pos, emitted, []).value))
  {
    assert FadeLines(source)[pos..] == FadeLines(source[pos..]);
  }

  /** The facts of one hunk that a patch applied. */
  lemma PatchParts(source: seq<Line>, pos: nat, emitted: nat, hunks: seq<Hunk>)
    requires pos <= |source| && hunks != [] && Patch(source, pos, emitted, hunks).Some?
    ensures var h := hunks[0];
            var at := Position(h.oldStart, h.oldCount);
            && pos <= at && at + h.oldCount <= |source| && OldSide(h.body) == source[at..at + h.oldCount]
            && Position(h.newStart, h.newCount) == emitted + (at - pos) && |NewSide(h.body)| == h.newCount
            && Patch(source, at + h.oldCount, emitted + (at - pos) + h.newCount, hunks[1..]).Some?
  {
  }

  lemma PatchFadesOne(source: seq<Line>, pos: nat, emitted: nat, hunks: seq<Hunk>, at: nat, rest: seq<Line>)
    requires pos <= |source| && hunks != [] && Patch(source, pos, emitted, hunks).Some?
    requires at == Position(hunks[0].oldStart, hunks[0].oldCount)
    requires pos <= at && at + hunks[0].oldCount <= |source|
    requires Patch(source, at + hunks[0].oldCount, emitted + (at - pos) + hunks[0].newCount, hunks[1..]) == Some(rest)
    requires Patch(FadeLines(source), at + hunks[0].oldCount, emitted + (at - pos) + hunks[0].newCount,
                   FadeHunks(hunks[1..])) == Some(FadeLines(rest))
    ensures Patch(FadeLines(source), pos, emitted, FadeHunks(hunks))
              == Some(FadeLines(source[pos..at] + NewSide(hunks[0].body) + rest))
  {
    var h, faded := hunks[0], FadeHunks(hunks);
    assert faded[0] == FadeHunk(h) && faded[1..] == FadeHunks(hunks[1..]);
    PatchParts(source, pos, emitted, hunks);
    SidesFade(h.body);
    FadeSlice(source, at, at + h.oldCount);
    FadeSlice(source, pos, at);
    PatchMakes(FadeLines(source), pos, emitted, faded, FadeLines(rest));
    FadeAppend(source[pos..at], NewSide(h.body), rest);
  }

  lemma {:induction false} PatchFades(source: seq<Line>, pos: nat, emitted: nat, hunks: seq<Hunk>)
    requires pos <= |source| && Patch(source, pos, emitted, hunks).Some?
    ensures Patch(FadeLines(source), pos, emitted, FadeHunks(hunks))
              == Some(FadeLines(Patch(source, pos, emitted, hunks).value))
    decreases |hunks|
  {
    if hunks == [] {
      NoMorePatches(source, pos, emitted);
    } else {
      PatchParts(source, pos, emitted, hunks);
      var h := hunks[0];
      var at := Position(h.oldStart, h.oldCount);
      var after := emitted + (at - pos) + h.newCount;
      PatchFades(source, at + h.oldCount, after, hunks[1..]);
      var rest := Patch(source, at + h.oldCount, after, hunks[1..]).value;
      PatchFadesOne(source, pos, emitted, hunks, at, rest);
      PatchGives(source, pos, emitted, hunks, rest);
    }
  }

  lemma {:induction false} SidesPlain(ops: seq<Op>)
    requires (forall l :: l in OldSide(ops) ==> NoBreak(l.text)) && forall l :: l in NewSide(ops) ==> NoBreak(l.text)
    ensures PlainOps(ops)
  {
    if ops != [] {
      var old_, new_ := OldSide(ops[1..]), NewSide(ops[1..]);
      assert forall l :: l in old_ ==> l in OldSide(ops);
      assert forall l :: l in new_ ==> l in NewSide(ops);
      SidesPlain(ops[1..]);
      if ops[0].kind == Insert {
        assert NewSide(ops)[0] == ops[0].line;
      } else {
        assert OldSide(ops)[0] == ops[0].line;
      }
    }
  }

  lemma {:induction false} CanonicalPlain(lines: seq<Line>, i: nat)
    requires Canonical(lines) && i < |lines|
    ensures NoBreak(lines[i].text)
  {
    if i > 0 {
      CanonicalPlain(lines[1..], i - 1);
    }
  }

  lemma LinesPlain(text: string)
    ensures forall l :: l in Lines(text) ==> NoBreak(l.text)
  {
    LinesCanonical(text);
    forall l | l in Lines(text)
      ensures NoBreak(l.text)
    {
      var i :| 0 <= i < |Lines(text)| && Lines(text)[i] == l;
      CanonicalPlain(Lines(text), i);
    }
  }

  /** The text that a diff prints, read back by a patch program, turns the old text's lines into the new
      text's, CR and CRLF being alike. */
  lemma PrintedDiffRebuilds(oldText: string, newText: string, oldName: string, newName: string, context: nat,
                            hunks: seq<Hunk>)
    requires FaithfulHunks(oldText, newText, context, hunks) && OneLine(oldName) && OneLine(newName)
    ensures var printed := ReadDiff(Render(oldName, newName, hunks));
            && printed.Some? && printed.value.oldName == oldName && printed.value.newName == newName
            && Patch(FadeLines(Lines(oldText)), 0, 0, printed.value.hunks) == Some(FadeLines(Lines(newText)))
  {
    var ops, ranges :|
      && IsScript(ops, Lines(oldText), Lines(newText))
      && Minimal(ops, Lines(oldText), Lines(newText))
      && ContextRanges(ops, context, ranges)
      && hunks == HunksFor(ops, ranges);
    LinesPlain(oldText);
    LinesPlain(newText);
    SidesPlain(ops);
    HunksPlain(ops, context, ranges);
    RenderReadsBack(oldName, newName, hunks);
    PatchGivesNew(ops, context, ranges);
    PatchFades(Lines(oldText), 0, 0, hunks);
  }

  lemma HunksPlain(ops: seq<Op>, context: nat, ranges: seq<Range>)
    requires PlainOps(ops) && ContextRanges(ops, context, ranges)
    ensures PlainHunks(HunksFor(ops, ranges))
  {
  }
}
