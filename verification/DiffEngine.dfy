/** The line diff: splitting, the flat table filled backwards, and the walk that
    turns it into an edit script (internal/textfile/diff.go). */
module DiffEngine {
  import opened TextLines
  import opened DiffScripts

  datatype ScriptResult = Script(ops: seq<Op>) | TooComplex

  method SplitDiffLines(text: string) returns (lines: seq<Line>)
    ensures lines == Lines(text)
  {
    lines := [];
    var start, i := 0, 0;
    while i < |text|
      invariant 0 <= start <= i <= |text|
      invariant forall k :: start <= k < i ==> !IsBreak(text[k])
      invariant Cut(text, lines, start)
    {
      if IsBreak(text[i]) {
        CutStep(text, lines, start, i);
        var line, next := CutLine(text, start, i);
        lines := lines + [line];
        start, i := next, next;
      } else {
        i := i + 1;
      }
    }
    CutEnd(text, lines, start);
    if start < |text| {
      lines := lines + [Line(text[start..], NoEnding)];
    }
  }

  /** The lines found so far and those still in the text make up the whole split. */
  ghost predicate Cut(text: string, lines: seq<Line>, start: nat) {
    start <= |text| && lines + LinesFrom(text, start) == LinesFrom(text, 0)
  }

  lemma CutStep(text: string, lines: seq<Line>, start: nat, i: nat)
    requires start <= i < |text| && IsBreak(text[i])
    requires forall k :: start <= k < i ==> !IsBreak(text[k])
    requires Cut(text, lines, start)
    ensures Cut(text, lines + [Line(text[start..i], BreakAt(text, i))], i + BreakAt(text, i).Size())
  {
    LineFromIs(text, start, i);
    var line, next := LineFrom(text, start), i + BreakAt(text, i).Size();
    assert lines + ([line] + LinesFrom(text, next)) == (lines + [line]) + LinesFrom(text, next);
  }

  lemma CutEnd(text: string, lines: seq<Line>, start: nat)
    requires start <= |text| && Cut(text, lines, start)
    requires forall k :: start <= k < |text| ==> !IsBreak(text[k])
    ensures Lines(text) == lines + (if start < |text| then [Line(text[start..], NoEnding)] else [])
  {
    LinesFromStart(text);
    if start < |text| {
      LastLineFrom(text, start);
    }
  }

  /** The two branches that meet a break: a carriage return takes a following line feed along. */
  method CutLine(text: string, start: nat, i: nat) returns (line: Line, next: nat)
    requires start <= i < |text| && IsBreak(text[i])
    ensures line == Line(text[start..i], BreakAt(text, i)) && next == i + BreakAt(text, i).Size()
  {
    if text[i] == '\r' {
      if i + 1 < |text| && text[i + 1] == '\n' {
        return Line(text[start..i], CrLf), i + 2;
      }
      return Line(text[start..i], Cr), i + 1;
    }
    return Line(text[start..i], Lf), i + 1;
  }

  /** The position of (i, j) in the flat table. */
  function Cell(i: nat, j: nat, columns: nat): nat {
    i * columns + j
  }

  lemma CellInRange(i: nat, j: nat, rows: nat, columns: nat)
    requires i < rows && j < columns
    ensures Cell(i, j, columns) < rows * columns
  {
    assert (i + 1) * columns <= rows * columns;
  }

  lemma CellsDistinct(i: nat, j: nat, k: nat, l: nat, columns: nat)
    requires j < columns && l < columns && (i != k || j != l)
    ensures Cell(i, j, columns) != Cell(k, l, columns)
  {
    if i < k {
      assert (i + 1) * columns <= k * columns;
    } else if k < i {
      assert (k + 1) * columns <= i * columns;
    }
  }

  ghost predicate Holds(table: array<nat>, columns: nat, i: nat, j: nat, v: nat)
    reads table
  {
    Cell(i, j, columns) < table.Length && table[Cell(i, j, columns)] == v
  }

  method SetCell(table: array<nat>, columns: nat, i: nat, j: nat, v: nat)
    requires j < columns && Cell(i, j, columns) < table.Length
    modifies table
    ensures Holds(table, columns, i, j, v)
    ensures forall k: nat, l: nat, w: nat ::
              l < columns && (k != i || l != j) && old(Holds(table, columns, k, l, w)) ==>
                Holds(table, columns, k, l, w)
  {
    table[Cell(i, j, columns)] := v;
    forall k: nat, l: nat, w: nat | l < columns && (k != i || l != j) && old(Holds(table, columns, k, l, w))
      ensures Holds(table, columns, k, l, w)
    {
      CellsDistinct(i, j, k, l, columns);
    }
  }

  /** The part of the table that is already right once the loops have come down to (i, j). */
  ghost predicate Filled(table: array<nat>, a: seq<Line>, b: seq<Line>, i: nat, j: nat)
    reads table
  {
    forall k: nat, l: nat :: k <= |a| && l <= |b| && (k > i || (k == i && l >= j) || l == |b|) ==>
      Holds(table, |b| + 1, k, l, Lcs(a[k..], b[l..]))
  }

  method FillTable(a: seq<Line>, b: seq<Line>) returns (table: array<nat>)
    ensures fresh(table) && Filled(table, a, b, 0, 0)
  {
    var columns := |b| + 1;
    table := new nat[(|a| + 1) * columns](_ => 0);
    var i := |a|;
    forall k: nat, l: nat | k <= |a| && l <= |b|
      ensures Holds(table, columns, k, l, 0)
    {
      CellInRange(k, l, |a| + 1, columns);
    }
    while i > 0
      invariant 0 <= i <= |a|
      invariant table.Length == (|a| + 1) * columns
      invariant Filled(table, a, b, i, 0)
    {
      i := i - 1;
      var j := |b|;
      while j > 0
        invariant 0 <= j <= |b|
        invariant table.Length == (|a| + 1) * columns
        invariant Filled(table, a, b, i, j)
      {
        j := j - 1;
        assert Holds(table, columns, i + 1, j + 1, Lcs(a[i + 1..], b[j + 1..]));
        assert Holds(table, columns, i + 1, j, Lcs(a[i + 1..], b[j..]));
        assert Holds(table, columns, i, j + 1, Lcs(a[i..], b[j + 1..]));
        assert a[i..][1..] == a[i + 1..] && b[j..][1..] == b[j + 1..];
        CellInRange(i, j, |a| + 1, columns);
        var v;
        if a[i] == b[j] {
          v := table[Cell(i + 1, j + 1, columns)] + 1;
        } else if table[Cell(i + 1, j, columns)] >= table[Cell(i, j + 1, columns)] {
          v := table[Cell(i + 1, j, columns)];
        } else {
          v := table[Cell(i, j + 1, columns)];
        }
        assert v == Lcs(a[i..], b[j..]);
        SetCell(table, columns, i, j, v);
      }
    }
  }

  /** Where the walk stands: the script so far, and what is still to be kept. */
  ghost predicate Walked(ops: seq<Op>, a: seq<Line>, b: seq<Line>, i: nat, j: nat) {
    && i <= |a| && j <= |b|
    && IsScript(ops, a[..i], b[..j])
    && Kept(ops) + Lcs(a[i..], b[j..]) == Lcs(a, b)
  }

  lemma WalkEqual(ops: seq<Op>, a: seq<Line>, b: seq<Line>, i: nat, j: nat)
    requires Walked(ops, a, b, i, j) && i < |a| && j < |b| && a[i] == b[j]
    ensures Walked(ops + [Op(Equal, a[i])], a, b, i + 1, j + 1)
  {
    SidesPush(ops, Op(Equal, a[i]));
    assert a[i..][1..] == a[i + 1..] && b[j..][1..] == b[j + 1..];
    assert a[..i + 1] == a[..i] + [a[i]] && b[..j + 1] == b[..j] + [b[j]];
  }

  lemma WalkDelete(ops: seq<Op>, a: seq<Line>, b: seq<Line>, i: nat, j: nat)
    requires Walked(ops, a, b, i, j) && i < |a|
    requires Lcs(a[i..], b[j..]) == Lcs(a[i + 1..], b[j..])
    ensures Walked(ops + [Op(Delete, a[i])], a, b, i + 1, j)
  {
    SidesPush(ops, Op(Delete, a[i]));
    assert a[..i + 1] == a[..i] + [a[i]];
  }

  lemma WalkInsert(ops: seq<Op>, a: seq<Line>, b: seq<Line>, i: nat, j: nat)
    requires Walked(ops, a, b, i, j) && j < |b|
    requires Lcs(a[i..], b[j..]) == Lcs(a[i..], b[j + 1..])
    ensures Walked(ops + [Op(Insert, b[j])], a, b, i, j + 1)
  {
    SidesPush(ops, Op(Insert, b[j]));
    assert b[..j + 1] == b[..j] + [b[j]];
  }

  /** The cells the walk compares at (i, j) hold the answers for the two smaller problems. */
  lemma CellsBelow(table: array<nat>, a: seq<Line>, b: seq<Line>, i: nat, j: nat)
    requires Filled(table, a, b, 0, 0) && i < |a| && j < |b|
    ensures Holds(table, |b| + 1, i + 1, j, Lcs(a[i + 1..], b[j..]))
    ensures Holds(table, |b| + 1, i, j + 1, Lcs(a[i..], b[j + 1..]))
    ensures a[i] != b[j] ==> Lcs(a[i..], b[j..]) == Max(Lcs(a[i + 1..], b[j..]), Lcs(a[i..], b[j + 1..]))
  {
    assert a[i..][1..] == a[i + 1..] && b[j..][1..] == b[j + 1..];
  }

  lemma WalkStart(a: seq<Line>, b: seq<Line>)
    ensures Walked([], a, b, 0, 0)
  {
    assert a[0..] == a && b[0..] == b;
  }

  /** Where the lines differ, the walk follows the larger of the two cells below. */
  lemma WalkApart(ops: seq<Op>, a: seq<Line>, b: seq<Line>, i: nat, j: nat, down: nat, right: nat)
    requires Walked(ops, a, b, i, j) && i < |a| && j < |b| && a[i] != b[j]
    requires down == Lcs(a[i + 1..], b[j..]) && right == Lcs(a[i..], b[j + 1..])
    requires Lcs(a[i..], b[j..]) == Max(down, right)
    ensures down >= right ==> Walked(ops + [Op(Delete, a[i])], a, b, i + 1, j)
    ensures down < right ==> Walked(ops + [Op(Insert, b[j])], a, b, i, j + 1)
  {
    if down >= right {
      WalkDelete(ops, a, b, i, j);
    } else {
      WalkInsert(ops, a, b, i, j);
    }
  }

  /** The walk over the filled table keeps exactly the longest common subsequence. */
  method WalkTable(table: array<nat>, a: seq<Line>, b: seq<Line>) returns (ops: seq<Op>)
    requires Filled(table, a, b, 0, 0)
    ensures IsScript(ops, a, b) && Kept(ops) == Lcs(a, b)
  {
    ops := [];
    var columns := |b| + 1;
    var i, j := 0, 0;
    WalkStart(a, b);
    while i < |a| && j < |b|
      invariant Walked(ops, a, b, i, j)
      decreases |a| - i + |b| - j
    {
      if a[i] == b[j] {
        WalkEqual(ops, a, b, i, j);
        ops := ops + [Op(Equal, a[i])];
        i, j := i + 1, j + 1;
      } else {
        CellsBelow(table, a, b, i, j);
        var down, right := table[Cell(i + 1, j, columns)], table[Cell(i, j + 1, columns)];
        WalkApart(ops, a, b, i, j, down, right);
        if down >= right {
          ops := ops + [Op(Delete, a[i])];
          i := i + 1;
        } else {
          ops := ops + [Op(Insert, b[j])];
          j := j + 1;
        }
      }
    }
    ops := WalkRest(ops, a, b, i, j);
  }

  /** Once one side is used up, the rest of the other is deleted or inserted. */
  method WalkRest(before: seq<Op>, a: seq<Line>, b: seq<Line>, iStart: nat, jStart: nat) returns (ops: seq<Op>)
    requires Walked(before, a, b, iStart, jStart) && (iStart == |a| || jStart == |b|)
    ensures IsScript(ops, a, b) && Kept(ops) == Lcs(a, b)
  {
    ops := before;
    var i, j := iStart, jStart;
    while i < |a|
      invariant Walked(ops, a, b, i, j) && (i == |a| || j == |b|)
    {
      WalkDelete(ops, a, b, i, j);
      ops := ops + [Op(Delete, a[i])];
      i := i + 1;
    }
    while j < |b|
      invariant Walked(ops, a, b, i, j) && i == |a|
    {
      WalkInsert(ops, a, b, i, j);
      ops := ops + [Op(Insert, b[j])];
      j := j + 1;
    }
    assert a[..i] == a && b[..j] == b;
  }

  /** a and b share their first n lines and no more. */
  predicate SharedPrefix(a: seq<Line>, b: seq<Line>, n: nat) {
    n <= |a| && n <= |b| && a[..n] == b[..n] && (n < |a| && n < |b| ==> a[n] != b[n])
  }

  /** a and b share their last lines from a[m] and b[n] on and no more. */
  predicate SharedSuffix(a: seq<Line>, b: seq<Line>, m: nat, n: nat) {
    m <= |a| && n <= |b| && a[m..] == b[n..] && (m > 0 && n > 0 ==> a[m - 1] != b[n - 1])
  }

  function PrefixLength(a: seq<Line>, b: seq<Line>): nat {
    if a == [] || b == [] || a[0] != b[0] then 0 else 1 + PrefixLength(a[1..], b[1..])
  }

  function SuffixLength(a: seq<Line>, b: seq<Line>): nat {
    if a == [] || b == [] || a[|a| - 1] != b[|b| - 1] then 0
    else 1 + SuffixLength(a[..|a| - 1], b[..|b| - 1])
  }

  lemma {:induction false} PrefixLengthIs(a: seq<Line>, b: seq<Line>, n: nat)
    requires SharedPrefix(a, b, n)
    ensures PrefixLength(a, b) == n
  {
    if n > 0 {
      assert a[0] == a[..n][0] && b[0] == b[..n][0];
      assert a[1..][..n - 1] == a[..n][1..] && b[1..][..n - 1] == b[..n][1..];
      PrefixLengthIs(a[1..], b[1..], n - 1);
    }
  }

  lemma CutLast<T>(s: seq<T>, m: nat)
    requires m < |s|
    ensures s[|s| - 1] == s[m..][|s| - m - 1]
    ensures s[..|s| - 1][m..] == s[m..][..|s| - m - 1]
  {
  }

  lemma {:induction false} SuffixLengthIs(a: seq<Line>, b: seq<Line>, m: nat, n: nat)
    requires SharedSuffix(a, b, m, n)
    ensures SuffixLength(a, b) == |a| - m
    decreases |a| - m
  {
    if m < |a| {
      assert |a[m..]| == |b[n..]|;
      CutLast(a, m);
      CutLast(b, n);
      SuffixLengthIs(a[..|a| - 1], b[..|b| - 1], m, n);
    }
  }

  function Cells(rows: int, columns: int): int {
    (rows + 1) * (columns + 1)
  }

  /** The table cells needed once the shared ends are trimmed. */
  function TableCells(a: seq<Line>, b: seq<Line>): int {
    var p := PrefixLength(a, b);
    var s := if p <= |a| && p <= |b| then SuffixLength(a[p..], b[p..]) else 0;
    Cells(|a| - p - s, |b| - p - s)
  }

  /** No script between the same two line lists keeps more lines, and none is shorter. */
  ghost predicate Minimal(ops: seq<Op>, a: seq<Line>, b: seq<Line>) {
    forall other :: IsScript(other, a, b) ==> Kept(other) <= Kept(ops) && |ops| <= |other|
  }

  lemma LcsScriptIsMinimal(ops: seq<Op>, a: seq<Line>, b: seq<Line>)
    requires IsScript(ops, a, b) && Kept(ops) == Lcs(a, b)
    ensures Minimal(ops, a, b)
  {
    forall other | IsScript(other, a, b)
      ensures Kept(other) <= Kept(ops) && |ops| <= |other|
    {
      KeptBounded(other);
      ScriptLength(ops);
      ScriptLength(other);
    }
  }

  /** The loop that finds the shared beginning. */
  method TrimPrefix(a: seq<Line>, b: seq<Line>) returns (prefix: nat)
    ensures SharedPrefix(a, b, prefix) && prefix == PrefixLength(a, b)
  {
    prefix := 0;
    while prefix < |a| && prefix < |b| && a[prefix] == b[prefix]
      invariant 0 <= prefix <= |a| && prefix <= |b| && a[..prefix] == b[..prefix]
    {
      assert a[..prefix + 1] == a[..prefix] + [a[prefix]] && b[..prefix + 1] == b[..prefix] + [b[prefix]];
      prefix := prefix + 1;
    }
    PrefixLengthIs(a, b, prefix);
  }

  /** The loop that finds the shared end beyond a prefix. */
  method TrimSuffix(a: seq<Line>, b: seq<Line>, prefix: nat) returns (aEnd: nat, bEnd: nat)
    requires prefix <= |a| && prefix <= |b|
    ensures prefix <= aEnd <= |a| && prefix <= bEnd <= |b| && a[aEnd..] == b[bEnd..]
    ensures |a| - aEnd == |b| - bEnd == SuffixLength(a[prefix..], b[prefix..])
  {
    aEnd, bEnd := |a|, |b|;
    while aEnd > prefix && bEnd > prefix && a[aEnd - 1] == b[bEnd - 1]
      invariant prefix <= aEnd <= |a| && prefix <= bEnd <= |b| && a[aEnd..] == b[bEnd..]
    {
      assert a[aEnd - 1..] == [a[aEnd - 1]] + a[aEnd..] && b[bEnd - 1..] == [b[bEnd - 1]] + b[bEnd..];
      aEnd, bEnd := aEnd - 1, bEnd - 1;
    }
    assert a[prefix..][aEnd - prefix..] == a[aEnd..] && b[prefix..][bEnd - prefix..] == b[bEnd..];
    assert |a[aEnd..]| == |b[bEnd..]|;
    SuffixLengthIs(a[prefix..], b[prefix..], aEnd - prefix, bEnd - prefix);
  }

  /** Putting the shared ends back around a best script for the middle gives a best script. */
  lemma AssembleScript(p: seq<Line>, a: seq<Line>, b: seq<Line>, s: seq<Line>,
                       head: seq<Op>, middle: seq<Op>, tail: seq<Op>)
    requires IsScript(head, p, p) && Kept(head) == |p|
    requires IsScript(middle, a, b) && Kept(middle) == Lcs(a, b)
    requires IsScript(tail, s, s) && Kept(tail) == |s|
    ensures IsScript(head + middle + tail, p + a + s, p + b + s)
    ensures Minimal(head + middle + tail, p + a + s, p + b + s)
  {
    SidesAppend(head + middle, tail);
    SidesAppend(head, middle);
    LcsTrim(p, a, b, s);
    LcsScriptIsMinimal(head + middle + tail, p + a + s, p + b + s);
  }

  lemma ThreeParts(a: seq<Line>, i: nat, j: nat)
    requires i <= j <= |a|
    ensures a[..i] + a[i..j] + a[j..] == a
  {
  }

  method CalculateDiff(oldLines: seq<Line>, newLines: seq<Line>, maxCells: int) returns (r: ScriptResult)
    ensures r.TooComplex? <==> TableCells(oldLines, newLines) > maxCells
    ensures r.Script? ==> IsScript(r.ops, oldLines, newLines) && Minimal(r.ops, oldLines, newLines)
  {
    var prefix := TrimPrefix(oldLines, newLines);
    var oldEnd, newEnd := TrimSuffix(oldLines, newLines, prefix);
    var cells := Cells(oldEnd - prefix, newEnd - prefix);
    assert cells == TableCells(oldLines, newLines);
    if cells > maxCells {
      return TooComplex;
    }
    var ops := DiffMiddle(oldLines, newLines, prefix, oldEnd, newEnd);
    return Script(ops);
  }

  /** The script for the trimmed middle between the shared ends. */
  method DiffMiddle(oldLines: seq<Line>, newLines: seq<Line>, prefix: nat, oldEnd: nat, newEnd: nat)
    returns (ops: seq<Op>)
    requires prefix <= oldEnd <= |oldLines| && prefix <= newEnd <= |newLines|
    requires oldLines[..prefix] == newLines[..prefix] && oldLines[oldEnd..] == newLines[newEnd..]
    ensures IsScript(ops, oldLines, newLines) && Minimal(ops, oldLines, newLines)
  {
    var table := FillTable(oldLines[prefix..oldEnd], newLines[prefix..newEnd]);
    var head := EqualOps(oldLines[..prefix]);
    var middle := WalkTable(table, oldLines[prefix..oldEnd], newLines[prefix..newEnd]);
    var tail := EqualOps(oldLines[oldEnd..]);
    AssembleScript(oldLines[..prefix], oldLines[prefix..oldEnd], newLines[prefix..newEnd], oldLines[oldEnd..],
      head, middle, tail);
    ThreeParts(oldLines, prefix, oldEnd);
    ThreeParts(newLines, prefix, newEnd);
    ops := head + middle + tail;
  }

  /** The loops that copy the shared ends into the script. */
  method EqualOps(lines: seq<Line>) returns (ops: seq<Op>)
    ensures IsScript(ops, lines, lines) && Kept(ops) == |lines|
  {
    ops := [];
    for k := 0 to |lines|
      invariant IsScript(ops, lines[..k], lines[..k]) && Kept(ops) == k
    {
      assert lines[..k + 1] == lines[..k] + [lines[k]];
      SidesPush(ops, Op(Equal, lines[k]));
      ops := ops + [Op(Equal, lines[k])];
    }
    assert lines[..|lines|] == lines;
  }
}
