/** The whole diff: split, script, hunks, headers and the bounded rendering. */
module UnifiedDiff {
  import opened Basics
  import opened TextLines
  import opened DiffScripts
  import opened DiffHunks
  import opened DiffPatch
  import opened DiffEngine

  datatype DiffResult = Rendered(text: string) | TooManyLines | TooManyCells | TooLarge

  function Decimal(n: nat): string {
    (if n < 10 then "" else Decimal(n / 10)) + [('0' as int + n % 10) as char]
  }

  function RenderRange(start: nat, count: nat): string {
    if count == 1 then Decimal(start) else Decimal(start) + "," + Decimal(count)
  }

  function Mark(kind: Kind): char {
    match kind
    case Equal => ' '
    case Delete => '-'
    case Insert => '+'
  }

  function RenderOp(op: Op): string {
    [Mark(op.kind)] + op.line.text
    + (if op.line.ending == CrLf || op.line.ending == Cr then "\r" else "") + "\n"
    + (if op.line.ending == NoEnding then "\\ No newline at end of file\n" else "")
  }

  function RenderOps(ops: seq<Op>): string {
    if ops == [] then "" else RenderOps(ops[..|ops| - 1]) + RenderOp(ops[|ops| - 1])
  }

  function RenderHeader(h: Hunk): string {
    "@@ -" + RenderRange(h.oldStart, h.oldCount) + " +" + RenderRange(h.newStart, h.newCount) + " @@\n"
  }

  function RenderHunks(hunks: seq<Hunk>): string {
    if hunks == [] then ""
    else
      var last := hunks[|hunks| - 1];
      RenderHunks(hunks[..|hunks| - 1]) + RenderHeader(last) + RenderOps(last.body)
  }

  function RenderNames(oldName: string, newName: string): string {
    "--- " + oldName + "\n" + "+++ " + newName + "\n"
  }

  /** The complete text of a diff. */
  function Render(oldName: string, newName: string, hunks: seq<Hunk>): string {
    RenderNames(oldName, newName) + RenderHunks(hunks)
  }

  lemma {:induction false} RenderOpsGrows(ops: seq<Op>, i: nat)
    requires i <= |ops|
    ensures |RenderOps(ops[..i])| <= |RenderOps(ops)|
    decreases |ops|
  {
    if i < |ops| {
      var rest := ops[..|ops| - 1];
      assert rest[..i] == ops[..i];
      RenderOpsGrows(rest, i);
    } else {
      assert ops[..i] == ops;
    }
  }

  lemma {:induction false} RenderHunksGrows(hunks: seq<Hunk>, i: nat)
    requires i <= |hunks|
    ensures |RenderHunks(hunks[..i])| <= |RenderHunks(hunks)|
    decreases |hunks|
  {
    if i < |hunks| {
      var rest := hunks[..|hunks| - 1];
      assert rest[..i] == hunks[..i];
      RenderHunksGrows(rest, i);
    } else {
      assert hunks[..i] == hunks;
    }
  }

  lemma RenderPrefixes(oldName: string, newName: string, hunks: seq<Hunk>, i: nat)
    requires i < |hunks|
    ensures Render(oldName, newName, hunks[..i + 1])
            == Render(oldName, newName, hunks[..i]) + RenderHeader(hunks[i]) + RenderOps(hunks[i].body)
    ensures |Render(oldName, newName, hunks[..i + 1])| <= |Render(oldName, newName, hunks)|
  {
    assert hunks[..i + 1][..i] == hunks[..i];
    RenderHunksGrows(hunks, i + 1);
    Regroup(RenderNames(oldName, newName), RenderHunks(hunks[..i]), RenderHeader(hunks[i]), RenderOps(hunks[i].body));
  }

  lemma Regroup(a: string, b: string, c: string, d: string)
    ensures a + (b + c + d) == (a + b) + c + d
  {
  }

  lemma RenderEnds(oldName: string, newName: string, hunks: seq<Hunk>)
    ensures Render(oldName, newName, hunks[..0]) == RenderNames(oldName, newName)
    ensures hunks[..|hunks|] == hunks
    ensures |RenderNames(oldName, newName)| <= |Render(oldName, newName, hunks)|
  {
  }

  /** Writing one hunk's lines, giving up as soon as the text is too long. */
  method WriteOps(builder: string, ops: seq<Op>, maxBytes: int) returns (ok: bool, out: string)
    requires ops != []
    ensures ok <==> |builder + RenderOps(ops)| <= maxBytes
    ensures ok ==> out == builder + RenderOps(ops)
  {
    out := builder;
    for i := 0 to |ops|
      invariant out == builder + RenderOps(ops[..i])
      invariant i > 0 ==> |out| <= maxBytes
    {
      assert ops[..i + 1][..i] == ops[..i];
      out := out + RenderOp(ops[i]);
      if |out| > maxBytes {
        RenderOpsGrows(ops, i + 1);
        return false, out;
      }
    }
    assert ops[..|ops|] == ops;
    ok := true;
  }

  /** The rendering loop fails exactly when the complete text would not fit. */
  method WriteHunks(oldName: string, newName: string, hunks: seq<Hunk>, maxBytes: int) returns (ok: bool, out: string)
    requires hunks != [] && forall k :: 0 <= k < |hunks| ==> hunks[k].body != []
    ensures ok <==> |Render(oldName, newName, hunks)| <= maxBytes
    ensures ok ==> out == Render(oldName, newName, hunks)
  {
    RenderEnds(oldName, newName, hunks);
    out := RenderNames(oldName, newName);
    if |out| > maxBytes {
      return false, out;
    }
    for i := 0 to |hunks|
      invariant out == Render(oldName, newName, hunks[..i]) && |out| <= maxBytes
    {
      var h := hunks[i];
      RenderPrefixes(oldName, newName, hunks, i);
      ok, out := WriteOps(out + RenderHeader(h), h.body, maxBytes);
      if !ok {
        return;
      }
    }
    ok := true;
  }

  /** A minimal script, its hunks and headers; the headers patch the old text into the new one. */
  ghost predicate FaithfulHunks(oldText: string, newText: string, context: nat, hunks: seq<Hunk>) {
    exists ops, ranges ::
      && IsScript(ops, Lines(oldText), Lines(newText))
      && Minimal(ops, Lines(oldText), Lines(newText))
      && ContextRanges(ops, context, ranges)
      && hunks == HunksFor(ops, ranges)
  }

  /** What the hunks of a diff mean: applied to the old text they give the new one, and there
      are none exactly when the texts are equal. */
  lemma HunksRebuildText(oldText: string, newText: string, context: nat, hunks: seq<Hunk>)
    requires FaithfulHunks(oldText, newText, context, hunks)
    ensures var patched := Patch(Lines(oldText), 0, 0, hunks);
            patched.Some? && Join(patched.value) == newText
    ensures hunks == [] <==> oldText == newText
  {
    var ops, ranges :|
      && IsScript(ops, Lines(oldText), Lines(newText))
      && Minimal(ops, Lines(oldText), Lines(newText))
      && ContextRanges(ops, context, ranges)
      && hunks == HunksFor(ops, ranges);
    PatchGivesNew(ops, context, ranges);
    LinesJoin(newText);
    LinesJoin(oldText);
    if oldText == newText {
      MinimalOnEqual(ops, Lines(oldText));
      NoHunksIffEqual(ops, context, ranges);
    }
  }

  /** A minimal script between equal line lists changes nothing. */
  lemma MinimalOnEqual(ops: seq<Op>, a: seq<Line>)
    requires IsScript(ops, a, a) && Minimal(ops, a, a)
    ensures forall i :: 0 <= i < |ops| ==> ops[i].kind == Equal
  {
    var keep := seq(|a|, i requires 0 <= i < |a| => Op(Equal, a[i]));
    KeepAll(keep, a);
    assert Kept(keep) <= Kept(ops);
    ScriptLength(ops);
    KeptAllEqual(ops);
  }

  lemma {:induction false} KeepAll(ops: seq<Op>, a: seq<Line>)
    requires |ops| == |a| && forall i :: 0 <= i < |a| ==> ops[i] == Op(Equal, a[i])
    ensures IsScript(ops, a, a) && Kept(ops) == |a|
  {
    if a != [] {
      KeepAll(ops[1..], a[1..]);
    }
  }

  lemma {:induction false} KeptAllEqual(ops: seq<Op>)
    ensures Kept(ops) <= |ops|
    ensures Kept(ops) == |ops| ==> forall i :: 0 <= i < |ops| ==> ops[i].kind == Equal
  {
    if ops != [] {
      KeptAllEqual(ops[1..]);
      assert forall i :: 1 <= i < |ops| ==> ops[i] == ops[1..][i - 1];
    }
  }

  method Diff(oldText: string, newText: string, oldName: string, newName: string, context: nat,
              maxOutputBytes: int, maxLines: int, maxMatrixCells: int)
    returns (r: DiffResult, ghost hunks: seq<Hunk>)
    ensures r.TooManyLines? <==> |Lines(oldText)| + |Lines(newText)| > maxLines
    ensures !r.TooManyLines? ==>
              (r.TooManyCells? <==> TableCells(Lines(oldText), Lines(newText)) > maxMatrixCells)
    ensures r.Rendered? || r.TooLarge? ==> FaithfulHunks(oldText, newText, context, hunks)
    ensures r.TooLarge? ==> hunks != [] && |Render(oldName, newName, hunks)| > maxOutputBytes
    ensures r.Rendered? ==> r.text == if hunks == [] then "" else Render(oldName, newName, hunks)
    ensures r.Rendered? && hunks != [] ==> |r.text| <= maxOutputBytes
  {
    hunks := [];
    var oldLines := SplitDiffLines(oldText);
    var newLines := SplitDiffLines(newText);
    if |oldLines| + |newLines| > maxLines {
      return TooManyLines, [];
    }
    var script := CalculateDiff(oldLines, newLines, maxMatrixCells);
    if script.TooComplex? {
      return TooManyCells, [];
    }
    var ranges := MakeHunks(script.ops, context);
    var located := LocateHunks(script.ops, ranges);
    assert located == HunksFor(script.ops, ranges);
    hunks := located;
    if located == [] {
      return Rendered(""), hunks;
    }
    var ok, text := WriteHunks(oldName, newName, located, maxOutputBytes);
    r := if ok then Rendered(text) else TooLarge;
  }
}
