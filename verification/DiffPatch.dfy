/** The headers of hunks, and a patch reader that trusts only the headers and bodies
    ("Diff -u or -U Output Format", diff utility, POSIX.1-2017 XCU). */
module DiffPatch {
  import opened Basics
  import opened TextLines
  import opened DiffScripts
  import opened DiffHunks

  datatype Hunk = Hunk(oldStart: nat, oldCount: nat, newStart: nat, newCount: nat, body: seq<Op>)

  /** The hunk for one range: starts count from one, and an empty side names the line before it. */
  function HunkFor(ops: seq<Op>, r: Range): Hunk
    requires r.start <= r.end <= |ops|
  {
    var body := ops[r.start..r.end];
    var o, n := |OldSide(body)|, |NewSide(body)|;
    var before := ops[..r.start];
    Hunk(|OldSide(before)| + (if o == 0 then 0 else 1), o, |NewSide(before)| + (if n == 0 then 0 else 1), n, body)
  }

  /** The zero-based position a header start denotes. */
  function Position(start: nat, count: nat): int {
    if count == 0 then start else start - 1
  }

  /** Reading a patch: skip to the header's position, check the old lines, emit the new ones.
      pos counts old lines used, emitted counts new lines produced. */
  function Patch(source: seq<Line>, pos: nat, emitted: nat, hunks: seq<Hunk>): Option<seq<Line>>
    requires pos <= |source|
    decreases |hunks|
  {
    if hunks == [] then Some(source[pos..])
    else
      var h := hunks[0];
      var at := Position(h.oldStart, h.oldCount);
      if at < pos || at + h.oldCount > |source| || OldSide(h.body) != source[at..at + h.oldCount] then None
      else if Position(h.newStart, h.newCount) != emitted + (at - pos) || |NewSide(h.body)| != h.newCount then None
      else
        match Patch(source, at + h.oldCount, emitted + (at - pos) + h.newCount, hunks[1..])
        case None => None
        case Some(rest) => Some(source[pos..at] + NewSide(h.body) + rest)
  }

  method HunkCounts(ops: seq<Op>) returns (oldCount: nat, newCount: nat)
    ensures oldCount == |OldSide(ops)| && newCount == |NewSide(ops)|
  {
    oldCount, newCount := 0, 0;
    for i := 0 to |ops|
      invariant oldCount == |OldSide(ops[..i])| && newCount == |NewSide(ops[..i])|
    {
      assert ops[..i + 1] == ops[..i] + [ops[i]];
      SidesPush(ops[..i], ops[i]);
      if ops[i].kind != Insert {
        oldCount := oldCount + 1;
      }
      if ops[i].kind != Delete {
        newCount := newCount + 1;
      }
    }
    assert ops[..|ops|] == ops;
  }

  /** Moving both positions from one op index to a later one. */
  method AdvanceTo(ops: seq<Op>, i: nat, target: nat, oldPosition: nat, newPosition: nat)
    returns (o: nat, n: nat)
    requires i <= target <= |ops|
    requires oldPosition == 1 + |OldSide(ops[..i])| && newPosition == 1 + |NewSide(ops[..i])|
    ensures o == 1 + |OldSide(ops[..target])| && n == 1 + |NewSide(ops[..target])|
  {
    o, n := oldPosition, newPosition;
    for opPosition := i to target
      invariant o == 1 + |OldSide(ops[..opPosition])| && n == 1 + |NewSide(ops[..opPosition])|
    {
      assert ops[..opPosition + 1] == ops[..opPosition] + [ops[opPosition]];
      SidesPush(ops[..opPosition], ops[opPosition]);
      if ops[opPosition].kind != Insert {
        o := o + 1;
      }
      if ops[opPosition].kind != Delete {
        n := n + 1;
      }
    }
  }

  /** The loop that walks the script once and computes every header on the way. */
  method LocateHunks(ops: seq<Op>, ranges: seq<Range>) returns (hunks: seq<Hunk>)
    requires Separated(ranges, |ops|)
    ensures |hunks| == |ranges|
    ensures forall k :: 0 <= k < |ranges| ==> hunks[k] == HunkFor(ops, ranges[k])
  {
    hunks := [];
    var oldPosition, newPosition, opPosition := 1, 1, 0;
    assert ops[..0] == [];
    for k := 0 to |ranges|
      invariant |hunks| == k
      invariant forall m :: 0 <= m < k ==> hunks[m] == HunkFor(ops, ranges[m])
      invariant 0 <= opPosition <= |ops| && (k < |ranges| ==> opPosition <= ranges[k].start)
      invariant oldPosition == 1 + |OldSide(ops[..opPosition])| && newPosition == 1 + |NewSide(ops[..opPosition])|
    {
      var r := ranges[k];
      oldPosition, newPosition := AdvanceTo(ops, opPosition, r.start, oldPosition, newPosition);
      var oldCount, newCount := HunkCounts(ops[r.start..r.end]);
      var oldStart, newStart := oldPosition, newPosition;
      if oldCount == 0 {
        oldStart := oldStart - 1;
      }
      if newCount == 0 {
        newStart := newStart - 1;
      }
      hunks := hunks + [Hunk(oldStart, oldCount, newStart, newCount, ops[r.start..r.end])];
      oldPosition, newPosition := AdvanceTo(ops, r.start, r.end, oldPosition, newPosition);
      opPosition := r.end;
    }
  }

  function HunksFor(ops: seq<Op>, ranges: seq<Range>): seq<Hunk>
    requires Separated(ranges, |ops|)
  {
    seq(|ranges|, k requires 0 <= k < |ranges| => HunkFor(ops, ranges[k]))
  }

  lemma HunksForParts(ops: seq<Op>, ranges: seq<Range>)
    requires Separated(ranges, |ops|) && ranges != [] && Separated(ranges[1..], |ops|)
    ensures HunksFor(ops, ranges) != [] && HunksFor(ops, ranges)[0] == HunkFor(ops, ranges[0])
    ensures HunksFor(ops, ranges)[1..] == HunksFor(ops, ranges[1..])
  {
  }

  /** A stretch without changes has the same lines on both sides. */
  lemma {:induction false} EqualStretch(ops: seq<Op>)
    requires forall k :: 0 <= k < |ops| ==> ops[k].kind == Equal
    ensures OldSide(ops) == NewSide(ops)
  {
    if ops != [] {
      EqualStretch(ops[1..]);
    }
  }

  lemma SidesSplit(ops: seq<Op>, i: nat, j: nat)
    requires i <= j <= |ops|
    ensures OldSide(ops[i..]) == OldSide(ops[i..j]) + OldSide(ops[j..])
    ensures NewSide(ops[i..]) == NewSide(ops[i..j]) + NewSide(ops[j..])
    ensures OldSide(ops[..j]) == OldSide(ops[..i]) + OldSide(ops[i..j])
    ensures NewSide(ops[..j]) == NewSide(ops[..i]) + NewSide(ops[i..j])
  {
    assert ops[i..] == ops[i..j] + ops[j..] && ops[..j] == ops[..i] + ops[i..j];
    SidesAppend(ops[i..j], ops[j..]);
    SidesAppend(ops[..i], ops[i..j]);
  }

  /** The old text seen from the script: any stretch of ops reads its own slice of lines. */
  lemma OldSlice(ops: seq<Op>, i: nat, j: nat)
    requires i <= j <= |ops|
    ensures var source, p, q := OldSide(ops), |OldSide(ops[..i])|, |OldSide(ops[..j])|;
            && p <= q <= |source| && source[p..q] == OldSide(ops[i..j]) && source[p..] == OldSide(ops[i..])
  {
    SidesSplit(ops, i, j);
    SidesSplit(ops, 0, i);
    assert ops[0..] == ops && ops[0..i] == ops[..i];
  }

  /** From op q on, the remaining hunks rebuild the rest of the new text. */
  lemma {:induction false} PatchFrom(ops: seq<Op>, q: nat, ranges: seq<Range>)
    requires q <= |ops| && Separated(ranges, |ops|) && (ranges != [] ==> q <= ranges[0].start)
    requires forall i :: q <= i < |ops| && ops[i].kind != Equal ==> Covered(ranges, i)
    ensures |OldSide(ops[..q])| <= |OldSide(ops)|
    ensures Patch(OldSide(ops), |OldSide(ops[..q])|, |NewSide(ops[..q])|, HunksFor(ops, ranges))
            == Some(NewSide(ops[q..]))
    decreases |ranges|
  {
    if ranges == [] {
      OldSlice(ops, q, |ops|);
      forall k | 0 <= k < |ops[q..]|
        ensures ops[q..][k].kind == Equal
      {
        assert !Covered(ranges, q + k);
      }
      EqualStretch(ops[q..]);
    } else {
      var r := ranges[0];
      forall i | r.end <= i < |ops| && ops[i].kind != Equal
        ensures Covered(ranges[1..], i)
      {
        TailCover(ranges, |ops|, i);
      }
      TailCover(ranges, |ops|, 0);
      PatchFrom(ops, r.end, ranges[1..]);
      PatchStep(ops, q, ranges);
    }
  }

  /** The first hunk lands where its header says, on both sides. */
  lemma HunkLands(ops: seq<Op>, q: nat, ranges: seq<Range>)
    requires q <= |ops| && Separated(ranges, |ops|) && ranges != [] && q <= ranges[0].start
    requires forall i :: q <= i < |ops| && ops[i].kind != Equal ==> Covered(ranges, i)
    ensures var r := ranges[0];
            var source, h := OldSide(ops), HunkFor(ops, r);
            var pos, at, next := |OldSide(ops[..q])|, |OldSide(ops[..r.start])|, |OldSide(ops[..r.end])|;
            && pos <= at <= next <= |source| && next == at + h.oldCount
            && OldSide(h.body) == source[at..next]
            && source[pos..at] == NewSide(ops[q..r.start])
            && |NewSide(ops[..r.start])| == |NewSide(ops[..q])| + (at - pos)
            && |NewSide(ops[..r.end])| == |NewSide(ops[..r.start])| + h.newCount
  {
    var r := ranges[0];
    OldSlice(ops, q, r.start);
    OldSlice(ops, r.start, r.end);
    SidesSplit(ops, q, r.start);
    SidesSplit(ops, r.start, r.end);
    forall k | 0 <= k < r.start - q
      ensures ops[q..r.start][k].kind == Equal
    {
      if Covered(ranges, q + k) {
        CoveredInLength(ranges, |ops|, q + k);
      }
    }
    EqualStretch(ops[q..r.start]);
  }

  lemma NewSideParts(ops: seq<Op>, i: nat, j: nat, k: nat)
    requires i <= j <= k <= |ops|
    ensures NewSide(ops[i..]) == NewSide(ops[i..j]) + NewSide(ops[j..k]) + NewSide(ops[k..])
  {
    SidesSplit(ops, i, j);
    SidesSplit(ops, j, k);
  }

  /** One unfolding of the patch reader: the lines up to the hunk, its new side, and the rest. */
  lemma PatchOnce(source: seq<Line>, pos: nat, emitted: nat, hunks: seq<Hunk>, h: Hunk, tail: seq<Hunk>,
                  at: nat, next: nat, start: nat, stretch: seq<Line>, rest: seq<Line>)
    requires hunks != [] && hunks[0] == h && hunks[1..] == tail
    requires pos <= at <= next <= |source| && next == at + h.oldCount
    requires at == Position(h.oldStart, h.oldCount) && start == Position(h.newStart, h.newCount)
    requires OldSide(h.body) == source[at..next] && |NewSide(h.body)| == h.newCount
    requires source[pos..at] == stretch && start == emitted + (at - pos)
    requires Patch(source, next, start + h.newCount, tail) == Some(rest)
    ensures Patch(source, pos, emitted, hunks) == Some(stretch + NewSide(h.body) + rest)
  {
  }

  lemma HunkHeader(ops: seq<Op>, r: Range)
    requires r.start <= r.end <= |ops|
    ensures var h := HunkFor(ops, r);
            && h.body == ops[r.start..r.end] && |NewSide(h.body)| == h.newCount
            && Position(h.oldStart, h.oldCount) == |OldSide(ops[..r.start])|
            && Position(h.newStart, h.newCount) == |NewSide(ops[..r.start])|
  {
  }

  /** The first hunk is applied and followed by the others. */
  lemma PatchStep(ops: seq<Op>, q: nat, ranges: seq<Range>)
    requires q <= |ops| && Separated(ranges, |ops|) && ranges != [] && q <= ranges[0].start
    requires forall i :: q <= i < |ops| && ops[i].kind != Equal ==> Covered(ranges, i)
    requires Separated(ranges[1..], |ops|) && |OldSide(ops[..ranges[0].end])| <= |OldSide(ops)|
    requires Patch(OldSide(ops), |OldSide(ops[..ranges[0].end])|, |NewSide(ops[..ranges[0].end])|,
                   HunksFor(ops, ranges[1..])) == Some(NewSide(ops[ranges[0].end..]))
    ensures |OldSide(ops[..q])| <= |OldSide(ops)|
    ensures Patch(OldSide(ops), |OldSide(ops[..q])|, |NewSide(ops[..q])|, HunksFor(ops, ranges))
            == Some(NewSide(ops[q..]))
  {
    var r := ranges[0];
    HunkLands(ops, q, ranges);
    HunkHeader(ops, r);
    NewSideParts(ops, q, r.start, r.end);
    HunksForParts(ops, ranges);
    PatchOnce(OldSide(ops), |OldSide(ops[..q])|, |NewSide(ops[..q])|, HunksFor(ops, ranges), HunkFor(ops, r),
      HunksFor(ops, ranges[1..]), |OldSide(ops[..r.start])|, |OldSide(ops[..r.end])|, |NewSide(ops[..r.start])|,
      NewSide(ops[q..r.start]), NewSide(ops[r.end..]));
  }

  /** Applying the hunks to the old lines by their headers gives exactly the new lines. */
  lemma PatchGivesNew(ops: seq<Op>, context: nat, ranges: seq<Range>)
    requires ContextRanges(ops, context, ranges)
    ensures Patch(OldSide(ops), 0, 0, HunksFor(ops, ranges)) == Some(NewSide(ops))
  {
    forall i | 0 <= i < |ops| && ops[i].kind != Equal
      ensures Covered(ranges, i)
    {
      assert Changed(ops, i);
      assert NearChange(ops, context, i);
    }
    assert ops[..0] == [] && ops[0..] == ops;
    PatchFrom(ops, 0, ranges);
  }
}
