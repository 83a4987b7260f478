/** Grouping the changes of a script into context hunks (internal/textfile/diff.go). */
module DiffHunks {
  import opened TextLines
  import opened DiffScripts

  /** The ops from start up to end. */
  datatype Range = Range(start: nat, end: nat)

  predicate Changed(ops: seq<Op>, c: nat) {
    c < |ops| && ops[c].kind != Equal
  }

  ghost predicate Covered(ranges: seq<Range>, p: nat) {
    exists k :: 0 <= k < |ranges| && ranges[k].start <= p < ranges[k].end
  }

  /** Within context ops of a change. */
  ghost predicate NearChange(ops: seq<Op>, context: nat, p: nat) {
    exists c: nat :: Changed(ops, c) && c - context <= p <= c + context
  }

  /** In order, inside the script, non-empty, and with at least one op between neighbours. */
  ghost predicate Separated(ranges: seq<Range>, length: nat) {
    && (forall k :: 0 <= k < |ranges| ==> ranges[k].start < ranges[k].end <= length)
    && (forall k, l :: 0 <= k < l < |ranges| ==> ranges[k].end < ranges[l].start)
  }

  /** The ranges are exactly the maximal runs of ops that lie near a change. */
  ghost predicate ContextRanges(ops: seq<Op>, context: nat, ranges: seq<Range>) {
    && Separated(ranges, |ops|)
    && forall p: nat :: p < |ops| ==> (Covered(ranges, p) <==> NearChange(ops, context, p))
  }

  /** The positions of the changes, in order. */
  ghost predicate ChangeList(ops: seq<Op>, changes: seq<nat>, upTo: nat) {
    && (forall m :: 0 <= m < |changes| ==> changes[m] < upTo && Changed(ops, changes[m]))
    && (forall m, n :: 0 <= m < n < |changes| ==> changes[m] < changes[n])
    && (forall c: nat :: c < upTo && Changed(ops, c) ==> c in changes)
  }

  method CollectChanges(ops: seq<Op>) returns (changes: seq<nat>)
    ensures ChangeList(ops, changes, |ops|)
  {
    changes := [];
    for i := 0 to |ops|
      invariant ChangeList(ops, changes, i)
    {
      if ops[i].kind != Equal {
        changes := changes + [i];
      }
    }
  }

  function Min(a: int, b: int): int {
    if a < b then a else b
  }

  ghost predicate NearFirst(changes: seq<nat>, n: nat, context: nat, p: nat) {
    exists m :: 0 <= m < n && m < |changes| && changes[m] - context <= p <= changes[m] + context
  }

  /** The state of the grouping loop after n changes: the closed ranges and the open one. */
  ghost predicate Grouped(ops: seq<Op>, context: nat, changes: seq<nat>, n: nat, closed: seq<Range>, open: Range) {
    && 0 < n <= |changes|
    && Separated(closed + [open], |ops|)
    && open.end == Min(changes[n - 1] + context + 1, |ops|)
    && (open.start == 0 || open.start <= changes[n - 1] - context)
    && forall p: nat :: p < |ops| ==> (Covered(closed + [open], p) <==> NearFirst(changes, n, context, p))
  }

  lemma CoveredPush(closed: seq<Range>, open: Range, p: nat)
    ensures Covered(closed + [open], p) <==> Covered(closed, p) || open.start <= p < open.end
  {
    var all := closed + [open];
    if Covered(closed, p) {
      var k :| 0 <= k < |closed| && closed[k].start <= p < closed[k].end;
      assert all[k] == closed[k];
    }
    if open.start <= p < open.end {
      assert all[|closed|] == open;
    }
  }

  lemma NearNext(changes: seq<nat>, n: nat, context: nat, p: nat)
    requires n < |changes|
    ensures NearFirst(changes, n + 1, context, p) <==>
              NearFirst(changes, n, context, p) || changes[n] - context <= p <= changes[n] + context
  {
  }

  /** A change whose context touches the open range extends it. */
  lemma GroupMerge(ops: seq<Op>, context: nat, changes: seq<nat>, n: nat, closed: seq<Range>, open: Range)
    requires ChangeList(ops, changes, |ops|) && n < |changes|
    requires Grouped(ops, context, changes, n, closed, open)
    requires changes[n] - context <= open.end
    ensures Grouped(ops, context, changes, n + 1, closed, Range(open.start, Min(changes[n] + context + 1, |ops|)))
  {
    var wider := Range(open.start, Min(changes[n] + context + 1, |ops|));
    assert changes[n - 1] < changes[n];
    forall p: nat | p < |ops|
      ensures Covered(closed + [wider], p) <==> NearFirst(changes, n + 1, context, p)
    {
      CoveredPush(closed, open, p);
      CoveredPush(closed, wider, p);
      NearNext(changes, n, context, p);
    }
    var was, now := closed + [open], closed + [wider];
    assert forall k :: 0 <= k < |closed| ==> was[k] == now[k] == closed[k];
    assert was[|closed|] == open && now[|closed|] == wider;
  }

  /** A change further away closes the open range and starts the next. */
  lemma GroupSplit(ops: seq<Op>, context: nat, changes: seq<nat>, n: nat, closed: seq<Range>, open: Range)
    requires ChangeList(ops, changes, |ops|) && n < |changes|
    requires Grouped(ops, context, changes, n, closed, open)
    requires changes[n] - context > open.end
    ensures Grouped(ops, context, changes, n + 1, closed + [open],
                    Range(changes[n] - context, Min(changes[n] + context + 1, |ops|)))
  {
    var next := Range(changes[n] - context, Min(changes[n] + context + 1, |ops|));
    var was, now := closed + [open], closed + [open] + [next];
    forall p: nat | p < |ops|
      ensures Covered(now, p) <==> NearFirst(changes, n + 1, context, p)
    {
      CoveredPush(was, next, p);
      NearNext(changes, n, context, p);
    }
    assert forall k :: 0 <= k < |was| ==> now[k] == was[k];
    assert was[|closed|] == open && now[|was|] == next;
    forall k | 0 <= k < |was|
      ensures was[k].end < next.start
    {
      if k < |closed| {
        assert was[k].end < was[|closed|].start;
      }
    }
  }

  lemma GroupStart(ops: seq<Op>, context: nat, changes: seq<nat>, open: Range)
    requires ChangeList(ops, changes, |ops|) && changes != []
    requires open == Range(if changes[0] < context then 0 else changes[0] - context,
                           Min(changes[0] + context + 1, |ops|))
    ensures Grouped(ops, context, changes, 1, [], open)
  {
    assert [] + [open] == [open];
    forall p: nat | p < |ops|
      ensures Covered([open], p) <==> NearFirst(changes, 1, context, p)
    {
      assert [open][0] == open;
    }
  }

  lemma GroupDone(ops: seq<Op>, context: nat, changes: seq<nat>, closed: seq<Range>, open: Range)
    requires ChangeList(ops, changes, |ops|)
    requires Grouped(ops, context, changes, |changes|, closed, open)
    ensures ContextRanges(ops, context, closed + [open])
  {
    forall p: nat | p < |ops|
      ensures NearFirst(changes, |changes|, context, p) <==> NearChange(ops, context, p)
    {
      if NearChange(ops, context, p) {
        var c: nat :| Changed(ops, c) && c - context <= p <= c + context;
        var m :| 0 <= m < |changes| && changes[m] == c;
      }
    }
  }

  method MakeHunks(ops: seq<Op>, context: nat) returns (hunks: seq<Range>)
    ensures ContextRanges(ops, context, hunks)
  {
    var changes := CollectChanges(ops);
    hunks := [];
    if changes == [] {
      assert forall p: nat :: p < |ops| ==> !Changed(ops, p);
      return;
    }
    var start := if changes[0] < context then 0 else changes[0] - context;
    var end := Min(changes[0] + context + 1, |ops|);
    GroupStart(ops, context, changes, Range(start, end));
    for n := 1 to |changes|
      invariant 0 <= start && 0 <= end && Grouped(ops, context, changes, n, hunks, Range(start, end))
    {
      var change := changes[n];
      if change - context <= end {
        GroupMerge(ops, context, changes, n, hunks, Range(start, end));
        var nextEnd := Min(change + context + 1, |ops|);
        if nextEnd > end {
          end := nextEnd;
        }
      } else {
        GroupSplit(ops, context, changes, n, hunks, Range(start, end));
        hunks := hunks + [Range(start, end)];
        start := change - context;
        end := Min(change + context + 1, |ops|);
      }
    }
    GroupDone(ops, context, changes, hunks, Range(start, end));
    hunks := hunks + [Range(start, end)];
  }

  /** There are no hunks exactly when there is nothing to change. */
  lemma NoHunksIffEqual(ops: seq<Op>, context: nat, hunks: seq<Range>)
    requires ContextRanges(ops, context, hunks)
    ensures hunks == [] <==> forall i :: 0 <= i < |ops| ==> ops[i].kind == Equal
  {
    if i: nat :| i < |ops| && ops[i].kind != Equal {
      assert Changed(ops, i);
      assert NearChange(ops, context, i);
      assert Covered(hunks, i);
    }
    if hunks != [] {
      var p := hunks[0].start;
      assert Covered(hunks, p);
      var c: nat :| Changed(ops, c) && c - context <= p <= c + context;
    }
  }

  /** The grouping is determined: a script has only one list of context hunks. */
  lemma {:induction false} HunksUnique(ops: seq<Op>, context: nat, a: seq<Range>, b: seq<Range>)
    requires ContextRanges(ops, context, a) && ContextRanges(ops, context, b)
    ensures a == b
  {
    SameCover(a, b, |ops|);
  }

  lemma CoveredInLength(ranges: seq<Range>, length: nat, p: nat)
    requires Separated(ranges, length) && Covered(ranges, p)
    ensures p < length && ranges != [] && ranges[0].start <= p
    ensures p >= ranges[0].end ==> p > ranges[0].end && Covered(ranges[1..], p)
  {
    var k :| 0 <= k < |ranges| && ranges[k].start <= p < ranges[k].end;
    if k > 0 {
      assert ranges[1..][k - 1] == ranges[k];
    }
  }

  lemma TailCover(ranges: seq<Range>, length: nat, p: nat)
    requires Separated(ranges, length) && ranges != []
    ensures Separated(ranges[1..], length)
    ensures Covered(ranges[1..], p) <==> Covered(ranges, p) && p >= ranges[0].end
  {
    var rest := ranges[1..];
    assert forall k :: 0 <= k < |rest| ==> rest[k] == ranges[k + 1];
    if Covered(rest, p) {
      var k :| 0 <= k < |rest| && rest[k].start <= p < rest[k].end;
      assert ranges[k + 1] == rest[k] && ranges[0].end < ranges[k + 1].start;
    } else if Covered(ranges, p) {
      CoveredInLength(ranges, length, p);
    }
  }

  lemma {:induction false} SameCover(a: seq<Range>, b: seq<Range>, length: nat)
    requires Separated(a, length) && Separated(b, length)
    requires forall p: nat :: p < length ==> (Covered(a, p) <==> Covered(b, p))
    ensures a == b
  {
    if a != [] {
      assert Covered(a, a[0].start);
      assert Covered(b, a[0].start);
      CoveredInLength(b, length, a[0].start);
      FirstRange(a, b, length);
      FirstRange(b, a, length);
      forall p: nat | p < length
        ensures Covered(a[1..], p) <==> Covered(b[1..], p)
      {
        TailCover(a, length, p);
        TailCover(b, length, p);
      }
      TailCover(a, length, 0);
      TailCover(b, length, 0);
      SameCover(a[1..], b[1..], length);
      assert a == [a[0]] + a[1..] && b == [b[0]] + b[1..];
    } else if b != [] {
      assert Covered(b, b[0].start);
    }
  }

  /** With the same cover, the first range of one list starts and ends no later than the other's. */
  lemma FirstRange(a: seq<Range>, b: seq<Range>, length: nat)
    requires Separated(a, length) && Separated(b, length) && a != [] && b != []
    requires forall p: nat :: p < length ==> (Covered(a, p) <==> Covered(b, p))
    ensures a[0].start <= b[0].start && (a[0].start == b[0].start ==> a[0].end <= b[0].end)
  {
    assert Covered(b, b[0].start);
    CoveredInLength(a, length, b[0].start);
    if a[0].start == b[0].start && b[0].end < a[0].end {
      var p := b[0].end;
      assert Covered(a, p);
      CoveredInLength(b, length, p);
    }
  }
}
