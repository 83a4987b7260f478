/** The spans an edit set targets: literal matching, sorting, the neighbour check and the
    splice (internal/textfile/edit.go). */
module EditSpans {
  import opened Search

  // ----- literal matches ---------------------------------------------------------------

  /** The matches taken from left to right, each starting at or after the end of the one before. */
  function Matches(text: string, target: string, offset: nat): seq<nat>
    requires target != ""
    decreases |text| - offset
  {
    if offset + |target| > |text| then []
    else if text[offset..offset + |target|] == target then [offset] + Matches(text, target, offset + |target|)
    else Matches(text, target, offset + 1)
  }

  /** Position p falls into a listed match that starts no later. */
  ghost predicate Covers(ms: seq<nat>, width: nat, p: nat) {
    exists i :: 0 <= i < |ms| && ms[i] <= p < ms[i] + width
  }

  ghost predicate Separated(text: string, target: string, offset: nat, ms: seq<nat>) {
    && (forall i :: 0 <= i < |ms| ==> ms[i] >= offset && OccursAt(text, target, ms[i]))
    && (forall i, j :: 0 <= i < j < |ms| ==> ms[i] + |target| <= ms[j])
  }

  lemma SeparatedHead(text: string, target: string, offset: nat, rest: seq<nat>)
    requires OccursAt(text, target, offset) && Separated(text, target, offset + |target|, rest)
    ensures Separated(text, target, offset, [offset] + rest)
  {
    var ms := [offset] + rest;
    assert forall i :: 0 < i < |ms| ==> ms[i] == rest[i - 1];
  }

  lemma {:induction false} MatchesOccur(text: string, target: string, offset: nat)
    requires target != ""
    ensures Separated(text, target, offset, Matches(text, target, offset))
    decreases |text| - offset
  {
    if offset + |target| <= |text| {
      if text[offset..offset + |target|] == target {
        MatchesOccur(text, target, offset + |target|);
        SeparatedHead(text, target, offset, Matches(text, target, offset + |target|));
      } else {
        MatchesOccur(text, target, offset + 1);
      }
    }
  }

  lemma {:induction false} MatchesCover(text: string, target: string, offset: nat, p: nat)
    requires target != "" && p >= offset && OccursAt(text, target, p)
    ensures Covers(Matches(text, target, offset), |target|, p)
    decreases |text| - offset
  {
    var ms := Matches(text, target, offset);
    if text[offset..offset + |target|] == target {
      if p < offset + |target| {
        assert ms[0] <= p < ms[0] + |target|;
      } else {
        MatchesCover(text, target, offset + |target|, p);
        CoversTail(offset, Matches(text, target, offset + |target|), |target|, p);
      }
    } else {
      MatchesCover(text, target, offset + 1, p);
    }
  }

  lemma CoversTail(m: nat, rest: seq<nat>, width: nat, p: nat)
    requires Covers(rest, width, p)
    ensures Covers([m] + rest, width, p)
  {
    var i :| 0 <= i < |rest| && rest[i] <= p < rest[i] + width;
    assert ([m] + rest)[i + 1] == rest[i];
  }

  /** What the list is: occurrences that do not overlap, and every occurrence overlaps a
      listed one that starts no later. */
  lemma MatchesAreMaximal(text: string, target: string, p: nat)
    requires target != ""
    ensures var ms := Matches(text, target, 0);
            Separated(text, target, 0, ms) && (OccursAt(text, target, p) ==> Covers(ms, |target|, p))
  {
    MatchesOccur(text, target, 0);
    if OccursAt(text, target, p) {
      MatchesCover(text, target, 0, p);
    }
  }

  /** The next match is the leftmost occurrence. */
  lemma {:induction false} MatchesNext(text: string, target: string, offset: nat)
    requires target != ""
    ensures var r := IndexFrom(text, target, offset);
            if r < 0 then Matches(text, target, offset) == []
            else Matches(text, target, offset) == [r as nat] + Matches(text, target, r + |target|)
    decreases |text| - offset
  {
    if offset + |target| <= |text| && text[offset..offset + |target|] != target {
      MatchesNext(text, target, offset + 1);
      assert IndexFrom(text, target, offset) == IndexFrom(text, target, offset + 1);
      assert Matches(text, target, offset) == Matches(text, target, offset + 1);
    }
  }

  /** The scan stops as soon as it has limit matches. */
  method LiteralMatches(text: string, target: string, limit: nat) returns (matches: seq<nat>)
    requires target != ""
    ensures matches == First(Matches(text, target, 0), limit)
  {
    matches := [];
    var offset := 0;
    ghost var rest := Matches(text, target, 0);
    while offset <= |text| - |target| && |matches| < limit
      invariant 0 <= offset && |matches| <= limit
      invariant rest == Matches(text, target, offset)
      invariant matches + rest == Matches(text, target, 0)
      decreases |text| - offset
    {
      var index := IndexFrom(text, target, offset);
      MatchesNext(text, target, offset);
      if index < 0 {
        break;
      }
      Regroup(matches, index, rest[1..]);
      rest := rest[1..];
      matches := matches + [index];
      offset := index + |target|;
    }
  }

  lemma Regroup<T>(a: seq<T>, x: T, b: seq<T>)
    ensures a + ([x] + b) == (a + [x]) + b
  {
  }

  // ----- spans -------------------------------------------------------------------------

  /** Replace text[start..end] by replace. */
  datatype Span = Span(start: nat, end: nat, replace: string)

  predicate Good(text: string, s: Span) {
    s.start < s.end <= |text|
  }

  predicate AllGood(text: string, spans: seq<Span>) {
    forall i :: 0 <= i < |spans| ==> Good(text, spans[i])
  }

  predicate Apart(a: Span, b: Span) {
    a.end <= b.start || b.end <= a.start
  }

  /** No two of the spans, taken anywhere in the list, share a byte. */
  ghost predicate PairwiseApart(spans: seq<Span>) {
    forall i, j :: 0 <= i < j < |spans| ==> Apart(spans[i], spans[j])
  }

  /** The order the planner sorts by. */
  predicate Before(a: Span, b: Span) {
    a.start < b.start || (a.start == b.start && a.end <= b.end)
  }

  ghost predicate Sorted(spans: seq<Span>) {
    forall i, j :: 0 <= i < j < |spans| ==> Before(spans[i], spans[j])
  }

  /** Each span ends before the next one starts. */
  predicate NeighboursApart(spans: seq<Span>) {
    forall i :: 0 < i < |spans| ==> spans[i - 1].end <= spans[i].start
  }

  lemma {:induction false} ChainReaches(text: string, spans: seq<Span>, i: nat, j: nat)
    requires AllGood(text, spans) && NeighboursApart(spans) && i < j < |spans|
    ensures spans[i].end <= spans[j].start
    decreases j
  {
    if i < j - 1 {
      ChainReaches(text, spans, i, j - 1);
    }
  }

  /** After sorting, comparing neighbours decides disjointness of all pairs. */
  lemma NeighboursSuffice(text: string, spans: seq<Span>)
    requires AllGood(text, spans) && Sorted(spans)
    ensures NeighboursApart(spans) <==> PairwiseApart(spans)
  {
    if NeighboursApart(spans) {
      forall i, j | 0 <= i < j < |spans|
        ensures Apart(spans[i], spans[j])
      {
        ChainReaches(text, spans, i, j);
      }
    }
    if PairwiseApart(spans) {
      forall i | 0 < i < |spans|
        ensures spans[i - 1].end <= spans[i].start
      {
        assert Apart(spans[i - 1], spans[i]) && Before(spans[i - 1], spans[i]);
      }
    }
  }

  // ----- order does not matter -----------------------------------------------------------

  /** Disjointness as a property of the collection: each span occurs once, and different spans
      are apart. */
  ghost predicate Disjoint(spans: multiset<Span>) {
    && (forall a :: a in spans ==> spans[a] == 1)
    && (forall a, b :: a in spans && b in spans && a != b ==> Apart(a, b))
  }

  lemma CountTwice<T>(s: seq<T>, i: nat, j: nat)
    requires i < j < |s| && s[i] == s[j]
    ensures multiset(s)[s[i]] >= 2
  {
    assert s == s[..j] + ([s[j]] + s[j + 1..]);
    assert multiset(s) == multiset(s[..j]) + (multiset{s[j]} + multiset(s[j + 1..]));
    assert s[..j][i] == s[j];
    assert s[j] in multiset(s[..j]);
  }

  lemma {:induction false} TwiceIsTwoIndices<T>(s: seq<T>, x: T) returns (i: nat, j: nat)
    requires multiset(s)[x] >= 2
    ensures i < j < |s| && s[i] == x && s[j] == x
  {
    assert s == [s[0]] + s[1..];
    assert multiset(s) == multiset{s[0]} + multiset(s[1..]);
    if s[0] == x {
      assert x in multiset(s[1..]);
      assert x in s[1..];
      var k :| 0 <= k < |s[1..]| && s[1..][k] == x;
      i, j := 0, k + 1;
    } else {
      var a, b := TwiceIsTwoIndices(s[1..], x);
      i, j := a + 1, b + 1;
    }
  }

  lemma DisjointIsPairwise(text: string, spans: seq<Span>)
    requires AllGood(text, spans)
    ensures PairwiseApart(spans) <==> Disjoint(multiset(spans))
  {
    if Disjoint(multiset(spans)) {
      forall i, j | 0 <= i < j < |spans|
        ensures Apart(spans[i], spans[j])
      {
        if spans[i] == spans[j] {
          CountTwice(spans, i, j);
        } else {
          assert spans[i] in multiset(spans) && spans[j] in multiset(spans);
        }
      }
    }
    if PairwiseApart(spans) {
      PairwiseIsDisjoint(text, spans);
    }
  }

  lemma TwiceOverlaps(text: string, spans: seq<Span>, a: Span)
    requires AllGood(text, spans) && multiset(spans)[a] >= 2
    ensures !PairwiseApart(spans)
  {
    var i, j := TwiceIsTwoIndices(spans, a);
    assert Good(text, spans[i]) && !Apart(spans[i], spans[j]);
  }

  lemma PairwiseIsDisjoint(text: string, spans: seq<Span>)
    requires AllGood(text, spans) && PairwiseApart(spans)
    ensures Disjoint(multiset(spans))
  {
    forall a | a in multiset(spans)
      ensures multiset(spans)[a] == 1
    {
      if multiset(spans)[a] >= 2 {
        TwiceOverlaps(text, spans, a);
      }
    }
    forall a, b | a in multiset(spans) && b in multiset(spans) && a != b
      ensures Apart(a, b)
    {
      assert a in spans && b in spans;
      var i :| 0 <= i < |spans| && spans[i] == a;
      var j :| 0 <= j < |spans| && spans[j] == b;
      if i < j {
        assert Apart(spans[i], spans[j]);
      } else {
        assert Apart(spans[j], spans[i]);
      }
    }
  }

  // ----- splicing ------------------------------------------------------------------------

  /** The splice of a sorted list: copy up to each span, write its replacement, go on after it. */
  function Build(text: string, pos: nat, spans: seq<Span>): string
    requires pos <= |text| && AllGood(text, spans) && NeighboursApart(spans)
    requires spans != [] ==> pos <= spans[0].start
    decreases |spans|
  {
    if spans == [] then text[pos..]
    else text[pos..spans[0].start] + (spans[0].replace + Build(text, spans[0].end, spans[1..]))
  }

  /** Simultaneous replacement of a set of spans, with no order among them: walking through the
      text, a position where a span starts yields its replacement and skips it, any other position
      yields its own character. */
  ghost function Starting(spans: set<Span>, pos: nat): (s: Span)
    requires exists s :: s in spans && s.start == pos
    ensures s in spans && s.start == pos
  {
    var s :| s in spans && s.start == pos;
    s
  }

  ghost predicate GoodSet(text: string, spans: set<Span>) {
    forall s :: s in spans ==> Good(text, s)
  }

  ghost function Replace(text: string, pos: nat, spans: set<Span>): string
    requires pos <= |text| && GoodSet(text, spans)
    decreases |text| - pos
  {
    if pos == |text| then ""
    else if exists s :: s in spans && s.start == pos then
      var s := Starting(spans, pos);
      s.replace + Replace(text, s.end, spans)
    else [text[pos]] + Replace(text, pos + 1, spans)
  }

  lemma ReplaceChar(text: string, pos: nat, spans: set<Span>)
    requires pos < |text| && GoodSet(text, spans) && forall s :: s in spans ==> s.start != pos
    ensures Replace(text, pos, spans) == [text[pos]] + Replace(text, pos + 1, spans)
  {
  }

  lemma TakeOne(s: string, i: nat, j: nat, rest: string)
    requires i < j <= |s|
    ensures s[i..j] + rest == [s[i]] + (s[i + 1..j] + rest)
  {
  }

  lemma {:induction false} ReplaceGap(text: string, pos: nat, stop: nat, spans: set<Span>)
    requires pos <= stop <= |text| && GoodSet(text, spans)
    requires forall s :: s in spans ==> !(pos <= s.start < stop)
    ensures Replace(text, pos, spans) == text[pos..stop] + Replace(text, stop, spans)
    decreases stop - pos
  {
    if pos < stop {
      ReplaceGap(text, pos + 1, stop, spans);
      ReplaceChar(text, pos, spans);
      TakeOne(text, pos, stop, Replace(text, stop, spans));
    } else {
      assert text[pos..stop] + Replace(text, stop, spans) == Replace(text, stop, spans);
    }
  }

  /** The spans of all that start at pos or later are those of the list. */
  ghost predicate Remaining(pos: nat, spans: seq<Span>, all: set<Span>) {
    && (forall i :: 0 <= i < |spans| ==> spans[i] in all && pos <= spans[i].start)
    && (forall s :: s in all && s.start >= pos ==> s in spans)
  }

  /** Splicing a sorted list without overlaps is simultaneous replacement. */
  lemma {:induction false} BuildReplaces(text: string, pos: nat, spans: seq<Span>, all: set<Span>)
    requires pos <= |text| && AllGood(text, spans) && NeighboursApart(spans)
    requires Remaining(pos, spans, all) && GoodSet(text, all)
    ensures Build(text, pos, spans) == Replace(text, pos, all)
    decreases |spans|
  {
    if spans == [] {
      ReplaceGap(text, pos, |text|, all);
      assert text[pos..|text|] == text[pos..];
    } else {
      var first := spans[0];
      RemainingTail(text, pos, spans, all);
      ReplaceGap(text, pos, first.start, all);
      BuildReplaces(text, first.end, spans[1..], all);
      ReplaceSpan(text, first, all);
    }
  }

  lemma RemainingTail(text: string, pos: nat, spans: seq<Span>, all: set<Span>)
    requires AllGood(text, spans) && NeighboursApart(spans) && spans != []
    requires Remaining(pos, spans, all) && GoodSet(text, all)
    ensures AllGood(text, spans[1..]) && NeighboursApart(spans[1..]) && Remaining(spans[0].end, spans[1..], all)
    ensures forall s :: s in all && pos <= s.start <= spans[0].start ==> s == spans[0]
  {
    forall j | 1 <= j < |spans|
      ensures spans[0].end <= spans[j].start
    {
      ChainReaches(text, spans, 0, j);
    }
    forall s | s in all && s.start >= spans[0].end
      ensures s in spans[1..]
    {
      var i :| 0 <= i < |spans| && spans[i] == s;
      assert spans[1..][i - 1] == s;
    }
  }

  lemma ReplaceSpan(text: string, s: Span, all: set<Span>)
    requires s in all && GoodSet(text, all)
    requires forall x :: x in all && x.start == s.start ==> x == s
    ensures Replace(text, s.start, all) == s.replace + Replace(text, s.end, all)
  {
  }

  /** How much longer the replacements are than the text they replace. */
  function Growth(spans: seq<Span>): int {
    if spans == [] then 0
    else
      var s := spans[|spans| - 1];
      Growth(spans[..|spans| - 1]) + GrowthOf(s)
  }

  lemma {:induction false} GrowthAppend(a: seq<Span>, b: seq<Span>)
    ensures Growth(a + b) == Growth(a) + Growth(b)
  {
    if b == [] {
      assert a + b == a;
    } else {
      assert (a + b)[..|a + b| - 1] == a + b[..|b| - 1];
      GrowthAppend(a, b[..|b| - 1]);
    }
  }

  function GrowthOf(s: Span): int {
    |s.replace| - (s.end - s.start)
  }

  lemma GrowthHead(s: Span, rest: seq<Span>)
    ensures Growth([s] + rest) == GrowthOf(s) + Growth(rest)
  {
    GrowthAppend([s], rest);
    assert [s][..0] == [];
  }

  lemma GrowthAround(before: seq<Span>, s: Span, after: seq<Span>)
    ensures Growth(before + ([s] + after)) == Growth(before + after) + GrowthOf(s)
  {
    GrowthAppend(before, [s] + after);
    GrowthHead(s, after);
    GrowthAppend(before, after);
  }

  lemma SplitAt<T>(s: seq<T>, k: nat)
    requires k < |s|
    ensures s == s[..k] + ([s[k]] + s[k + 1..])
  {
  }

  lemma GrowthTake(a: seq<Span>, k: nat)
    requires k < |a|
    ensures Growth(a) == Growth(a[..k] + a[k + 1..]) + GrowthOf(a[k])
  {
    GrowthAround(a[..k], a[k], a[k + 1..]);
    SplitAt(a, k);
  }

  lemma RemoveHead<T>(s: seq<T>)
    requires s != []
    ensures multiset(s[1..]) == multiset(s) - multiset{s[0]}
  {
    assert s == [s[0]] + s[1..];
  }

  lemma Without<T>(a: seq<T>, b: seq<T>) returns (k: nat)
    requires multiset(a) == multiset(b) && a != []
    ensures k < |b| && b[k] == a[0] && multiset(a[1..]) == multiset(b[..k] + b[k + 1..])
  {
    assert a[0] in multiset(b);
    k :| 0 <= k < |b| && b[k] == a[0];
    RemoveAt(b, k);
    RemoveHead(a);
  }

  /** Growth does not depend on the order. */
  lemma {:induction false} GrowthPermutes(a: seq<Span>, b: seq<Span>)
    requires multiset(a) == multiset(b)
    ensures Growth(a) == Growth(b)
    decreases |a|
  {
    if a == [] {
      assert |b| == |multiset(b)| == |multiset(a)| == 0;
    } else {
      var k := Without(a, b);
      GrowthPermutes(a[1..], b[..k] + b[k + 1..]);
      GrowthHead(a[0], a[1..]);
      assert [a[0]] + a[1..] == a;
      GrowthTake(b, k);
    }
  }

  lemma RemoveAt<T>(s: seq<T>, k: nat)
    requires k < |s|
    ensures multiset(s[..k] + s[k + 1..]) == multiset(s) - multiset{s[k]}
  {
    assert s == s[..k] + [s[k]] + s[k + 1..];
  }

  /** The length of the splice is the text's length plus the growth. */
  lemma {:induction false} BuildLength(text: string, pos: nat, spans: seq<Span>)
    requires pos <= |text| && AllGood(text, spans) && NeighboursApart(spans)
    requires spans != [] ==> pos <= spans[0].start
    ensures |Build(text, pos, spans)| == |text| - pos + Growth(spans)
    decreases |spans|
  {
    if spans != [] {
      var first, rest := spans[0], spans[1..];
      BuildLength(text, first.end, rest);
      GrowthHead(first, rest);
      assert [first] + rest == spans;
      BuildHead(text, pos, spans);
    }
  }

  lemma BuildHead(text: string, pos: nat, spans: seq<Span>)
    requires pos <= |text| && AllGood(text, spans) && NeighboursApart(spans)
    requires spans != [] && pos <= spans[0].start
    ensures |Build(text, pos, spans)|
              == spans[0].start - pos + |spans[0].replace| + |Build(text, spans[0].end, spans[1..])|
  {
  }

  // ----- the loops -----------------------------------------------------------------------

  /** Sorting, by insertion: whatever the order of equal spans, the result is sorted and holds
      the same spans. */
  method Sort(spans: seq<Span>) returns (sorted: seq<Span>)
    ensures Sorted(sorted) && multiset(sorted) == multiset(spans)
  {
    sorted := [];
    for k := 0 to |spans|
      invariant Sorted(sorted) && multiset(sorted) == multiset(spans[..k])
    {
      assert spans[..k + 1] == spans[..k] + [spans[k]];
      sorted := Insert(sorted, spans[k]);
    }
    assert spans[..|spans|] == spans;
  }

  method Insert(spans: seq<Span>, s: Span) returns (r: seq<Span>)
    requires Sorted(spans)
    ensures Sorted(r) && multiset(r) == multiset(spans) + multiset{s}
  {
    var k := |spans|;
    while k > 0 && !Before(spans[k - 1], s)
      invariant 0 <= k <= |spans|
      invariant forall i :: k <= i < |spans| ==> Before(s, spans[i])
    {
      k := k - 1;
    }
    InsertAt(spans, k, s);
    r := spans[..k] + [s] + spans[k..];
  }

  lemma InsertAt(spans: seq<Span>, k: nat, s: Span)
    requires Sorted(spans) && k <= |spans|
    requires (k > 0 ==> Before(spans[k - 1], s)) && forall i :: k <= i < |spans| ==> Before(s, spans[i])
    ensures Sorted(spans[..k] + [s] + spans[k..])
    ensures multiset(spans[..k] + [s] + spans[k..]) == multiset(spans) + multiset{s}
  {
    assert spans == spans[..k] + spans[k..];
    forall i | 0 <= i < k
      ensures Before(spans[i], s)
    {
      assert i < k - 1 ==> Before(spans[i], spans[k - 1]);
    }
  }

  /** Whether some span starts before its predecessor ends. */
  method HasConflict(spans: seq<Span>) returns (conflict: bool)
    ensures conflict <==> !NeighboursApart(spans)
  {
    var i := 1;
    while i < |spans|
      invariant 1 <= i && forall k :: 0 < k < i && k < |spans| ==> spans[k - 1].end <= spans[k].start
    {
      if spans[i].start < spans[i - 1].end {
        return true;
      }
      i := i + 1;
    }
    return false;
  }

  method Splice(text: string, spans: seq<Span>) returns (updated: string)
    requires AllGood(text, spans) && NeighboursApart(spans)
    ensures updated == Build(text, 0, spans)
  {
    updated := "";
    var position: nat := 0;
    for k := 0 to |spans|
      invariant position <= |text| && (k < |spans| ==> position <= spans[k].start)
      invariant updated + Build(text, position, spans[k..]) == Build(text, 0, spans)
    {
      var span := spans[k];
      assert spans[k..][1..] == spans[k + 1..] && spans[k..][0] == span;
      SpliceStep(updated, text[position..span.start], span.replace, Build(text, span.end, spans[k + 1..]));
      updated := updated + text[position..span.start] + span.replace;
      position := span.end;
    }
    updated := updated + text[position..];
  }

  lemma SpliceStep(a: string, b: string, c: string, d: string)
    ensures a + (b + (c + d)) == a + b + c + d
  {
  }
}
