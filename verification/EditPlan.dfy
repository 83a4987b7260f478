/** Planning a set of exact edits against one snapshot of a text, and applying them
    (internal/textfile/edit.go, internal/textfile/codec.go). */
module EditPlan {
  import opened Basics
  import opened Search
  import opened EditSpans
  import Indentation

  datatype Mode = Once | All | OtherMode

  /** validUtf8 says whether target and replacement are valid UTF-8. */
  datatype Edit = Edit(target: string, replacement: string, mode: Mode, adapt: bool,
                       indentation: Indentation.Indent, validUtf8: bool)

  datatype Limits = Limits(maxEdits: nat, maxMatches: nat, maxDecodedBytes: nat)

  datatype Problem = TooManyEdits | InvalidOptions | InvalidEncoding | NotFound | AmbiguousMatch
                   | TooLarge | EditConflict | Binary

  datatype Check = Fine | Wrong(problem: Problem)

  datatype Outcome = Planned(text: string, replacements: seq<nat>) | Failed(problem: Problem)

  // ----- control characters ----------------------------------------------------------------

  /** The character that starts at byte i is a control character other than tab and line breaks;
      in UTF-8 the upper control characters are the byte C2 followed by one of 80 to 9F. */
  predicate ControlAt(s: string, i: nat)
    requires i < |s|
  {
    var c := s[i] as int;
    || (c < 0x20 && s[i] != '\t' && s[i] != '\n' && s[i] != '\r')
    || c == 0x7f
    || (c == 0xc2 && i + 1 < |s| && 0x80 <= s[i + 1] as int <= 0x9f)
  }

  predicate IsBinary(s: string) {
    exists i :: 0 <= i < |s| && ControlAt(s, i)
  }

  method HasControl(s: string) returns (binary: bool)
    ensures binary <==> IsBinary(s)
  {
    for i := 0 to |s|
      invariant forall k :: 0 <= k < i ==> !ControlAt(s, k)
    {
      if ControlAt(s, i) {
        return true;
      }
    }
    return false;
  }

  // ----- the plan ----------------------------------------------------------------------------

  function SpanOf(text: string, e: Edit, start: nat): Span
    requires start <= |text|
  {
    Span(start, start + |e.target|,
         if e.adapt then Indentation.Adapted(text, start, e.replacement, e.indentation) else e.replacement)
  }

  predicate Within(text: string, starts: seq<nat>) {
    forall i :: 0 <= i < |starts| ==> starts[i] <= |text|
  }

  function SpansAt(text: string, e: Edit, starts: seq<nat>): seq<Span>
    requires Within(text, starts)
  {
    seq(|starts|, i requires 0 <= i < |starts| => SpanOf(text, e, starts[i]))
  }

  lemma MatchesWithin(text: string, target: string)
    requires target != ""
    ensures Within(text, Matches(text, target, 0))
  {
    MatchesOccur(text, target, 0);
  }

  /** The spans one edit targets. */
  function SpansOf(text: string, e: Edit): seq<Span> {
    if e.target == "" then []
    else
      MatchesWithin(text, e.target);
      SpansAt(text, e, Matches(text, e.target, 0))
  }

  /** The lists that f gives, one after the other. */
  function Flat<T, U>(xs: seq<T>, f: T -> seq<U>): seq<U> {
    if xs == [] then [] else Flat(xs[..|xs| - 1], f) + f(xs[|xs| - 1])
  }

  function SpansIn(text: string): Edit -> seq<Span> {
    e => SpansOf(text, e)
  }

  /** The spans of all edits, in order. */
  function AllSpans(text: string, edits: seq<Edit>): seq<Span> {
    Flat(edits, SpansIn(text))
  }

  function CheckEdit(text: string, e: Edit, total: nat, limits: Limits): Check {
    if e.target == "" then Wrong(InvalidOptions)
    else if !e.validUtf8 then Wrong(InvalidEncoding)
    else if e.mode == OtherMode then Wrong(InvalidOptions)
    else
      var found := |Matches(text, e.target, 0)|;
      if found == 0 then Wrong(NotFound)
      else if e.mode == Once && found != 1 then Wrong(AmbiguousMatch)
      else if total + found > limits.maxMatches then Wrong(TooManyEdits)
      else Fine
  }

  /** The first edit that cannot be planned decides. */
  function CheckAll(text: string, edits: seq<Edit>, limits: Limits): Check {
    if edits == [] then Fine
    else
      var before := edits[..|edits| - 1];
      if CheckAll(text, before, limits) != Fine then CheckAll(text, before, limits)
      else CheckEdit(text, edits[|edits| - 1], |AllSpans(text, before)|, limits)
  }

  ghost function SpanSet(spans: seq<Span>): set<Span> {
    set s | s in spans
  }

  function Counts(text: string, edits: seq<Edit>): seq<nat> {
    seq(|edits|, i requires 0 <= i < |edits| => |SpansOf(text, edits[i])|)
  }

  lemma SpansOfGood(text: string, e: Edit)
    ensures AllGood(text, SpansOf(text, e))
  {
    if e.target != "" {
      MatchesOccur(text, e.target, 0);
    }
  }

  lemma {:induction false} AllSpansGood(text: string, edits: seq<Edit>)
    ensures AllGood(text, AllSpans(text, edits))
    ensures GoodSet(text, SpanSet(AllSpans(text, edits)))
  {
    if edits != [] {
      AllSpansGood(text, edits[..|edits| - 1]);
      SpansOfGood(text, edits[|edits| - 1]);
    }
  }

  /** All spans replaced at once. */
  ghost function Edited(text: string, edits: seq<Edit>): string {
    AllSpansGood(text, edits);
    Replace(text, 0, SpanSet(AllSpans(text, edits)))
  }

  /** What planning a set of edits comes to: the errors in the order they are found, otherwise
      the simultaneous replacement. */
  ghost function Plan(text: string, edits: seq<Edit>, limits: Limits): Outcome {
    if |edits| > limits.maxEdits then Failed(TooManyEdits)
    else if edits == [] then Planned(text, [])
    else
      var check, spans := CheckAll(text, edits, limits), AllSpans(text, edits);
      if check != Fine then Failed(check.problem)
      else if |text| + Growth(spans) < 0 || |text| + Growth(spans) > limits.maxDecodedBytes then Failed(TooLarge)
      else if !PairwiseApart(spans) then Failed(EditConflict)
      else if IsBinary(Edited(text, edits)) then Failed(Binary)
      else Planned(Edited(text, edits), Counts(text, edits))
  }

  // ----- acceptance does not depend on the order ---------------------------------------------

  /** An edit on its own is usable: valid, with at least one match, and exactly one for Once. */
  predicate Usable(text: string, e: Edit) {
    && e.target != "" && e.validUtf8 && e.mode != OtherMode
    && |Matches(text, e.target, 0)| >= 1
    && (e.mode == Once ==> |Matches(text, e.target, 0)| == 1)
  }

  predicate AllUsable(text: string, edits: seq<Edit>) {
    forall e :: e in edits ==> Usable(text, e)
  }

  lemma UsableLast(text: string, before: seq<Edit>, last: Edit)
    ensures AllUsable(text, before + [last]) <==> AllUsable(text, before) && Usable(text, last)
  {
    var edits := before + [last];
    assert last in edits && forall e :: e in before ==> e in edits;
  }

  /** When a non-empty edit set is accepted, without any order among the edits or the spans. */
  ghost predicate Accepts(text: string, edits: seq<Edit>, limits: Limits) {
    && |edits| <= limits.maxEdits
    && AllUsable(text, edits)
    && |AllSpans(text, edits)| <= limits.maxMatches
    && Disjoint(multiset(AllSpans(text, edits)))
    && |Edited(text, edits)| <= limits.maxDecodedBytes
    && !IsBinary(Edited(text, edits))
  }

  lemma CheckEditMeans(text: string, e: Edit, total: nat, limits: Limits)
    ensures CheckEdit(text, e, total, limits) == Fine
            <==> Usable(text, e) && total + |SpansOf(text, e)| <= limits.maxMatches
  {
  }

  lemma {:induction false} CheckAllMeans(text: string, edits: seq<Edit>, limits: Limits)
    ensures CheckAll(text, edits, limits) == Fine
            <==> AllUsable(text, edits) && (edits != [] ==> |AllSpans(text, edits)| <= limits.maxMatches)
  {
    if edits != [] {
      var before, last := edits[..|edits| - 1], edits[|edits| - 1];
      CheckAllMeans(text, before, limits);
      CheckEditMeans(text, last, |AllSpans(text, before)|, limits);
      UsableLast(text, before, last);
      assert edits == before + [last];
      assert |AllSpans(text, edits)| == |AllSpans(text, before)| + |SpansOf(text, last)|;
    }
  }

  /** The tracked output length is the length of the result. */
  lemma EditedLength(text: string, edits: seq<Edit>)
    requires PairwiseApart(AllSpans(text, edits))
    ensures |Edited(text, edits)| == |text| + Growth(AllSpans(text, edits))
  {
    var spans := AllSpans(text, edits);
    AllSpansGood(text, edits);
    var sorted := SortedSpans(spans);
    SpliceIsEdited(text, edits, sorted);
    BuildLength(text, 0, sorted);
    GrowthPermutes(spans, sorted);
  }

  /** Some sorted rearrangement exists. */
  lemma {:induction false} SortedSpans(spans: seq<Span>) returns (sorted: seq<Span>)
    ensures Sorted(sorted) && multiset(sorted) == multiset(spans)
  {
    if spans == [] {
      sorted := [];
    } else {
      var rest := SortedSpans(spans[1..]);
      sorted := Inserted(rest, spans[0]);
      assert spans == [spans[0]] + spans[1..];
    }
  }

  lemma AppendLast(rest: seq<Span>, s: Span, before: seq<Span>, last: Span)
    requires Sorted(rest + [last]) && Sorted(before) && multiset(before) == multiset(rest) + multiset{s}
    requires Before(s, last)
    ensures Sorted(before + [last])
  {
    forall i | 0 <= i < |before|
      ensures Before(before[i], last)
    {
      assert before[i] in multiset(before);
      if before[i] != s {
        assert before[i] in rest;
        var j :| 0 <= j < |rest| && rest[j] == before[i];
        assert Before((rest + [last])[j], (rest + [last])[|rest|]);
      }
    }
  }

  lemma {:induction false} Inserted(spans: seq<Span>, s: Span) returns (r: seq<Span>)
    requires Sorted(spans)
    ensures Sorted(r) && multiset(r) == multiset(spans) + multiset{s}
  {
    if spans == [] || Before(spans[|spans| - 1], s) {
      r := spans + [s];
    } else {
      var rest, last := spans[..|spans| - 1], spans[|spans| - 1];
      var before := Inserted(rest, s);
      assert spans == rest + [last];
      AppendLast(rest, s, before, last);
      r := before + [last];
    }
  }

  /** The planner's splice of any sorted rearrangement is the simultaneous replacement. */
  lemma SpliceIsEdited(text: string, edits: seq<Edit>, sorted: seq<Span>)
    requires Sorted(sorted) && multiset(sorted) == multiset(AllSpans(text, edits))
    requires PairwiseApart(AllSpans(text, edits))
    ensures AllGood(text, sorted) && NeighboursApart(sorted)
    ensures Build(text, 0, sorted) == Edited(text, edits)
  {
    var spans := AllSpans(text, edits);
    AllSpansGood(text, edits);
    SameGood(text, spans, sorted);
    DisjointIsPairwise(text, spans);
    DisjointIsPairwise(text, sorted);
    NeighboursSuffice(text, sorted);
    SameSet(spans, sorted);
    BuildReplaces(text, 0, sorted, SpanSet(spans));
  }

  lemma SameMembers<T>(a: seq<T>, b: seq<T>, x: T)
    requires multiset(a) == multiset(b)
    ensures x in a <==> x in b
  {
    assert x in a <==> x in multiset(a);
    assert x in b <==> x in multiset(b);
  }

  lemma SameGood(text: string, a: seq<Span>, b: seq<Span>)
    requires AllGood(text, a) && multiset(a) == multiset(b)
    ensures AllGood(text, b)
  {
    forall i | 0 <= i < |b|
      ensures Good(text, b[i])
    {
      SameMembers(a, b, b[i]);
    }
  }

  lemma SameSet(a: seq<Span>, b: seq<Span>)
    requires multiset(a) == multiset(b)
    ensures Remaining(0, b, SpanSet(a))
    ensures SpanSet(a) == SpanSet(b)
  {
    forall s
      ensures s in a <==> s in b
    {
      SameMembers(a, b, s);
    }
  }

  /** A plan succeeds exactly when the order-free condition holds, and then its text is the
      simultaneous replacement of pairwise disjoint spans, within the limit. */
  lemma PlanAccepts(text: string, edits: seq<Edit>, limits: Limits)
    requires edits != []
    ensures Plan(text, edits, limits).Planned? <==> Accepts(text, edits, limits)
    ensures Accepts(text, edits, limits) ==> Plan(text, edits, limits).text == Edited(text, edits)
  {
    var spans := AllSpans(text, edits);
    CheckAllMeans(text, edits, limits);
    AllSpansGood(text, edits);
    DisjointIsPairwise(text, spans);
    if PairwiseApart(spans) {
      EditedLength(text, edits);
    }
  }

  lemma FlatLast<T, U>(before: seq<T>, last: T, f: T -> seq<U>)
    ensures Flat(before + [last], f) == Flat(before, f) + f(last)
  {
    assert (before + [last])[..|before|] == before;
  }

  lemma FlatEnd<T, U>(a: seq<T>, b: seq<T>, f: T -> seq<U>)
    requires b != []
    ensures Flat(a + b, f) == Flat(a + b[..|b| - 1], f) + f(b[|b| - 1])
  {
    assert (a + b)[..|a + b| - 1] == a + b[..|b| - 1];
  }

  lemma {:induction false} FlatAppend<T, U>(a: seq<T>, b: seq<T>, f: T -> seq<U>)
    ensures Flat(a + b, f) == Flat(a, f) + Flat(b, f)
  {
    if b == [] {
      assert a + b == a;
    } else {
      FlatAppend(a, b[..|b| - 1], f);
      FlatEnd(a, b, f);
      Associate(Flat(a, f), Flat(b[..|b| - 1], f), f(b[|b| - 1]));
    }
  }

  lemma FlatOne<T, U>(x: T, f: T -> seq<U>)
    ensures Flat([x], f) == f(x)
  {
    FlatLast([], x, f);
    assert [] + [x] == [x];
  }

  lemma FlatWithout<T, U>(xs: seq<T>, k: nat, f: T -> seq<U>)
    requires k < |xs|
    ensures multiset(Flat(xs, f)) == multiset(Flat(xs[..k] + xs[k + 1..], f)) + multiset(f(xs[k]))
  {
    SplitAt(xs, k);
    FlatAppend(xs[..k], [xs[k]] + xs[k + 1..], f);
    FlatAppend([xs[k]], xs[k + 1..], f);
    FlatOne(xs[k], f);
    FlatAppend(xs[..k], xs[k + 1..], f);
  }

  lemma FlatHead<T, U>(xs: seq<T>, f: T -> seq<U>)
    requires xs != []
    ensures multiset(Flat(xs, f)) == multiset(Flat(xs[1..], f)) + multiset(f(xs[0]))
  {
    FlatWithout(xs, 0, f);
    assert xs[..0] + xs[1..] == xs[1..];
  }

  /** Permuting the list permutes what is collected from it. */
  lemma {:induction false} FlatPermutes<T, U>(a: seq<T>, b: seq<T>, f: T -> seq<U>)
    requires multiset(a) == multiset(b)
    ensures multiset(Flat(a, f)) == multiset(Flat(b, f))
    decreases |a|
  {
    if a == [] {
      assert |b| == |multiset(b)| == |multiset(a)| == 0;
    } else {
      var k := Without(a, b);
      FlatPermutes(a[1..], b[..k] + b[k + 1..], f);
      FlatHead(a, f);
      FlatWithout(b, k, f);
    }
  }

  /** Permuting the edits changes neither success nor the result. */
  lemma PlanPermutes(text: string, a: seq<Edit>, b: seq<Edit>, limits: Limits)
    requires multiset(a) == multiset(b)
    ensures Plan(text, a, limits).Planned? <==> Plan(text, b, limits).Planned?
    ensures Plan(text, a, limits).Planned? ==> Plan(text, a, limits).text == Plan(text, b, limits).text
  {
    assert |a| == |multiset(a)| && |b| == |multiset(b)|;
    if a != [] {
      FlatPermutes(a, b, SpansIn(text));
      var s, t := AllSpans(text, a), AllSpans(text, b);
      assert |s| == |multiset(s)| && |t| == |multiset(t)|;
      SameSet(s, t);
      forall e
        ensures e in a <==> e in b
      {
        SameMembers(a, b, e);
      }
      PlanAccepts(text, a, limits);
      PlanAccepts(text, b, limits);
    }
  }

  // ----- the planner ---------------------------------------------------------------------------

  lemma GrowthPush(spans: seq<Span>, s: Span)
    ensures Growth(spans + [s]) == Growth(spans) + GrowthOf(s)
  {
    assert (spans + [s])[..|spans|] == spans;
  }

  lemma TakePush<T>(s: seq<T>, k: nat, before: seq<T>)
    requires k < |s|
    ensures before + s[..k + 1] == before + s[..k] + [s[k]]
  {
  }

  method MakeSpan(text: string, e: Edit, start: nat) returns (span: Span)
    requires start <= |text|
    ensures span == SpanOf(text, e, start)
  {
    var replacement := e.replacement;
    if e.adapt {
      replacement := Indentation.AdaptReplacementIndentation(text, start, replacement, e.indentation);
    }
    span := Span(start, start + |e.target|, replacement);
  }

  /** The spans of one edit's matches, appended in order with the running output length. */
  method AddSpans(text: string, e: Edit, starts: seq<nat>, spans: seq<Span>, outputLength: int)
    returns (longer: seq<Span>, length: int)
    requires e.target != "" && Within(text, starts)
    requires outputLength == |text| + Growth(spans)
    ensures longer == spans + SpansAt(text, e, starts) && length == |text| + Growth(longer)
  {
    longer, length := spans, outputLength;
    ghost var all := SpansAt(text, e, starts);
    for k := 0 to |starts|
      invariant longer == spans + all[..k]
      invariant length == |text| + Growth(longer)
    {
      var span := MakeSpan(text, e, starts[k]);
      GrowthPush(longer, span);
      TakePush(all, k, spans);
      length := length + |span.replace| - |e.target|;
      longer := longer + [span];
    }
    assert all[..|starts|] == all;
  }

  /** One edit: its problem, or its spans added. */
  method PlanEdit(text: string, e: Edit, limits: Limits, spans: seq<Span>, outputLength: int)
    returns (check: Check, longer: seq<Span>, length: int)
    requires |spans| <= limits.maxMatches && outputLength == |text| + Growth(spans)
    ensures check == CheckEdit(text, e, |spans|, limits)
    ensures check == Fine ==> longer == spans + SpansOf(text, e) && length == |text| + Growth(longer)
  {
    longer, length := spans, outputLength;
    if e.target == "" {
      return Wrong(InvalidOptions), longer, length;
    }
    if !e.validUtf8 {
      return Wrong(InvalidEncoding), longer, length;
    }
    if e.mode == OtherMode {
      return Wrong(InvalidOptions), longer, length;
    }
    var matchLimit := 2;
    if e.mode == All {
      matchLimit := limits.maxMatches - |spans| + 1;
    }
    var matches := LiteralMatches(text, e.target, matchLimit);
    if |matches| == 0 {
      return Wrong(NotFound), longer, length;
    }
    if e.mode == Once && |matches| != 1 {
      return Wrong(AmbiguousMatch), longer, length;
    }
    if |spans| + |matches| > limits.maxMatches {
      return Wrong(TooManyEdits), longer, length;
    }
    check := Fine;
    MatchesWithin(text, e.target);
    longer, length := AddSpans(text, e, matches, spans, outputLength);
  }

  lemma CheckNext(text: string, edits: seq<Edit>, i: nat, limits: Limits)
    requires i < |edits| && CheckAll(text, edits[..i], limits) == Fine
    ensures CheckAll(text, edits[..i + 1], limits)
              == CheckEdit(text, edits[i], |AllSpans(text, edits[..i])|, limits)
    ensures AllSpans(text, edits[..i + 1]) == AllSpans(text, edits[..i]) + SpansOf(text, edits[i])
  {
    assert edits[..i + 1][..i] == edits[..i];
  }

  lemma CountsPush(text: string, edits: seq<Edit>, i: nat, spans: seq<Span>, longer: seq<Span>)
    requires i < |edits| && longer == spans + SpansOf(text, edits[i])
    ensures Counts(text, edits)[..i + 1] == Counts(text, edits)[..i] + [|longer| - |spans|]
  {
  }

  lemma WholePrefix<T>(s: seq<T>)
    ensures s[..|s|] == s
  {
  }

  method PlanAll(text: string, edits: seq<Edit>, limits: Limits)
    returns (check: Check, spans: seq<Span>, counts: seq<nat>, outputLength: int)
    ensures check == CheckAll(text, edits, limits)
    ensures check == Fine ==> && spans == AllSpans(text, edits) && counts == Counts(text, edits)
                              && outputLength == |text| + Growth(spans)
  {
    check, spans, counts, outputLength := Fine, [], [], |text|;
    for i := 0 to |edits|
      invariant check == Fine == CheckAll(text, edits[..i], limits)
      invariant spans == AllSpans(text, edits[..i]) && |spans| <= limits.maxMatches
      invariant outputLength == |text| + Growth(spans)
      invariant counts == Counts(text, edits)[..i]
    {
      CheckNext(text, edits, i, limits);
      var longer, length;
      check, longer, length := PlanEdit(text, edits[i], limits, spans, outputLength);
      if check != Fine {
        CheckPrefix(text, edits, i + 1, limits);
        return;
      }
      CountsPush(text, edits, i, spans, longer);
      counts := counts + [|longer| - |spans|];
      spans, outputLength := longer, length;
    }
    WholePrefix(edits);
    WholePrefix(Counts(text, edits));
  }

  method PlanEdits(text: string, edits: seq<Edit>, limits: Limits) returns (r: Outcome)
    ensures r == Plan(text, edits, limits)
  {
    if |edits| > limits.maxEdits {
      return Failed(TooManyEdits);
    }
    if |edits| == 0 {
      return Planned(text, []);
    }
    var check, spans, counts, outputLength := PlanAll(text, edits, limits);
    if check != Fine {
      return Failed(check.problem);
    }
    if outputLength < 0 || outputLength > limits.maxDecodedBytes {
      return Failed(TooLarge);
    }
    r := FinishPlan(text, edits, spans, counts);
  }

  /** A failed prefix fails the whole list. */
  lemma {:induction false} CheckPrefix(text: string, edits: seq<Edit>, k: nat, limits: Limits)
    requires k <= |edits| && CheckAll(text, edits[..k], limits) != Fine
    ensures CheckAll(text, edits, limits) == CheckAll(text, edits[..k], limits)
    decreases |edits|
  {
    if k < |edits| {
      var before := edits[..|edits| - 1];
      assert before[..k] == edits[..k];
      CheckPrefix(text, before, k, limits);
    } else {
      assert edits[..k] == edits;
    }
  }

  /** Sort, check neighbours, splice, and reject control characters. */
  method FinishPlan(text: string, edits: seq<Edit>, spans: seq<Span>, counts: seq<nat>) returns (r: Outcome)
    requires spans == AllSpans(text, edits)
    ensures r == if !PairwiseApart(spans) then Failed(EditConflict)
                 else if IsBinary(Edited(text, edits)) then Failed(Binary)
                 else Planned(Edited(text, edits), counts)
  {
    var sorted := Sort(spans);
    AllSpansGood(text, edits);
    SameGood(text, spans, sorted);
    DisjointIsPairwise(text, spans);
    DisjointIsPairwise(text, sorted);
    NeighboursSuffice(text, sorted);
    var conflict := HasConflict(sorted);
    if conflict {
      return Failed(EditConflict);
    }
    var updated := Splice(text, sorted);
    SpliceIsEdited(text, edits, sorted);
    var binary := HasControl(updated);
    if binary {
      return Failed(Binary);
    }
    return Planned(updated, counts);
  }

  /** An open text file: the text changes only when the whole edit set succeeds. */
  class File {
    var text: string
    const limits: Limits

    constructor (text: string, limits: Limits)
      ensures this.text == text && this.limits == limits
    {
      this.text := text;
      this.limits := limits;
    }

    method Apply(edits: seq<Edit>) returns (r: Outcome)
      modifies this
      ensures r == Plan(old(text), edits, limits)
      ensures text == if r.Planned? then r.text else old(text)
    {
      r := PlanEdits(text, edits, limits);
      if r.Planned? {
        text := r.text;
      }
    }
  }
}
