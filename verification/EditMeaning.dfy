/** What a planned edit set does, stated on occurrences, targets and replacements alone
    (internal/textfile/edit.go). */
module EditMeaning {
  import opened Basics
  import opened Search
  import opened EditSpans
  import opened EditPlan
  import Indentation

  // ----- the sites of an edit set --------------------------------------------------------------

  /** Where an edit applies: its matches from left to right. */
  function Sites(text: string, e: Edit): seq<nat> {
    if e.target == "" then [] else Matches(text, e.target, 0)
  }

  /** The text an edit writes at a site. */
  function Written(text: string, e: Edit, p: nat): string
    requires p <= |text|
  {
    if e.adapt then Indentation.Adapted(text, p, e.replacement, e.indentation) else e.replacement
  }

  /** The k-th edit applies at p. */
  predicate SiteOf(text: string, edits: seq<Edit>, k: int, p: nat) {
    0 <= k < |edits| && p in Sites(text, edits[k]) && p + |edits[k].target| <= |text|
  }

  predicate Clear(edits: seq<Edit>, k: nat, p: nat, l: nat, q: nat)
    requires k < |edits| && l < |edits|
  {
    p + |edits[k].target| <= q || q + |edits[l].target| <= p
  }

  /** No two sites share a byte. */
  ghost predicate SitesApart(text: string, edits: seq<Edit>) {
    forall k, p, l, q :: SiteOf(text, edits, k, p) && SiteOf(text, edits, l, q) && (k != l || p != q)
                         ==> Clear(edits, k, p, l, q)
  }

  /** The replacement of the k-th edit at p. */
  function Put(text: string, e: Edit, p: nat): Span
    requires p + |e.target| <= |text|
  {
    Span(p, p + |e.target|, Written(text, e, p))
  }

  ghost function Replacements(text: string, edits: seq<Edit>): set<Span> {
    set k, p | 0 <= k < |edits| && p in Sites(text, edits[k]) && p + |edits[k].target| <= |text|
      :: Put(text, edits[k], p)
  }

  function Total(text: string, edits: seq<Edit>): nat {
    if edits == [] then 0 else Total(text, edits[..|edits| - 1]) + |Sites(text, edits[|edits| - 1])|
  }

  lemma SitesFit(text: string, e: Edit)
    ensures forall i :: 0 <= i < |Sites(text, e)| ==> Sites(text, e)[i] + |e.target| <= |text|
    ensures forall i, j :: 0 <= i < j < |Sites(text, e)| ==> Sites(text, e)[i] + |e.target| <= Sites(text, e)[j]
  {
    if e.target != "" {
      MatchesOccur(text, e.target, 0);
    }
  }

  /** An edit's spans are its replacements at its sites. */
  lemma SpansAreSites(text: string, e: Edit)
    ensures var spans, sites := SpansOf(text, e), Sites(text, e);
            && |spans| == |sites|
            && forall i :: 0 <= i < |sites| ==> sites[i] + |e.target| <= |text| && spans[i] == Put(text, e, sites[i])
  {
    SitesFit(text, e);
  }

  lemma {:induction false} AllSpansTotal(text: string, edits: seq<Edit>)
    ensures |AllSpans(text, edits)| == Total(text, edits)
  {
    if edits != [] {
      AllSpansTotal(text, edits[..|edits| - 1]);
      SpansAreSites(text, edits[|edits| - 1]);
    }
  }

  ghost predicate IsPut(text: string, edits: seq<Edit>, s: Span) {
    exists k, p :: SiteOf(text, edits, k, p) && s == Put(text, edits[k], p)
  }

  lemma {:induction false} AllSpansAre(text: string, edits: seq<Edit>, s: Span)
    ensures s in AllSpans(text, edits) <==> IsPut(text, edits, s)
  {
    if edits != [] {
      var before, last := edits[..|edits| - 1], edits[|edits| - 1];
      AllSpansAre(text, before, s);
      SpansAreSites(text, last);
      var spans, sites := SpansOf(text, last), Sites(text, last);
      if s in spans {
        var i :| 0 <= i < |spans| && spans[i] == s;
        assert SiteOf(text, edits, |edits| - 1, sites[i]);
      }
      if IsPut(text, before, s) {
        var k, p :| SiteOf(text, before, k, p) && s == Put(text, before[k], p);
        assert SiteOf(text, edits, k, p) && edits[k] == before[k];
      }
      if IsPut(text, edits, s) {
        var k, p :| SiteOf(text, edits, k, p) && s == Put(text, edits[k], p);
        if k < |before| {
          assert SiteOf(text, before, k, p) && before[k] == edits[k];
        } else {
          var i :| 0 <= i < |sites| && sites[i] == p;
          assert spans[i] == s;
        }
      }
    }
  }

  lemma SetIsReplacements(text: string, edits: seq<Edit>)
    ensures SpanSet(AllSpans(text, edits)) == Replacements(text, edits)
  {
    forall s
      ensures s in AllSpans(text, edits) <==> s in Replacements(text, edits)
    {
      AllSpansAre(text, edits, s);
      if s in Replacements(text, edits) {
        var k, p :| 0 <= k < |edits| && p in Sites(text, edits[k]) && p + |edits[k].target| <= |text|
                    && s == Put(text, edits[k], p);
        assert SiteOf(text, edits, k, p);
      }
    }
  }

  // ----- apart -----------------------------------------------------------------------------------

  /** The last edit's sites are clear of all earlier ones. */
  ghost predicate LastClear(text: string, edits: seq<Edit>)
    requires edits != []
  {
    var n := |edits| - 1;
    forall k, p, q :: k < n && SiteOf(text, edits, k, p) && SiteOf(text, edits, n, q) ==> Clear(edits, k, p, n, q)
  }

  lemma SitesApartNext(text: string, edits: seq<Edit>)
    requires edits != []
    ensures SitesApart(text, edits) <==> SitesApart(text, edits[..|edits| - 1]) && LastClear(text, edits)
  {
    var n := |edits| - 1;
    var before := edits[..n];
    SitesFit(text, edits[n]);
    forall k, p
      ensures SiteOf(text, before, k, p) <==> SiteOf(text, edits, k, p) && k < n
    {
    }
    if SitesApart(text, before) && LastClear(text, edits) {
      forall k, p, l, q | SiteOf(text, edits, k, p) && SiteOf(text, edits, l, q) && (k != l || p != q)
        ensures Clear(edits, k, p, l, q)
      {
        if k < n && l < n {
          assert SiteOf(text, before, k, p) && SiteOf(text, before, l, q);
          assert Clear(before, k, p, l, q);
        } else if k == n && l == n {
          SameEditClear(text, edits[n], p, q);
        } else if l == n {
          assert Clear(edits, k, p, n, q);
        } else {
          assert Clear(edits, l, q, n, p);
        }
      }
    }
    if SitesApart(text, edits) {
      forall k, p, l, q | SiteOf(text, before, k, p) && SiteOf(text, before, l, q) && (k != l || p != q)
        ensures Clear(before, k, p, l, q)
      {
        assert Clear(edits, k, p, l, q);
      }
    }
  }

  lemma SameEditClear(text: string, e: Edit, p: nat, q: nat)
    requires p in Sites(text, e) && q in Sites(text, e) && p != q
    ensures p + |e.target| <= q || q + |e.target| <= p
  {
    SitesFit(text, e);
    var sites := Sites(text, e);
    var i :| 0 <= i < |sites| && sites[i] == p;
    var j :| 0 <= j < |sites| && sites[j] == q;
    if i < j {
      assert sites[i] + |e.target| <= sites[j];
    } else {
      assert sites[j] + |e.target| <= sites[i];
    }
  }

  lemma PairwiseAppend(a: seq<Span>, b: seq<Span>)
    ensures PairwiseApart(a + b) <==>
              PairwiseApart(a) && PairwiseApart(b) && forall s, t :: s in a && t in b ==> Apart(s, t)
  {
    var c := a + b;
    if PairwiseApart(c) {
      forall i, j | 0 <= i < j < |a|
        ensures Apart(a[i], a[j])
      {
        assert Apart(c[i], c[j]);
      }
      forall i, j | 0 <= i < j < |b|
        ensures Apart(b[i], b[j])
      {
        assert Apart(c[|a| + i], c[|a| + j]);
      }
      forall s, t | s in a && t in b
        ensures Apart(s, t)
      {
        var i :| 0 <= i < |a| && a[i] == s;
        var j :| 0 <= j < |b| && b[j] == t;
        assert Apart(c[i], c[|a| + j]);
      }
    } else {
      assert !(PairwiseApart(a) && PairwiseApart(b) && forall s, t :: s in a && t in b ==> Apart(s, t)) by {
        var i, j :| 0 <= i < j < |c| && !Apart(c[i], c[j]);
        if j < |a| {
          assert c[i] == a[i] && c[j] == a[j];
        } else if i >= |a| {
          assert c[i] == b[i - |a|] && c[j] == b[j - |a|];
        } else {
          assert c[i] in a && c[j] in b;
        }
      }
    }
  }

  lemma LastClearSpans(text: string, edits: seq<Edit>)
    requires edits != []
    ensures LastClear(text, edits) <==>
              forall s, t :: s in AllSpans(text, edits[..|edits| - 1]) && t in SpansOf(text, edits[|edits| - 1])
                             ==> Apart(s, t)
  {
    var n := |edits| - 1;
    var before, last := edits[..n], edits[n];
    var all, own := AllSpans(text, before), SpansOf(text, last);
    SpansAreSites(text, last);
    if LastClear(text, edits) {
      forall s, t | s in all && t in own
        ensures Apart(s, t)
      {
        AllSpansAre(text, before, s);
        var k, p :| SiteOf(text, before, k, p) && s == Put(text, before[k], p);
        var i :| 0 <= i < |own| && own[i] == t;
        assert SiteOf(text, edits, k, p) && SiteOf(text, edits, n, Sites(text, last)[i]);
        assert Clear(edits, k, p, n, Sites(text, last)[i]);
      }
    }
    if forall s, t :: s in all && t in own ==> Apart(s, t) {
      forall k, p, q | k < n && SiteOf(text, edits, k, p) && SiteOf(text, edits, n, q)
        ensures Clear(edits, k, p, n, q)
      {
        assert SiteOf(text, before, k, p) && before[k] == edits[k];
        AllSpansAre(text, before, Put(text, edits[k], p));
        var i :| 0 <= i < |own| && Sites(text, last)[i] == q;
        assert Apart(Put(text, edits[k], p), own[i]);
      }
    }
  }

  lemma {:induction false} ApartIff(text: string, edits: seq<Edit>)
    ensures PairwiseApart(AllSpans(text, edits)) <==> SitesApart(text, edits)
  {
    if edits != [] {
      var before, last := edits[..|edits| - 1], edits[|edits| - 1];
      ApartIff(text, before);
      SitesApartNext(text, edits);
      PairwiseAppend(AllSpans(text, before), SpansOf(text, last));
      LastClearSpans(text, edits);
      OwnApart(text, last);
    }
  }

  lemma OwnApart(text: string, e: Edit)
    ensures PairwiseApart(SpansOf(text, e))
  {
    SpansAreSites(text, e);
    SitesFit(text, e);
  }

  // ----- the plan, without spans -------------------------------------------------------------------

  lemma ReplacementsGood(text: string, edits: seq<Edit>)
    ensures GoodSet(text, Replacements(text, edits))
  {
    AllSpansGood(text, edits);
    SetIsReplacements(text, edits);
  }

  /** The text with every site replaced at once. */
  ghost function Result(text: string, edits: seq<Edit>): string {
    ReplacementsGood(text, edits);
    Replace(text, 0, Replacements(text, edits))
  }

  /** A plan gives exactly the text in which every edit's target is replaced by its replacement, or its
      re-indented replacement, at each of the edit's sites, with the number of sites of each edit; this if
      and only if every edit is usable, the sites are disjoint, and the limits and the binary check hold. */
  lemma PlannedIff(text: string, edits: seq<Edit>, limits: Limits, planned: string, counts: seq<nat>)
    requires edits != []
    ensures Plan(text, edits, limits) == Planned(planned, counts) <==>
              && |edits| <= limits.maxEdits && AllUsable(text, edits) && Total(text, edits) <= limits.maxMatches
              && SitesApart(text, edits)
              && planned == Result(text, edits) && |planned| <= limits.maxDecodedBytes && !IsBinary(planned)
              && |counts| == |edits| && forall k :: 0 <= k < |edits| ==> counts[k] == |Sites(text, edits[k])|
  {
    PlanAccepts(text, edits, limits);
    AllSpansTotal(text, edits);
    AllSpansGood(text, edits);
    DisjointIsPairwise(text, AllSpans(text, edits));
    ApartIff(text, edits);
    SetIsReplacements(text, edits);
    CountsAre(text, edits);
  }

  lemma CountsAre(text: string, edits: seq<Edit>)
    ensures |Counts(text, edits)| == |edits|
    ensures forall k :: 0 <= k < |edits| ==> Counts(text, edits)[k] == |Sites(text, edits[k])|
  {
    forall k | 0 <= k < |edits|
      ensures Counts(text, edits)[k] == |Sites(text, edits[k])|
    {
      SpansAreSites(text, edits[k]);
    }
  }

  // ----- one plain edit ------------------------------------------------------------------------------

  /** The parts of a list with a separator between neighbours. */
  function JoinWith(parts: seq<string>, separator: string): string {
    if parts == [] then ""
    else if |parts| == 1 then parts[0]
    else parts[0] + separator + JoinWith(parts[1..], separator)
  }

  /** Starts are the occurrences of the target from pos on, each the leftmost after the one before. */
  ghost predicate Leftmost(text: string, target: string, pos: nat, starts: seq<nat>)
    decreases |starts|
  {
    && pos <= |text|
    && if starts == [] then forall q: nat :: q >= pos ==> !OccursAt(text, target, q)
       else && pos <= starts[0] && OccursAt(text, target, starts[0])
            && (forall q: nat :: pos <= q < starts[0] ==> !OccursAt(text, target, q))
            && Leftmost(text, target, starts[0] + |target|, starts[1..])
  }

  lemma {:induction false} MatchesLeftmost(text: string, target: string, pos: nat, offset: nat)
    requires target != "" && pos <= offset && pos <= |text|
    requires forall q: nat :: pos <= q < offset ==> !OccursAt(text, target, q)
    ensures Leftmost(text, target, pos, Matches(text, target, offset))
    decreases |text| - offset
  {
    if offset + |target| <= |text| {
      if text[offset..offset + |target|] == target {
        MatchesLeftmost(text, target, offset + |target|, offset + |target|);
      } else {
        MatchesLeftmost(text, target, pos, offset + 1);
      }
    }
  }

  /** The text from pos on, cut at the starts. */
  ghost function Parts(text: string, target: string, pos: nat, starts: seq<nat>): (parts: seq<string>)
    requires Leftmost(text, target, pos, starts)
    ensures |parts| == |starts| + 1
    decreases |starts|
  {
    if starts == [] then [text[pos..]]
    else [text[pos..starts[0]]] + Parts(text, target, starts[0] + |target|, starts[1..])
  }

  /** The text cut at the target, from left to right. */
  ghost function Cut(text: string, target: string): seq<string>
    requires target != ""
  {
    MatchesLeftmost(text, target, 0, 0);
    Parts(text, target, 0, Matches(text, target, 0))
  }

  /** The i-th part with the target that ends it, if it is not the last. */
  function Ended(parts: seq<string>, target: string, i: nat): string
    requires i < |parts|
  {
    if i + 1 < |parts| then parts[i] + target else parts[i]
  }

  /** The i-th part holds no occurrence, and none begins in it before the one that ends it. */
  ghost predicate CutAt(parts: seq<string>, target: string, i: nat)
    requires i < |parts|
  {
    var part := Ended(parts, target, i);
    forall q: nat :: OccursAt(part, target, q) ==> q == |parts[i]| && i + 1 < |parts|
  }

  ghost predicate CutLeftmost(parts: seq<string>, target: string) {
    forall i :: 0 <= i < |parts| ==> CutAt(parts, target, i)
  }

  lemma OccursInSlice(text: string, target: string, from: nat, to: nat, q: nat)
    requires from <= to <= |text| && OccursAt(text[from..to], target, q)
    ensures OccursAt(text, target, from + q)
  {
    var part := text[from..to];
    forall k | 0 <= k < |target|
      ensures text[from + q..from + q + |target|][k] == target[k]
    {
      assert part[q..q + |target|][k] == part[q + k] == text[from + q + k];
    }
  }

  lemma CutLast(text: string, target: string, pos: nat)
    requires Leftmost(text, target, pos, [])
    ensures CutLeftmost([text[pos..]], target)
  {
    var parts := [text[pos..]];
    assert text[pos..|text|] == text[pos..];
    forall q: nat
      ensures !OccursAt(parts[0], target, q)
    {
      if OccursAt(parts[0], target, q) {
        OccursInSlice(text, target, pos, |text|, q);
      }
    }
    assert CutAt(parts, target, 0);
  }

  lemma CutShift(head: string, rest: seq<string>, target: string, i: nat)
    requires CutLeftmost(rest, target) && 1 <= i <= |rest|
    ensures CutAt([head] + rest, target, i)
  {
    var parts := [head] + rest;
    assert CutAt(rest, target, i - 1) && parts[i] == rest[i - 1];
    assert Ended(parts, target, i) == Ended(rest, target, i - 1);
  }

  lemma CutFirst(text: string, target: string, pos: nat, start: nat, rest: seq<string>)
    requires pos <= start && OccursAt(text, target, start) && rest != [] && CutLeftmost(rest, target)
    requires forall q: nat :: pos <= q < start ==> !OccursAt(text, target, q)
    ensures CutLeftmost([text[pos..start]] + rest, target)
  {
    var head := text[pos..start];
    var parts := [head] + rest;
    assert head + target == text[pos..start + |target|];
    forall q: nat | OccursAt(head + target, target, q)
      ensures q == |head|
    {
      OccursInSlice(text, target, pos, start + |target|, q);
    }
    assert CutAt(parts, target, 0);
    forall i | 1 <= i < |parts|
      ensures CutAt(parts, target, i)
    {
      CutShift(head, rest, target, i);
    }
  }

  lemma {:induction false} PartsLeftmost(text: string, target: string, pos: nat, starts: seq<nat>)
    requires Leftmost(text, target, pos, starts)
    ensures CutLeftmost(Parts(text, target, pos, starts), target)
    decreases |starts|
  {
    if starts == [] {
      CutLast(text, target, pos);
    } else {
      PartsLeftmost(text, target, starts[0] + |target|, starts[1..]);
      CutFirst(text, target, pos, starts[0], Parts(text, target, starts[0] + |target|, starts[1..]));
    }
  }

  lemma JoinHead(part: string, rest: seq<string>, separator: string)
    requires rest != []
    ensures JoinWith([part] + rest, separator) == part + separator + JoinWith(rest, separator)
  {
    assert ([part] + rest)[1..] == rest;
  }

  lemma ThreeParts(text: string, i: nat, j: nat, k: nat)
    requires i <= j <= k <= |text|
    ensures text[i..] == text[i..j] + text[j..k] + text[k..]
  {
  }

  lemma {:induction false} PartsJoin(text: string, target: string, pos: nat, starts: seq<nat>)
    requires Leftmost(text, target, pos, starts)
    ensures JoinWith(Parts(text, target, pos, starts), target) == text[pos..]
    decreases |starts|
  {
    if starts != [] {
      var after := starts[0] + |target|;
      PartsJoin(text, target, after, starts[1..]);
      JoinHead(text[pos..starts[0]], Parts(text, target, after, starts[1..]), target);
      ThreeParts(text, pos, starts[0], after);
    }
  }

  /** The plain replacements at some starts. */
  function PlainSpans(starts: seq<nat>, width: nat, replacement: string): seq<Span> {
    seq(|starts|, i requires 0 <= i < |starts| => Span(starts[i], starts[i] + width, replacement))
  }

  lemma PlainNext(start: nat, rest: seq<nat>, width: nat, replacement: string)
    ensures PlainSpans([start] + rest, width, replacement)
              == [Span(start, start + width, replacement)] + PlainSpans(rest, width, replacement)
  {
  }

  lemma BuildNext(text: string, pos: nat, s: Span, rest: seq<Span>)
    requires pos <= |text| && AllGood(text, [s] + rest) && NeighboursApart([s] + rest) && pos <= s.start
    ensures AllGood(text, rest) && NeighboursApart(rest) && (rest != [] ==> s.end <= rest[0].start)
    ensures Build(text, pos, [s] + rest) == text[pos..s.start] + (s.replace + Build(text, s.end, rest))
  {
    var all := [s] + rest;
    assert all[1..] == rest;
    assert forall i :: 0 <= i < |rest| ==> rest[i] == all[i + 1];
    if rest != [] {
      assert all[1 - 1].end <= all[1].start;
    }
  }

  lemma {:induction false} PartsGood(text: string, target: string, pos: nat, starts: seq<nat>, replacement: string)
    requires target != "" && Leftmost(text, target, pos, starts)
    ensures var spans := PlainSpans(starts, |target|, replacement);
            AllGood(text, spans) && NeighboursApart(spans) && (spans != [] ==> pos <= spans[0].start)
    decreases |starts|
  {
    if starts != [] {
      var start, rest := starts[0], starts[1..];
      PartsGood(text, target, start + |target|, rest, replacement);
      assert starts == [start] + rest;
      PlainNext(start, rest, |target|, replacement);
      GoodNext(text, Span(start, start + |target|, replacement), PlainSpans(rest, |target|, replacement));
    }
  }

  lemma {:induction false} PartsBuild(text: string, target: string, pos: nat, starts: seq<nat>, replacement: string,
                                      spans: seq<Span>)
    requires target != "" && Leftmost(text, target, pos, starts)
    requires spans == PlainSpans(starts, |target|, replacement)
    requires AllGood(text, spans) && NeighboursApart(spans) && (spans != [] ==> pos <= spans[0].start)
    ensures Build(text, pos, spans) == JoinWith(Parts(text, target, pos, starts), replacement)
    decreases |starts|
  {
    if starts != [] {
      var start, rest, tail := starts[0], starts[1..], spans[1..];
      var after := start + |target|;
      assert spans == [spans[0]] + tail && starts == [start] + rest;
      PlainNext(start, rest, |target|, replacement);
      BuildNext(text, pos, spans[0], tail);
      PartsBuild(text, target, after, rest, replacement, tail);
      JoinAfter(text[pos..start], replacement, Parts(text, target, after, rest));
    }
  }

  lemma JoinAfter(part: string, replacement: string, rest: seq<string>)
    requires rest != []
    ensures JoinWith([part] + rest, replacement) == part + (replacement + JoinWith(rest, replacement))
  {
    JoinHead(part, rest, replacement);
    Associate(part, replacement, JoinWith(rest, replacement));
  }

  lemma GoodNext(text: string, s: Span, rest: seq<Span>)
    requires Good(text, s) && AllGood(text, rest) && NeighboursApart(rest) && (rest != [] ==> s.end <= rest[0].start)
    ensures AllGood(text, [s] + rest) && NeighboursApart([s] + rest)
  {
    var all := [s] + rest;
    forall i | 0 < i < |all|
      ensures all[i - 1].end <= all[i].start
    {
      if i > 1 {
        assert rest[i - 2].end <= rest[i - 1].start;
      }
    }
  }

  lemma SpansArePlain(text: string, e: Edit)
    requires e.target != "" && !e.adapt
    ensures SpansOf(text, e) == PlainSpans(Sites(text, e), |e.target|, e.replacement)
  {
    SpansAreSites(text, e);
  }

  lemma SpansSorted(text: string, e: Edit)
    ensures Sorted(SpansOf(text, e))
  {
    SpansAreSites(text, e);
    SitesFit(text, e);
  }

  lemma OnePlain(text: string, e: Edit)
    requires e.target != "" && !e.adapt
    ensures AllSpans(text, [e]) == SpansOf(text, e)
    ensures Sorted(SpansOf(text, e)) && PairwiseApart(SpansOf(text, e))
  {
    FlatOne(e, SpansIn(text));
    OwnApart(text, e);
    SpansSorted(text, e);
  }

  /** The result of one plain edit is its cut text joined by the replacement. */
  lemma OneResult(text: string, e: Edit)
    requires e.target != "" && !e.adapt
    ensures Edited(text, [e]) == JoinWith(Cut(text, e.target), e.replacement)
    ensures AllSpans(text, [e]) == SpansOf(text, e) && PairwiseApart(SpansOf(text, e))
  {
    OnePlain(text, e);
    SpansArePlain(text, e);
    SpliceIsEdited(text, [e], SpansOf(text, e));
    MatchesLeftmost(text, e.target, 0, 0);
    PartsGood(text, e.target, 0, Sites(text, e), e.replacement);
    PartsBuild(text, e.target, 0, Sites(text, e), e.replacement, SpansOf(text, e));
  }

  /** One plain edit, in full: the text is cut at the target from left to right and joined again by the
      replacement, and the count is the number of cuts; or the first of these errors. */
  lemma OneEdit(text: string, e: Edit, limits: Limits)
    requires e.target != "" && !e.adapt && e.validUtf8 && e.mode != OtherMode && limits.maxEdits >= 1
    ensures var parts := Cut(text, e.target);
            var r, cuts := JoinWith(parts, e.replacement), |parts| - 1;
            && text == JoinWith(parts, e.target) && CutLeftmost(parts, e.target)
            && Plan(text, [e], limits)
                 == (if cuts == 0 then Failed(NotFound)
                     else if e.mode == Once && cuts != 1 then Failed(AmbiguousMatch)
                     else if cuts > limits.maxMatches then Failed(TooManyEdits)
                     else if |r| > limits.maxDecodedBytes then Failed(TooLarge)
                     else if IsBinary(r) then Failed(Binary)
                     else Planned(r, [cuts]))
  {
    MatchesLeftmost(text, e.target, 0, 0);
    PartsJoin(text, e.target, 0, Matches(text, e.target, 0));
    PartsLeftmost(text, e.target, 0, Matches(text, e.target, 0));
    assert text[0..] == text;
    OneResult(text, e);
    EditedLength(text, [e]);
    OneCheck(text, e, limits);
  }

  lemma OneCheck(text: string, e: Edit, limits: Limits)
    requires e.target != "" && !e.adapt
    ensures CheckAll(text, [e], limits) == CheckEdit(text, e, 0, limits)
    ensures |Matches(text, e.target, 0)| == |Cut(text, e.target)| - 1
    ensures Counts(text, [e]) == [|Cut(text, e.target)| - 1]
  {
    var before: seq<Edit> := [e][..0];
    assert before == [] && AllSpans(text, before) == [];
    SpansAreSites(text, e);
  }

  /** A target that occurs once, at p, is replaced there and nothing else changes. */
  lemma OnlyOccurrence(text: string, e: Edit, limits: Limits, p: nat)
    requires e.target != "" && !e.adapt && e.validUtf8 && e.mode != OtherMode
    requires limits.maxEdits >= 1 && limits.maxMatches >= 1
    requires OccursAt(text, e.target, p) && forall q: nat :: OccursAt(text, e.target, q) ==> q == p
    ensures var r := text[..p] + e.replacement + text[p + |e.target|..];
            Plan(text, [e], limits) == (if |r| > limits.maxDecodedBytes then Failed(TooLarge)
                                        else if IsBinary(r) then Failed(Binary) else Planned(r, [1]))
  {
    OneEdit(text, e, limits);
    MatchesLeftmost(text, e.target, 0, 0);
    OneStart(text, e.target, 0, Matches(text, e.target, 0), p);
  }

  lemma NoMore(text: string, target: string, pos: nat, starts: seq<nat>)
    requires Leftmost(text, target, pos, starts) && forall q: nat :: q >= pos ==> !OccursAt(text, target, q)
    ensures starts == []
  {
  }

  lemma OneStart(text: string, target: string, pos: nat, starts: seq<nat>, p: nat)
    requires target != "" && Leftmost(text, target, pos, starts) && pos <= p && OccursAt(text, target, p)
    requires forall q: nat :: OccursAt(text, target, q) ==> q == p
    ensures Parts(text, target, pos, starts) == [text[pos..p], text[p + |target|..]]
    ensures forall r :: JoinWith(Parts(text, target, pos, starts), r) == text[pos..p] + r + text[p + |target|..]
  {
    assert starts != [] && starts[0] == p;
    var rest := starts[1..];
    NoMore(text, target, p + |target|, rest);
    assert Parts(text, target, p + |target|, rest) == [text[p + |target|..]];
    var parts := Parts(text, target, pos, starts);
    assert parts[1..] == [text[p + |target|..]];
  }
}
