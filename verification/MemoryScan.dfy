/** The chunked memory scanner: a streaming search that carries the end of one chunk into
    the next (internal/execworker/mem_linux.go). */
module MemoryScan {
  import opened Search

  type Bytes = seq<int>

  /** What one pread delivers before an error, if any. */
  datatype Read = Read(bytes: Bytes, failed: bool)

  /** The positions below n where the pattern occurs, in order, overlapping ones included. */
  function Occurrences(s: Bytes, pattern: Bytes, n: nat): seq<nat> {
    if n == 0 then []
    else Occurrences(s, pattern, n - 1) + (if OccursAt(s, pattern, n - 1) then [n - 1] else [])
  }

  /** All of them. */
  function AllOccurrences(s: Bytes, pattern: Bytes): seq<nat> {
    Occurrences(s, pattern, |s| + 1)
  }

  /** Strictly ascending, and exactly the occurrences below n. */
  ghost predicate Exact(s: Bytes, pattern: Bytes, n: nat, xs: seq<nat>) {
    && (forall i, j :: 0 <= i < j < |xs| ==> xs[i] < xs[j])
    && (forall i :: 0 <= i < |xs| ==> xs[i] < n && OccursAt(s, pattern, xs[i]))
    && (forall x: nat :: x < n && OccursAt(s, pattern, x) ==> x in xs)
  }

  lemma ExactPush(s: Bytes, pattern: Bytes, n: nat, xs: seq<nat>)
    requires Exact(s, pattern, n, xs) && OccursAt(s, pattern, n)
    ensures Exact(s, pattern, n + 1, xs + [n])
  {
    forall x: nat | x < n + 1 && OccursAt(s, pattern, x)
      ensures x in xs + [n]
    {
      assert (xs + [n])[|xs|] == n;
      assert x < n ==> x in xs;
    }
  }

  /** The list of occurrences is exact. */
  lemma {:induction false} OccurrencesExact(s: Bytes, pattern: Bytes, n: nat)
    ensures Exact(s, pattern, n, Occurrences(s, pattern, n))
  {
    if n > 0 {
      OccurrencesExact(s, pattern, n - 1);
      if OccursAt(s, pattern, n - 1) {
        ExactPush(s, pattern, n - 1, Occurrences(s, pattern, n - 1));
      } else {
        ExactSkip(s, pattern, n - 1, Occurrences(s, pattern, n - 1));
        assert Occurrences(s, pattern, n) == Occurrences(s, pattern, n - 1);
      }
    }
  }

  lemma ExactSkip(s: Bytes, pattern: Bytes, n: nat, xs: seq<nat>)
    requires Exact(s, pattern, n, xs) && !OccursAt(s, pattern, n)
    ensures Exact(s, pattern, n + 1, xs)
  {
  }

  lemma {:induction false} OccurrencesGrow(s: Bytes, pattern: Bytes, m: nat, n: nat)
    requires m <= n
    ensures |Occurrences(s, pattern, m)| <= |Occurrences(s, pattern, n)|
    ensures Occurrences(s, pattern, n)[..|Occurrences(s, pattern, m)|] == Occurrences(s, pattern, m)
  {
    if m < n {
      OccurrencesGrow(s, pattern, m, n - 1);
    }
  }

  lemma {:induction false} OccurrencesSkip(s: Bytes, pattern: Bytes, m: nat, n: nat)
    requires m <= n && forall i :: m <= i < n ==> !OccursAt(s, pattern, i)
    ensures Occurrences(s, pattern, n) == Occurrences(s, pattern, m)
  {
    if m < n {
      OccurrencesSkip(s, pattern, m, n - 1);
    }
  }

  /** Occurrences that end inside a prefix are those of the prefix. */
  lemma {:induction false} OccurrencesPrefix(s: Bytes, more: Bytes, pattern: Bytes, n: nat)
    requires n == 0 || n + |pattern| <= |s| + 1
    ensures Occurrences(s + more, pattern, n) == Occurrences(s, pattern, n)
  {
    if n > 0 {
      OccurrencesPrefix(s, more, pattern, n - 1);
      assert (s + more)[n - 1..n - 1 + |pattern|] == s[n - 1..n - 1 + |pattern|];
    }
  }

  function Min(a: int, b: int): int {
    if a < b then a else b
  }

  /** The bytes the reads from the k-th on yield when nothing but the budget or a short read stops them. */
  function StreamFrom(preads: seq<Read>, k: nat, chunk: nat, budget: nat): Bytes
    decreases |preads| - k
  {
    if k >= |preads| || budget == 0 then []
    else
      var want := Min(chunk, budget);
      var n := Min(|preads[k].bytes|, want);
      if n <= 0 then []
      else preads[k].bytes[..n]
           + (if preads[k].failed || n < want then [] else StreamFrom(preads, k + 1, chunk, budget - n))
  }

  function Stream(preads: seq<Read>, chunk: nat, budget: nat): Bytes {
    StreamFrom(preads, 0, chunk, budget)
  }

  lemma {:induction false} StreamBound(preads: seq<Read>, k: nat, chunk: nat, budget: nat)
    ensures |StreamFrom(preads, k, chunk, budget)| <= budget
    decreases |preads| - k
  {
    if k < |preads| && budget > 0 {
      var n := Min(|preads[k].bytes|, Min(chunk, budget));
      if n > 0 {
        StreamBound(preads, k + 1, chunk, budget - n);
      }
    }
  }

  /** The bytes the scanner keeps from what it has seen: too few to hold a whole pattern. */
  function Carry(seen: Bytes, pattern: Bytes): Bytes
    requires pattern != []
  {
    seen[|seen| - Min(|pattern| - 1, |seen|)..]
  }

  /** The search window starts right after the last place where an old occurrence can start. */
  lemma WindowStart(seen: Bytes, arrived: Bytes, pattern: Bytes)
    requires pattern != []
    ensures var base := |seen| - |Carry(seen, pattern)|;
            && Occurrences(seen + arrived, pattern, base) == AllOccurrences(seen, pattern)
            && (seen + arrived)[base..] == Carry(seen, pattern) + arrived
  {
    var base := |seen| - |Carry(seen, pattern)|;
    OccurrencesPrefix(seen, arrived, pattern, base);
    OccurrencesSkip(seen, pattern, base, |seen| + 1);
  }

  /** An occurrence in the window is one in everything seen, shifted by the window's base. */
  lemma WindowOccurrence(all: Bytes, pattern: Bytes, base: nat, i: nat)
    requires base <= |all|
    ensures OccursAt(all[base..], pattern, i) <==> OccursAt(all, pattern, base + i)
  {
    if base + i + |pattern| <= |all| {
      assert all[base..][i..i + |pattern|] == all[base + i..base + i + |pattern|];
    }
  }

  /** What the inner loop has found after searching the window up to searchAt. */
  ghost predicate Searched(all: Bytes, pattern: Bytes, base: nat, searchAt: nat, matches: seq<nat>) {
    matches == Occurrences(all, pattern, base + searchAt)
  }

  /** The leftmost match in the rest of the window is the next occurrence. */
  lemma NextOccurrence(all: Bytes, pattern: Bytes, base: nat, searchAt: nat, found: nat)
    requires base + searchAt <= |all|
    requires found >= searchAt && found - searchAt == Index(all[base..][searchAt..], pattern)
    ensures OccursAt(all, pattern, base + found)
    ensures forall i :: base + searchAt <= i < base + found ==> !OccursAt(all, pattern, i)
  {
    forall i | base + searchAt <= i < base + found
      ensures !OccursAt(all, pattern, i)
    {
      WindowTwice(all, pattern, base, searchAt, i);
    }
    WindowTwice(all, pattern, base, searchAt, base + found);
  }

  lemma SearchFound(all: Bytes, pattern: Bytes, base: nat, searchAt: nat, found: nat, matches: seq<nat>)
    requires base + searchAt <= |all| && Searched(all, pattern, base, searchAt, matches)
    requires found >= searchAt && found - searchAt == Index(all[base..][searchAt..], pattern)
    ensures Searched(all, pattern, base, found + 1, matches + [base + found])
  {
    NextOccurrence(all, pattern, base, searchAt, found);
    OccurrencesSkip(all, pattern, base + searchAt, base + found);
  }

  lemma WindowTwice(all: Bytes, pattern: Bytes, base: nat, searchAt: nat, i: nat)
    requires base + searchAt <= |all| && i >= base + searchAt
    ensures OccursAt(all[base..][searchAt..], pattern, i - base - searchAt) <==> OccursAt(all, pattern, i)
  {
    WindowOccurrence(all, pattern, base, i - base);
    WindowOccurrence(all[base..], pattern, searchAt, i - base - searchAt);
  }

  lemma SearchDone(all: Bytes, pattern: Bytes, base: nat, searchAt: nat, matches: seq<nat>)
    requires base <= |all| && Searched(all, pattern, base, searchAt, matches)
    requires base + searchAt + |pattern| > |all| || Index(all[base..][searchAt..], pattern) < 0
    ensures matches == AllOccurrences(all, pattern)
  {
    var end := if base + searchAt > |all| + 1 then base + searchAt else |all| + 1;
    forall i | base + searchAt <= i < end
      ensures !OccursAt(all, pattern, i)
    {
      if i + |pattern| <= |all| {
        WindowOccurrence(all, pattern, base, i - base);
        WindowOccurrence(all[base..], pattern, searchAt, i - base - searchAt);
      }
    }
    OccurrencesSkip(all, pattern, base + searchAt, end);
    OccurrencesSkip(all, pattern, |all| + 1, end);
  }

  lemma SearchFull(all: Bytes, pattern: Bytes, base: nat, searchAt: nat, matches: seq<nat>, maxResults: nat)
    requires Searched(all, pattern, base, searchAt, matches) && |matches| == maxResults
    requires base + searchAt <= |all| + 1
    ensures matches == First(AllOccurrences(all, pattern), maxResults)
  {
    OccurrencesGrow(all, pattern, base + searchAt, |all| + 1);
  }

  /** The next match in the window at or after searchAt, or -1 when everything has been found. */
  method NextMatch(ghost all: Bytes, combined: Bytes, base: nat, pattern: Bytes, searchAt: nat, ghost matches: seq<nat>)
    returns (found: int)
    requires base <= |all| && combined == all[base..] && searchAt <= |combined|
    requires Searched(all, pattern, base, searchAt, matches)
    ensures found < 0 ==> matches == AllOccurrences(all, pattern)
    ensures found >= 0 ==> searchAt <= found && found + |pattern| <= |combined|
                           && Searched(all, pattern, base, found + 1, matches + [base + found])
  {
    found := Index(combined[searchAt..], pattern);
    if found < 0 {
      SearchDone(all, pattern, base, searchAt, matches);
    } else {
      found := found + searchAt;
      SearchFound(all, pattern, base, searchAt, found, matches);
    }
  }

  /** The search of one window: reports every occurrence that is not complete before the new bytes.  The
      test that filters out matches inside the carry rejects none. */
  method SearchWindow(ghost seen: Bytes, arrived: Bytes, carry: Bytes, consumed: nat, pattern: Bytes, before: seq<nat>,
                      maxResults: nat)
    returns (matches: seq<nat>, ghost rejected: int)
    requires pattern != [] && carry == Carry(seen, pattern) && consumed == |seen|
    requires before == AllOccurrences(seen, pattern) && |before| < maxResults
    ensures matches == First(AllOccurrences(seen + arrived, pattern), maxResults)
    ensures rejected == 0
  {
    var combined := carry + arrived;
    var combinedBase := consumed - |carry|;
    ghost var all := seen + arrived;
    matches, rejected := before, 0;
    WindowStart(seen, arrived, pattern);
    var searchAt := 0;
    while searchAt + |pattern| <= |combined| && |matches| < maxResults
      invariant 0 <= searchAt <= |combined| && rejected == 0
      invariant |matches| <= maxResults && Searched(all, pattern, combinedBase, searchAt, matches)
      decreases |combined| - searchAt
    {
      var found := NextMatch(all, combined, combinedBase, pattern, searchAt, matches);
      if found < 0 {
        return;
      }
      var offset := combinedBase + found;
      // The carry is shorter than the pattern, so no match lies wholly inside it.
      assert offset + |pattern| > consumed;
      if offset + |pattern| > consumed {
        matches := matches + [offset];
      } else {
        rejected := rejected + 1;
      }
      searchAt := found + 1;
    }
    if |matches| == maxResults {
      SearchFull(all, pattern, combinedBase, searchAt, matches, maxResults);
    } else {
      SearchDone(all, pattern, combinedBase, searchAt, matches);
    }
  }

  /** The stream from position consumed on is what the reads from the k-th on still yield. */
  ghost predicate Ahead(preads: seq<Read>, chunk: nat, budget: nat, stream: Bytes, k: nat, consumed: nat) {
    && consumed <= |stream| && consumed <= budget
    && stream[consumed..] == StreamFrom(preads, k, chunk, budget - consumed)
  }

  /** A read delivers the next bytes of the stream; a failed or short one is the last. */
  lemma AheadStep(preads: seq<Read>, chunk: nat, budget: nat, stream: Bytes, k: nat, consumed: nat, n: nat)
    requires Ahead(preads, chunk, budget, stream, k, consumed) && k < |preads| && consumed < budget
    requires n == Min(|preads[k].bytes|, Min(chunk, budget - consumed)) && n > 0
    ensures consumed + n <= |stream| && stream[consumed..consumed + n] == preads[k].bytes[..n]
    ensures if preads[k].failed || n < Min(chunk, budget - consumed) then consumed + n == |stream|
            else Ahead(preads, chunk, budget, stream, k + 1, consumed + n)
  {
    var rest := stream[consumed..];
    assert rest[..n] == preads[k].bytes[..n];
    assert stream[consumed + n..] == rest[n..];
  }

  lemma AheadStart(preads: seq<Read>, chunk: nat, budget: nat)
    ensures Ahead(preads, chunk, budget, Stream(preads, chunk, budget), 0, 0)
  {
    var stream := Stream(preads, chunk, budget);
    assert stream[0..] == stream;
  }

  /** Nothing more comes after the last read, after an empty one, or beyond the budget. */
  lemma AheadStops(preads: seq<Read>, chunk: nat, budget: nat, stream: Bytes, k: nat, consumed: nat)
    requires Ahead(preads, chunk, budget, stream, k, consumed)
    requires k >= |preads| || preads[k].bytes == [] || consumed == budget
    ensures consumed == |stream|
  {
  }

  /** What the scanner reports, and what it carries over, once it has consumed c bytes of the stream. */
  ghost predicate Reports(stream: Bytes, pattern: Bytes, maxResults: nat, report: nat -> seq<nat>, keep: nat -> Bytes)
    requires pattern != []
  {
    forall c: nat {:trigger AllOccurrences(stream[..c], pattern)} :: c <= |stream| ==>
      && report(c) == First(AllOccurrences(stream[..c], pattern), maxResults)
      && keep(c) == Carry(stream[..c], pattern)
  }

  /** The read loop; report and keep say what each prefix of the stream calls for. */
  method ScanReads(preads: seq<Read>, chunk: nat, budget: nat, pattern: Bytes, maxResults: nat, ghost stream: Bytes,
                   ghost report: nat -> seq<nat>, ghost keep: nat -> Bytes)
    returns (matches: seq<nat>, consumed: nat)
    requires pattern != [] && chunk > 0 && Ahead(preads, chunk, budget, stream, 0, 0)
    requires Reports(stream, pattern, maxResults, report, keep) && report(0) == [] && keep(0) == []
    ensures consumed <= budget && consumed <= |stream| && matches == report(consumed)
    ensures |matches| < maxResults ==> consumed == |stream|
  {
    matches, consumed := [], 0;
    var carry: Bytes := [];
    var k := 0;
    while consumed < budget && |matches| < maxResults
      invariant k <= |preads| && Ahead(preads, chunk, budget, stream, k, consumed)
      invariant carry == keep(consumed) && matches == report(consumed)
      decreases |preads| - k
    {
      if k == |preads| || |preads[k].bytes| == 0 {
        break;
      }
      var want := Min(chunk, budget - consumed);
      var n := Min(|preads[k].bytes|, want);
      AheadStep(preads, chunk, budget, stream, k, consumed, n);
      matches, carry := ScanChunk(stream, consumed, n, preads[k].bytes[..n], carry, pattern, matches, maxResults,
                                  report, keep);
      consumed := consumed + n;
      if preads[k].failed || n < want {
        return;
      }
      k := k + 1;
    }
    if |matches| < maxResults {
      AheadStops(preads, chunk, budget, stream, k, consumed);
    }
  }

  /** One chunk: search the window, then keep its end. */
  method ScanChunk(ghost stream: Bytes, consumed: nat, n: nat, arrived: Bytes, carry: Bytes, pattern: Bytes,
                   before: seq<nat>, maxResults: nat, ghost report: nat -> seq<nat>, ghost keep: nat -> Bytes)
    returns (matches: seq<nat>, next: Bytes)
    requires pattern != [] && consumed + n <= |stream| && arrived == stream[consumed..consumed + n]
    requires Reports(stream, pattern, maxResults, report, keep)
    requires carry == keep(consumed) && before == report(consumed) && |before| < maxResults
    ensures matches == report(consumed + n) && next == keep(consumed + n)
  {
    ghost var seen := stream[..consumed];
    assert before == First(AllOccurrences(seen, pattern), maxResults);
    assert stream[..consumed + n] == seen + arrived;
    ghost var rejected;
    matches, rejected := SearchWindow(seen, arrived, carry, consumed, pattern, before, maxResults);
    next := NextCarry(seen, arrived, carry, pattern);
    assert matches == First(AllOccurrences(stream[..consumed + n], pattern), maxResults);
  }

  /** Whatever the chunk size, a region's scan reports the first maxResults occurrences in the bytes it
      consumed, and it stops early only when it has that many. */
  method ScanMemoryRegion(preads: seq<Read>, chunk: nat, budget: nat, pattern: Bytes, maxResults: nat)
    returns (matches: seq<nat>, consumed: nat)
    requires pattern != [] && chunk > 0
    ensures consumed <= budget && consumed <= |Stream(preads, chunk, budget)|
    ensures matches == First(AllOccurrences(Stream(preads, chunk, budget)[..consumed], pattern), maxResults)
    ensures |matches| < maxResults ==> consumed == |Stream(preads, chunk, budget)|
  {
    ghost var stream := Stream(preads, chunk, budget);
    ghost var report := (c: nat) =>
      if c <= |stream| then First(AllOccurrences(stream[..c], pattern), maxResults) else [];
    ghost var keep := (c: nat) => if c <= |stream| then Carry(stream[..c], pattern) else [];
    AheadStart(preads, chunk, budget);
    EmptyOccurrences(pattern);
    assert stream[..0] == [];
    matches, consumed := ScanReads(preads, chunk, budget, pattern, maxResults, stream, report, keep);
  }

  method NextCarry(ghost seen: Bytes, arrived: Bytes, carry: Bytes, pattern: Bytes) returns (next: Bytes)
    requires pattern != [] && carry == Carry(seen, pattern)
    ensures next == Carry(seen + arrived, pattern)
  {
    var combined := carry + arrived;
    var carryBytes := |pattern| - 1;
    if carryBytes > |combined| {
      carryBytes := |combined|;
    }
    next := combined[|combined| - carryBytes..];
  }

  lemma EmptyOccurrences(pattern: Bytes)
    requires pattern != []
    ensures AllOccurrences([], pattern) == []
  {
    OccurrencesSkip([], pattern, 0, 1);
  }

  // ----- a whole process ------------------------------------------------------------

  /** A readable region: its size and what reading it delivers. */
  datatype Region = Region(size: nat, preads: seq<Read>)

  datatype Match = Match(region: nat, offset: nat)

  function Tagged(region: nat, offsets: seq<nat>): seq<Match> {
    seq(|offsets|, i requires 0 <= i < |offsets| => Match(region, offsets[i]))
  }

  function Sum(xs: seq<nat>): nat {
    if xs == [] then 0 else Sum(xs[..|xs| - 1]) + xs[|xs| - 1]
  }

  /** The matches of the regions in order. */
  function Flatten(found: seq<seq<nat>>): seq<Match> {
    if found == [] then []
    else Flatten(found[..|found| - 1]) + Tagged(|found| - 1, found[|found| - 1])
  }

  /** One region scanned with what is left of the byte budget and of the result room. */
  ghost predicate RegionDone(region: Region, chunk: nat, budget: int, room: int, pattern: Bytes,
                             consumed: nat, found: seq<nat>) {
    && budget > 0 && room > 0
    && var stream := Stream(region.preads, chunk, Min(region.size, budget));
    && consumed <= |stream|
    && found == First(AllOccurrences(stream[..consumed], pattern), room)
    && (|found| < room ==> consumed == |stream|)
  }

  /** The i-th region was scanned with what the earlier ones left. */
  ghost predicate RegionDoneAt(regions: seq<Region>, chunk: nat, scanBytes: nat, scanResults: nat, pattern: Bytes,
                               consumed: seq<nat>, found: seq<seq<nat>>, i: nat)
    requires i < |regions| && |consumed| == |found| && i < |found|
  {
    RegionDone(regions[i], chunk, scanBytes - Sum(consumed[..i]), scanResults - |Flatten(found[..i])|, pattern,
               consumed[i], found[i])
  }

  method ScanProcessMemory(regions: seq<Region>, chunk: nat, pattern: Bytes, scanBytes: nat, scanResults: nat)
    returns (matches: seq<Match>, scanned: nat, ghost consumed: seq<nat>, ghost found: seq<seq<nat>>)
    requires pattern != [] && chunk > 0
    ensures |consumed| == |found| <= |regions| && matches == Flatten(found) && scanned == Sum(consumed)
    ensures scanned <= scanBytes && |matches| <= scanResults
    ensures forall i :: 0 <= i < |found| ==>
              RegionDoneAt(regions, chunk, scanBytes, scanResults, pattern, consumed, found, i)
    ensures |found| == |regions| || scanned == scanBytes || |matches| == scanResults
  {
    matches, scanned, consumed, found := [], 0, [], [];
    var regionIndex := 0;
    while regionIndex < |regions| && scanned < scanBytes && |matches| < scanResults
      invariant regionIndex == |consumed| == |found| <= |regions|
      invariant matches == Flatten(found) && scanned == Sum(consumed)
      invariant scanned <= scanBytes && |matches| <= scanResults
      invariant forall i :: 0 <= i < |found| ==>
                  RegionDoneAt(regions, chunk, scanBytes, scanResults, pattern, consumed, found, i)
      decreases |regions| - regionIndex
    {
      var region := regions[regionIndex];
      var regionBytes := Min(region.size, scanBytes - scanned);
      var offsets, n := ScanMemoryRegion(region.preads, chunk, regionBytes, pattern, scanResults - |matches|);
      RegionPush(regions, chunk, scanBytes, scanResults, pattern, consumed, found, n, offsets);
      matches := matches + Tagged(regionIndex, offsets);
      consumed, found := consumed + [n], found + [offsets];
      scanned := scanned + n;
      regionIndex := regionIndex + 1;
    }
  }

  lemma RegionPush(regions: seq<Region>, chunk: nat, scanBytes: nat, scanResults: nat, pattern: Bytes,
                   consumed: seq<nat>, found: seq<seq<nat>>, n: nat, offsets: seq<nat>)
    requires |consumed| == |found| < |regions|
    requires forall i :: 0 <= i < |found| ==>
               RegionDoneAt(regions, chunk, scanBytes, scanResults, pattern, consumed, found, i)
    requires RegionDone(regions[|found|], chunk, scanBytes - Sum(consumed), scanResults - |Flatten(found)|, pattern, n,
                        offsets)
    ensures Sum(consumed + [n]) == Sum(consumed) + n
    ensures Flatten(found + [offsets]) == Flatten(found) + Tagged(|found|, offsets)
    ensures forall i :: 0 <= i <= |found| ==>
              RegionDoneAt(regions, chunk, scanBytes, scanResults, pattern, consumed + [n], found + [offsets], i)
  {
    var c, f := consumed + [n], found + [offsets];
    assert c[..|consumed|] == consumed && f[..|found|] == found;
    forall i | 0 <= i <= |found|
      ensures RegionDoneAt(regions, chunk, scanBytes, scanResults, pattern, c, f, i)
    {
      assert c[..i] == consumed[..i] && f[..i] == found[..i];
      if i < |found| {
        assert RegionDoneAt(regions, chunk, scanBytes, scanResults, pattern, consumed, found, i);
      }
    }
  }


  // ----- reading a whole memory -----------------------------------------------------

  /** From position pos on, the reads deliver the memory chunk by chunk, without failure. */
  ghost predicate ReadsMemory(preads: seq<Read>, k: nat, chunk: nat, memory: Bytes, pos: nat)
    requires chunk > 0
    decreases |memory| - pos
  {
    if pos >= |memory| then pos == |memory| && k == |preads|
    else
      var end := Min(pos + chunk, |memory|);
      k < |preads| && preads[k] == Read(memory[pos..end], false) && ReadsMemory(preads, k + 1, chunk, memory, end)
  }

  /** One successful read, cut to what is wanted. */
  lemma StreamNext(preads: seq<Read>, k: nat, chunk: nat, budget: nat, bytes: Bytes)
    requires k < |preads| && preads[k] == Read(bytes, false) && 0 < |bytes| <= chunk && budget > 0
    ensures StreamFrom(preads, k, chunk, budget)
              == if budget <= |bytes| then bytes[..budget]
                 else if |bytes| == chunk then bytes + StreamFrom(preads, k + 1, chunk, budget - chunk) else bytes
  {
    var n := Min(|bytes|, Min(chunk, budget));
    if budget <= |bytes| {
      StreamBound(preads, k + 1, chunk, 0);
      assert bytes[..budget] + [] == bytes[..budget];
    } else {
      assert n == |bytes| && bytes[..n] == bytes;
      assert bytes + [] == bytes;
    }
  }

  /** The scanned bytes are the memory's own, up to the budget. */
  lemma {:induction false} StreamIsMemory(preads: seq<Read>, k: nat, chunk: nat, budget: nat, memory: Bytes, pos: nat)
    requires chunk > 0 && ReadsMemory(preads, k, chunk, memory, pos)
    ensures pos <= |memory| && StreamFrom(preads, k, chunk, budget) == memory[pos..Min(pos + budget, |memory|)]
    decreases |memory| - pos
  {
    if pos < |memory| && budget > 0 {
      var end := Min(pos + chunk, |memory|);
      StreamNext(preads, k, chunk, budget, memory[pos..end]);
      if budget <= end - pos {
        SliceSlice(memory, pos, end, budget);
      } else if end - pos == chunk {
        StreamIsMemory(preads, k + 1, chunk, budget - chunk, memory, end);
        JoinSlices(memory, pos, end, Min(pos + budget, |memory|));
      }
    }
  }

  lemma SliceSlice(s: Bytes, i: nat, j: nat, n: nat)
    requires i + n <= j <= |s|
    ensures s[i..j][..n] == s[i..i + n]
  {
  }

  lemma JoinSlices(s: Bytes, i: nat, j: nat, k: nat)
    requires i <= j <= k <= |s|
    ensures s[i..j] + s[j..k] == s[i..k]
  {
  }
}
