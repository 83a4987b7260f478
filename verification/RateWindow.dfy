/** Runs of the rate limiter with expiry, eviction and late readings: when forgetting a bucket changes no
    answer, and how many requests a subject is allowed in a window (internal/gateway/gateway.go). */
module RateWindow {
  import opened Basics
  import opened StringOrder
  import opened RateLimiter

  /** One request, in the order in which the requests get the limiter's lock: now is its clock reading,
      order the one in which an eviction would visit the table. */
  datatype Event = Event(subject: string, now: real, order: seq<string>)

  function Answer(l: Limits, t: Table, e: Event): bool {
    Spend(l, BucketFor(l, Prune(l, t, e.now), e.subject, e.now), e.now).1
  }

  /** A run of the limiter, with the table before each event and at the end.  Buckets expire and are
      evicted as the limiter does it.  The clock is read before the lock is taken, so the readings need
      not come in order. */
  ghost predicate Run(l: Limits, events: seq<Event>, tables: seq<Table>) {
    && |tables| == |events| + 1 && tables[0] == map[]
    && forall n :: 0 <= n < |events| ==> StepAt(l, events, tables, n)
  }

  ghost predicate StepAt(l: Limits, events: seq<Event>, tables: seq<Table>, n: nat)
    requires n < |events| < |tables|
  {
    StepsTo(l, tables[n], events[n], tables[n + 1])
  }

  ghost predicate StepsTo(l: Limits, t: Table, e: Event, next: Table) {
    Enumerates(e.order, Prune(l, t, e.now)) && next == Admit(l, t, e.subject, e.now, e.order).0
  }

  lemma RunStep(l: Limits, events: seq<Event>, tables: seq<Table>, n: nat)
    requires Run(l, events, tables) && n < |events|
    ensures StepsTo(l, tables[n], events[n], tables[n + 1])
  {
    assert StepAt(l, events, tables, n);
  }

  /** What is left of the table when the event's bucket is written. */
  function Room(l: Limits, t: Table, e: Event): Table
    requires Listed(e.order, Prune(l, t, e.now))
  {
    MakeRoom(l, Prune(l, t, e.now), e.subject, e.order)
  }

  // ----- the limiter that never forgets --------------------------------------------------------

  function Remember(l: Limits, t: Table, e: Event): (Table, bool) {
    var (b, ok) := Spend(l, BucketFor(l, t, e.subject, e.now), e.now);
    (t[e.subject := b], ok)
  }

  /** The tables of a limiter that never drops a bucket. */
  ghost predicate Forever(l: Limits, events: seq<Event>, fulls: seq<Table>) {
    && |fulls| == |events| + 1 && fulls[0] == map[]
    && forall n :: 0 <= n < |events| ==> RemembersAt(l, events, fulls, n)
  }

  ghost predicate RemembersAt(l: Limits, events: seq<Event>, fulls: seq<Table>, n: nat)
    requires n < |events| && n + 1 < |fulls|
  {
    fulls[n + 1] == Remember(l, fulls[n], events[n]).0
  }

  lemma {:induction false} ForeverExists(l: Limits, events: seq<Event>) returns (fulls: seq<Table>)
    ensures Forever(l, events, fulls)
  {
    if events == [] {
      fulls := [map[]];
    } else {
      var n := |events| - 1;
      var before := ForeverExists(l, events[..n]);
      fulls := before + [Remember(l, before[n], events[n]).0];
      forall k | 0 <= k < |events|
        ensures RemembersAt(l, events, fulls, k)
      {
        if k < n {
          assert RemembersAt(l, events[..n], before, k);
        }
      }
    }
  }

  /** A bucket between requests: tokens in [0, burst], below burst unless burst is 0, and refilled to a
      reading at least as late as the last one. */
  predicate Sane(l: Limits, b: Bucket) {
    0.0 <= b.tokens <= l.burst as real && (l.burst > 0 ==> b.tokens < l.burst as real) && b.lastSeen <= b.updated
  }

  ghost predicate AllSane(l: Limits, t: Table) {
    forall s :: s in t ==> Sane(l, t[s])
  }

  /** Time never takes tokens away. */
  ghost predicate Earns(l: Limits) {
    forall elapsed :: elapsed >= 0.0 ==> l.gain(elapsed) >= 0.0
  }

  /** An idle lifetime brings a full bucket. */
  ghost predicate Recovers(l: Limits) {
    forall elapsed :: elapsed >= l.ttl ==> l.gain(elapsed) >= l.burst as real
  }

  predicate AddsAt(l: Limits, x: real, y: real) {
    l.gain(x + y) == l.gain(x) + l.gain(y)
  }

  ghost predicate Additive(l: Limits) {
    forall x, y :: AddsAt(l, x, y)
  }

  lemma Times(x: real, y: real, rate: real)
    requires x <= y && rate >= 0.0
    ensures x * rate <= y * rate
  {
  }

  lemma SteadyEarns(l: Limits)
    requires l.Steady() && l.rate >= 0.0
    ensures Earns(l)
  {
    forall elapsed | elapsed >= 0.0
      ensures l.gain(elapsed) >= 0.0
    {
      Times(0.0, elapsed, l.rate);
    }
  }

  lemma SteadyAdds(l: Limits)
    requires l.Steady()
    ensures Additive(l)
  {
    forall x, y
      ensures AddsAt(l, x, y)
    {
      assert (x + y) * l.rate == x * l.rate + y * l.rate;
    }
  }

  lemma SteadyRecovers(l: Limits)
    requires l.Steady() && l.rate >= 0.0
    ensures Recovers(l) <==> l.ttl * l.rate >= l.burst as real
  {
    if Recovers(l) {
      assert l.gain(l.ttl) >= l.burst as real;
    } else {
      var elapsed :| elapsed >= l.ttl && l.gain(elapsed) < l.burst as real;
      Times(l.ttl, elapsed, l.rate);
    }
  }

  /** Spending keeps the tokens within [0, burst]. */
  lemma SpendSane(l: Limits, b: Bucket, now: real)
    requires Earns(l) && 0.0 <= b.tokens <= l.burst as real
    ensures Sane(l, Spend(l, b, now).0)
  {
  }

  /** A request keeps every bucket sane, whatever is pruned or evicted. */
  lemma AdmitSane(l: Limits, t: Table, e: Event, next: Table)
    requires Earns(l) && AllSane(l, t) && StepsTo(l, t, e, next)
    ensures AllSane(l, next)
  {
    SpendSane(l, BucketFor(l, Prune(l, t, e.now), e.subject, e.now), e.now);
    RoomKeeps(l, Prune(l, t, e.now), e.subject, e.order);
  }

  /** Making room drops buckets and changes none. */
  lemma RoomKeeps(l: Limits, pruned: Table, subject: string, order: seq<string>)
    requires Listed(order, pruned)
    ensures forall s :: s in MakeRoom(l, pruned, subject, order) ==>
              s in pruned && MakeRoom(l, pruned, subject, order)[s] == pruned[s]
  {
  }

  // ----- what every run keeps ------------------------------------------------------------------

  /** In every run, with expiry and eviction, the tokens of every bucket stay within [0, burst]. */
  lemma {:induction false} RunSane(l: Limits, events: seq<Event>, tables: seq<Table>, n: nat)
    requires Earns(l) && Run(l, events, tables) && n <= |events|
    ensures AllSane(l, tables[n])
  {
    if n > 0 {
      RunSane(l, events, tables, n - 1);
      RunStep(l, events, tables, n - 1);
      AdmitSane(l, tables[n - 1], events[n - 1], tables[n]);
    }
  }

  /** In every run over non-empty subjects the table never exceeds its limit. */
  lemma {:induction false} RunBounded(l: Limits, events: seq<Event>, tables: seq<Table>, n: nat)
    requires l.Valid() && Run(l, events, tables) && n <= |events|
    requires forall k :: 0 <= k < |events| ==> events[k].subject != ""
    ensures |tables[n]| <= l.maxBuckets && "" !in tables[n]
  {
    if n > 0 {
      var e := events[n - 1];
      RunBounded(l, events, tables, n - 1);
      RunStep(l, events, tables, n - 1);
      TableBounded(l, tables[n - 1], e.subject, e.now, e.order);
    }
  }

  // ----- when forgetting is harmless -------------------------------------------------------------

  /** Refilled at this reading, the bucket would be full. */
  predicate FullAt(l: Limits, b: Bucket, now: real) {
    Refill(l, b, now).tokens == l.burst as real
  }

  /** The subject's bucket before event n, or what it was when it was forgotten. */
  function Remembered(tables: seq<Table>, subject: string, n: nat): Option<Bucket>
    requires n < |tables|
  {
    if subject in tables[n] then Some(tables[n][subject])
    else if n == 0 then None
    else Remembered(tables, subject, n - 1)
  }

  /** If an event finds the subject's bucket forgotten, or forgets it, idle time has refilled it by
      the event's reading. */
  ghost predicate FullIfAbsent(l: Limits, t: Table, e: Event, subject: string, memory: Option<Bucket>) {
    Enumerates(e.order, Prune(l, t, e.now)) && subject !in Room(l, t, e) && memory.Some?
    ==> FullAt(l, memory.value, e.now)
  }

  ghost predicate FullIfAbsentAt(l: Limits, events: seq<Event>, tables: seq<Table>, subject: string, n: nat)
    requires n < |events| <= |tables|
  {
    FullIfAbsent(l, tables[n], events[n], subject, Remembered(tables, subject, n))
  }

  /** Through the first n events the subject's bucket is only missing while it would be full. */
  ghost predicate AbsentOnlyFull(l: Limits, events: seq<Event>, tables: seq<Table>, subject: string, n: nat)
    requires n <= |events| <= |tables|
  {
    forall k :: 0 <= k < n ==> FullIfAbsentAt(l, events, tables, subject, k)
  }

  /** A full bucket answers like a new one, and is the same afterwards. */
  lemma FullSpend(l: Limits, b: Bucket, now: real)
    requires l.burst > 0 && Sane(l, b) && FullAt(l, b, now)
    ensures b.updated < now && Spend(l, b, now) == Spend(l, Bucket(l.burst as real, now, now), now)
  {
  }

  /** What is remembered of the subject is its bucket in the table that never forgets. */
  ghost predicate AgreesOn(full: Table, subject: string, memory: Option<Bucket>) {
    if subject in full then memory == Some(full[subject]) else memory == None
  }

  lemma SameSpend(l: Limits, t: Table, full: Table, e: Event, memory: Option<Bucket>)
    requires l.burst > 0 && AllSane(l, full) && AgreesOn(full, e.subject, memory)
    requires e.subject in t ==> memory == Some(t[e.subject])
    requires Enumerates(e.order, Prune(l, t, e.now)) && FullIfAbsent(l, t, e, e.subject, memory)
    ensures Spend(l, BucketFor(l, Prune(l, t, e.now), e.subject, e.now), e.now)
              == Spend(l, BucketFor(l, full, e.subject, e.now), e.now)
  {
    var s := e.subject;
    if s in full && s !in Prune(l, t, e.now) {
      RoomKeeps(l, Prune(l, t, e.now), s, e.order);
      FullSpend(l, full[s], e.now);
    }
  }

  lemma {:induction false} ForeverSane(l: Limits, events: seq<Event>, fulls: seq<Table>, n: nat)
    requires Earns(l) && Forever(l, events, fulls) && n <= |events|
    ensures AllSane(l, fulls[n])
  {
    if n > 0 {
      var e := events[n - 1];
      ForeverSane(l, events, fulls, n - 1);
      assert RemembersAt(l, events, fulls, n - 1);
      SpendSane(l, BucketFor(l, fulls[n - 1], e.subject, e.now), e.now);
    }
  }

  lemma {:induction false} RunAgreesOn(l: Limits, events: seq<Event>, tables: seq<Table>, fulls: seq<Table>,
                                       subject: string, n: nat)
    requires l.burst > 0 && Earns(l) && Run(l, events, tables) && Forever(l, events, fulls) && n <= |events|
    requires AbsentOnlyFull(l, events, tables, subject, n)
    ensures AgreesOn(fulls[n], subject, Remembered(tables, subject, n))
  {
    if n > 0 {
      RunAgreesOn(l, events, tables, fulls, subject, n - 1);
      AgreesNext(l, events, tables, fulls, subject, n - 1);
    }
  }

  lemma AgreesNext(l: Limits, events: seq<Event>, tables: seq<Table>, fulls: seq<Table>, subject: string, n: nat)
    requires l.burst > 0 && Earns(l) && Run(l, events, tables) && Forever(l, events, fulls) && n < |events|
    requires FullIfAbsentAt(l, events, tables, subject, n)
    requires AgreesOn(fulls[n], subject, Remembered(tables, subject, n))
    ensures AgreesOn(fulls[n + 1], subject, Remembered(tables, subject, n + 1))
  {
    var e := events[n];
    RunStep(l, events, tables, n);
    assert RemembersAt(l, events, fulls, n);
    RoomKeeps(l, Prune(l, tables[n], e.now), e.subject, e.order);
    if subject == e.subject {
      ForeverSane(l, events, fulls, n);
      SameSpend(l, tables[n], fulls[n], e, Remembered(tables, subject, n));
    }
  }

  /** While a subject's bucket is only missing when it would be full, the subject is answered as if no
      bucket were ever dropped, whatever happens to other subjects. */
  lemma ForgettingIsInvisible(l: Limits, events: seq<Event>, tables: seq<Table>, fulls: seq<Table>, n: nat)
    requires Earns(l) && Run(l, events, tables) && Forever(l, events, fulls) && n < |events|
    requires AbsentOnlyFull(l, events, tables, events[n].subject, n + 1)
    ensures Answer(l, tables[n], events[n]) == Remember(l, fulls[n], events[n]).1
  {
    var e := events[n];
    ForeverSane(l, events, fulls, n);
    RunSane(l, events, tables, n);
    if l.burst > 0 {
      RunAgreesOn(l, events, tables, fulls, e.subject, n);
      assert FullIfAbsentAt(l, events, tables, e.subject, n);
      RunStep(l, events, tables, n);
      SameSpend(l, tables[n], fulls[n], e, Remembered(tables, e.subject, n));
    } else {
      NoTokens(l, tables[n], e);
    }
  }

  /** Without a burst nothing is ever allowed. */
  lemma NoTokens(l: Limits, t: Table, e: Event)
    requires l.burst == 0 && AllSane(l, t)
    ensures !Answer(l, t, e)
    ensures !Remember(l, t, e).1
  {
  }

  // ----- the window bound ------------------------------------------------------------------------

  /** How often the limiter allows the subject among events i..j. */
  ghost function Allowed(l: Limits, events: seq<Event>, tables: seq<Table>, subject: string, i: nat, j: nat): nat
    requires j <= |events| < |tables|
  {
    if i >= j then 0
    else Allowed(l, events, tables, subject, i, j - 1)
         + (if events[j - 1].subject == subject && Answer(l, tables[j - 1], events[j - 1]) then 1 else 0)
  }

  /** What the subject pays at an event. */
  function Paid(l: Limits, full: Table, e: Event, subject: string): nat {
    if e.subject == subject && Remember(l, full, e).1 then 1 else 0
  }

  function Sum(paid: nat -> nat, i: nat, j: nat): nat {
    if i >= j then 0 else Sum(paid, i, j - 1) + paid(j - 1)
  }

  lemma SumNext(paid: nat -> nat, i: nat, n: nat)
    requires i <= n
    ensures Sum(paid, i, n + 1) == Sum(paid, i, n) + paid(n)
  {
  }

  /** What the subject pays at each event of the limiter that never forgets. */
  function Payments(l: Limits, events: seq<Event>, fulls: seq<Table>, subject: string): nat -> nat {
    (k: nat) => if k < |events| && k < |fulls| then Paid(l, fulls[k], events[k], subject) else 0
  }

  lemma PaidIsAnswer(l: Limits, events: seq<Event>, tables: seq<Table>, fulls: seq<Table>, subject: string, k: nat)
    requires Earns(l) && Run(l, events, tables) && Forever(l, events, fulls) && k < |events|
    requires AbsentOnlyFull(l, events, tables, subject, k + 1)
    ensures Paid(l, fulls[k], events[k], subject)
              == if events[k].subject == subject && Answer(l, tables[k], events[k]) then 1 else 0
  {
    if events[k].subject == subject {
      ForgettingIsInvisible(l, events, tables, fulls, k);
    }
  }

  /** The limiter allows what the other one is paid for. */
  lemma {:induction false} AllowedIsPaid(l: Limits, events: seq<Event>, tables: seq<Table>, fulls: seq<Table>,
                                         subject: string, i: nat, j: nat)
    requires Earns(l) && Run(l, events, tables) && Forever(l, events, fulls) && j <= |events|
    requires AbsentOnlyFull(l, events, tables, subject, j)
    ensures Allowed(l, events, tables, subject, i, j) == Sum(Payments(l, events, fulls, subject), i, j)
    decreases j
  {
    if i < j {
      AllowedIsPaid(l, events, tables, fulls, subject, i, j - 1);
      PaidIsAnswer(l, events, tables, fulls, subject, j - 1);
    }
  }

  /** No reading of the subject among events i..j is later. */
  ghost predicate Latest(events: seq<Event>, subject: string, i: nat, j: nat, last: real)
    requires j <= |events|
  {
    forall k :: i <= k < j && events[k].subject == subject ==> events[k].now <= last
  }

  /** In the window, which starts with a request of the subject, it is allowed at most burst requests and
      what time brings from that request's reading to the subject's latest one. */
  ghost predicate WithinBound(l: Limits, events: seq<Event>, tables: seq<Table>, subject: string, i: nat, j: nat)
    requires i < j <= |events| < |tables|
  {
    forall last :: Latest(events, subject, i, j, last)
                   ==> Allowed(l, events, tables, subject, i, j) as real
                         <= l.burst as real + l.gain(last - events[i].now)
  }

  /** A request moves tokens and time forward together. */
  lemma SpendFlows(l: Limits, b: Bucket, now: real)
    requires Earns(l) && Additive(l)
    ensures var r := Spend(l, b, now);
            && r.0.updated == (if now > b.updated then now else b.updated)
            && r.0.tokens + (if r.1 then 1.0 else 0.0) <= b.tokens + l.gain(r.0.updated - b.updated)
  {
    assert AddsAt(l, 0.0, 0.0);
  }

  /** What was paid since request i, plus the tokens left, is at most burst and what the time since
      has brought to the bucket. */
  ghost predicate Flows(l: Limits, events: seq<Event>, fulls: seq<Table>, subject: string, i: nat, j: nat, last: real)
    requires i < j <= |events| && j < |fulls|
  {
    && subject in fulls[i + 1] && subject in fulls[j]
    && var first, now := fulls[i + 1][subject].updated, fulls[j][subject].updated;
       && events[i].now <= first <= now && (now <= last || now == first)
       && Sum(Payments(l, events, fulls, subject), i, j) as real + fulls[j][subject].tokens
            <= l.burst as real + l.gain(now - first)
  }

  lemma FlowStarts(l: Limits, events: seq<Event>, fulls: seq<Table>, i: nat, last: real)
    requires Earns(l) && Additive(l) && Forever(l, events, fulls) && i < |events|
    ensures Flows(l, events, fulls, events[i].subject, i, i + 1, last)
  {
    var paid := Payments(l, events, fulls, events[i].subject);
    ForeverSane(l, events, fulls, i);
    assert RemembersAt(l, events, fulls, i);
    SumNext(paid, i, i);
    assert Sum(paid, i, i) == 0;
    assert AddsAt(l, 0.0, 0.0);
  }

  lemma FlowNext(l: Limits, events: seq<Event>, fulls: seq<Table>, subject: string, i: nat, j: nat, last: real)
    requires Earns(l) && Additive(l) && Forever(l, events, fulls) && i < j < |events|
    requires Flows(l, events, fulls, subject, i, j, last) && (events[j].subject == subject ==> events[j].now <= last)
    ensures Flows(l, events, fulls, subject, i, j + 1, last)
  {
    var e, b, first := events[j], fulls[j][subject], fulls[i + 1][subject].updated;
    assert RemembersAt(l, events, fulls, j);
    SumNext(Payments(l, events, fulls, subject), i, j);
    if e.subject == subject {
      SpendFlows(l, b, e.now);
      assert AddsAt(l, Spend(l, b, e.now).0.updated - b.updated, b.updated - first);
    }
  }

  lemma {:induction false} FlowRuns(l: Limits, events: seq<Event>, fulls: seq<Table>, subject: string, i: nat, j: nat,
                                    last: real)
    requires Earns(l) && Additive(l) && Forever(l, events, fulls) && i < j <= |events|
    requires events[i].subject == subject && Latest(events, subject, i, j, last)
    ensures Flows(l, events, fulls, subject, i, j, last)
    decreases j
  {
    if j == i + 1 {
      FlowStarts(l, events, fulls, i, last);
    } else {
      assert Latest(events, subject, i, j - 1, last);
      FlowRuns(l, events, fulls, subject, i, j - 1, last);
      FlowNext(l, events, fulls, subject, i, j - 1, last);
    }
  }

  lemma MoreTime(l: Limits, x: real, y: real)
    requires Earns(l) && Additive(l) && x <= y
    ensures l.gain(x) <= l.gain(y)
  {
    assert AddsAt(l, x, y - x);
  }

  /** A subject whose bucket is only missing when it would be full stays within the bound in every window. */
  lemma WindowBound(l: Limits, events: seq<Event>, tables: seq<Table>, subject: string, i: nat, j: nat)
    requires Earns(l) && Additive(l) && Run(l, events, tables) && i < j <= |events| && events[i].subject == subject
    requires AbsentOnlyFull(l, events, tables, subject, j)
    ensures WithinBound(l, events, tables, subject, i, j)
  {
    var fulls := ForeverExists(l, events);
    AllowedIsPaid(l, events, tables, fulls, subject, i, j);
    ForeverSane(l, events, fulls, j);
    forall last | Latest(events, subject, i, j, last)
      ensures Allowed(l, events, tables, subject, i, j) as real <= l.burst as real + l.gain(last - events[i].now)
    {
      FlowRuns(l, events, fulls, subject, i, j, last);
      MoreTime(l, fulls[j][subject].updated - fulls[i + 1][subject].updated, last - events[i].now);
    }
  }


  // ----- who is evicted ----------------------------------------------------------------------------

  /** The buckets still live at the event's reading. */
  function LiveSubjects(l: Limits, t: Table, now: real): set<string> {
    set s | s in t && t[s].lastSeen + l.ttl > now
  }

  /** In every run over non-empty subjects a live bucket leaves the table only to make room: the event's
      subject is new, the live buckets fill the table, and this one is older than every other.  Then it is
      the only one to leave. */
  lemma EvictedIff(l: Limits, events: seq<Event>, tables: seq<Table>, n: nat, s: string)
    requires l.Valid() && Run(l, events, tables) && n < |events|
    requires forall k :: 0 <= k < |events| ==> events[k].subject != ""
    ensures var t, e := tables[n], events[n];
            var live := LiveSubjects(l, t, e.now);
            s in live && s !in tables[n + 1] <==>
              && s in live && e.subject !in live && |live| >= l.maxBuckets
              && forall other :: other in live && other != s ==>
                   t[s].lastSeen < t[other].lastSeen || (t[s].lastSeen == t[other].lastSeen && Less(s, other))
  {
    var t, e := tables[n], events[n];
    RunStep(l, events, tables, n);
    RunBounded(l, events, tables, n);
    var pruned := Prune(l, t, e.now);
    assert pruned.Keys == LiveSubjects(l, t, e.now);
    assert |pruned| == |pruned.Keys|;
    if e.subject !in pruned && |pruned| >= l.maxBuckets {
      EvictsOldest(pruned, e.order);
      var o :| o in pruned && Evict(pruned, e.order) == pruned - {o}
               && forall other :: other in pruned && other != o ==> Older(pruned, o, other);
      OnlyOldest(pruned, o, s);
    }
  }

  lemma OnlyOldest(t: Table, o: string, s: string)
    requires o in t && forall other :: other in t && other != o ==> Older(t, o, other)
    ensures s in t && (forall other :: other in t && other != s ==>
                         t[s].lastSeen < t[other].lastSeen || (t[s].lastSeen == t[other].lastSeen && Less(s, other)))
            <==> s == o
  {
    if s in t && s != o {
      LessTrichotomy(o, s);
      assert Older(t, o, s);
    }
  }
}
