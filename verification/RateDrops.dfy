/** Exactly when the rate limiter's bound holds: which forgotten buckets let a subject exceed it
    (internal/gateway/gateway.go). */
module RateDrops {
  import opened Basics
  import opened RateLimiter
  import opened RateWindow

  // ----- continuing a run --------------------------------------------------------------------------

  /** A run over the first k events, continued by burst requests of the subject with the reading of the
      last of these events. */
  ghost predicate Continues(l: Limits, events: seq<Event>, tables: seq<Table>, subject: string, k: nat,
                            longer: seq<Event>, longerTables: seq<Table>)
    requires 0 < k <= |events| < |tables|
  {
    && Run(l, longer, longerTables)
    && |longer| == k + l.burst && longer[..k] == events[..k] && longerTables[..k + 1] == tables[..k + 1]
    && forall j :: k <= j < |longer| ==> longer[j].subject == subject && longer[j].now == events[k - 1].now
  }

  /** The subject stays within the bound in every window that starts with one of its requests. */
  ghost predicate InBound(l: Limits, events: seq<Event>, tables: seq<Table>, subject: string)
    requires |events| < |tables|
  {
    forall i, j :: 0 <= i < j <= |events| && events[i].subject == subject
                   ==> WithinBound(l, events, tables, subject, i, j)
  }

  /** However the subject uses its tokens after k events, it stays within the bound in every window. */
  ghost predicate StaysInBound(l: Limits, events: seq<Event>, tables: seq<Table>, subject: string, k: nat)
    requires 0 < k <= |events| < |tables|
  {
    forall longer, longerTables :: Continues(l, events, tables, subject, k, longer, longerTables)
                                   ==> InBound(l, longer, longerTables, subject)
  }

  lemma RunPrefix(l: Limits, events: seq<Event>, tables: seq<Table>, k: nat)
    requires Run(l, events, tables) && k <= |events|
    ensures Run(l, events[..k], tables[..k + 1])
  {
    var first, firstTables := events[..k], tables[..k + 1];
    forall n | 0 <= n < k
      ensures StepAt(l, first, firstTables, n)
    {
      RunStep(l, events, tables, n);
    }
  }

  /** A run goes on with any request. */
  lemma RunPush(l: Limits, events: seq<Event>, tables: seq<Table>, e: Event)
    requires Run(l, events, tables) && Enumerates(e.order, Prune(l, tables[|events|], e.now))
    ensures Run(l, events + [e], tables + [Admit(l, tables[|events|], e.subject, e.now, e.order).0])
  {
    var next := Admit(l, tables[|events|], e.subject, e.now, e.order).0;
    var longer, longerTables := events + [e], tables + [next];
    forall n | 0 <= n < |longer|
      ensures StepAt(l, longer, longerTables, n)
    {
      if n < |events| {
        RunStep(l, events, tables, n);
      }
    }
  }

  lemma {:induction false} RunExtends(l: Limits, events: seq<Event>, tables: seq<Table>, subject: string, m: nat)
    returns (longer: seq<Event>, longerTables: seq<Table>)
    requires Run(l, events, tables) && events != []
    ensures Run(l, longer, longerTables) && |longer| == |events| + m
    ensures longer[..|events|] == events && longerTables[..|tables|] == tables
    ensures forall j :: |events| <= j < |longer| ==>
              longer[j].subject == subject && longer[j].now == events[|events| - 1].now
  {
    longer, longerTables := events, tables;
    if m > 0 {
      var before, beforeTables := RunExtends(l, events, tables, subject, m - 1);
      var now := events[|events| - 1].now;
      var pruned := Prune(l, beforeTables[|before|], now);
      var order := SomeOrder(pruned, pruned.Keys);
      var e := Event(subject, now, order);
      RunPush(l, before, beforeTables, e);
      longer, longerTables := before + [e], beforeTables + [Admit(l, beforeTables[|before|], subject, now, order).0];
    }
  }

  // ----- a bucket is only missing while it would be full: the bound holds -------------------------------

  /** Right after a request no bucket in the table has expired. */
  lemma AdmitLive(l: Limits, t: Table, e: Event, next: Table)
    requires l.Valid() && StepsTo(l, t, e, next)
    ensures forall s :: s in next ==> Live(l, next[s], e.now)
    ensures e.subject in next
    ensures forall s :: s in next <==> s in Room(l, t, e) || s == e.subject
  {
    RoomKeeps(l, Prune(l, t, e.now), e.subject, e.order);
  }

  lemma {:induction false} SameMemory(tables: seq<Table>, longerTables: seq<Table>, subject: string, n: nat)
    requires n < |tables| && n < |longerTables| && longerTables[..n + 1] == tables[..n + 1]
    ensures Remembered(longerTables, subject, n) == Remembered(tables, subject, n)
  {
    assert longerTables[n] == longerTables[..n + 1][n] == tables[n];
    if n > 0 {
      assert longerTables[..n] == longerTables[..n + 1][..n] == tables[..n + 1][..n] == tables[..n];
      SameMemory(tables, longerTables, subject, n - 1);
    }
  }

  /** The first k events are those of the run. */
  lemma SamePrefix(l: Limits, events: seq<Event>, tables: seq<Table>, subject: string, k: nat,
                   longer: seq<Event>, longerTables: seq<Table>, n: nat)
    requires n < k <= |events| < |tables| && Continues(l, events, tables, subject, k, longer, longerTables)
    ensures longer[n] == events[n] && longerTables[n] == tables[n] && longerTables[n + 1] == tables[n + 1]
    ensures FullIfAbsentAt(l, longer, longerTables, subject, n) <==> FullIfAbsentAt(l, events, tables, subject, n)
  {
    assert longer[n] == longer[..k][n] && longerTables[n] == longerTables[..k + 1][n];
    assert longerTables[n + 1] == longerTables[..k + 1][n + 1];
    assert longerTables[..n + 1] == longerTables[..k + 1][..n + 1] == tables[..k + 1][..n + 1] == tables[..n + 1];
    SameMemory(tables, longerTables, subject, n);
  }

  /** A request at the reading of the one before: the subject's bucket is missing only if it was
      missing then and still is, and if it was full then, it is now. */
  lemma SameReading(l: Limits, events: seq<Event>, tables: seq<Table>, subject: string, n: nat)
    requires l.Valid() && Run(l, events, tables) && n + 1 < |events|
    requires events[n + 1].now == events[n].now && events[n + 1].subject == subject
    requires FullIfAbsentAt(l, events, tables, subject, n)
    ensures FullIfAbsentAt(l, events, tables, subject, n + 1)
  {
    RunStep(l, events, tables, n);
    RunStep(l, events, tables, n + 1);
    AdmitLive(l, tables[n], events[n], tables[n + 1]);
  }

  lemma {:induction false} ContinuationAt(l: Limits, events: seq<Event>, tables: seq<Table>, subject: string, k: nat,
                                          longer: seq<Event>, longerTables: seq<Table>, n: nat)
    requires l.Valid() && Run(l, events, tables) && 0 < k <= |events| && n < |longer|
    requires Continues(l, events, tables, subject, k, longer, longerTables)
    requires AbsentOnlyFull(l, events, tables, subject, |events|)
    ensures FullIfAbsentAt(l, longer, longerTables, subject, n)
  {
    if n < k {
      assert FullIfAbsentAt(l, events, tables, subject, n);
      SamePrefix(l, events, tables, subject, k, longer, longerTables, n);
    } else {
      SamePrefix(l, events, tables, subject, k, longer, longerTables, k - 1);
      ContinuationAt(l, events, tables, subject, k, longer, longerTables, n - 1);
      SameReading(l, longer, longerTables, subject, n - 1);
    }
  }

  /** The continuation forgets nothing of the subject. */
  lemma ContinuationAbsent(l: Limits, events: seq<Event>, tables: seq<Table>, subject: string, k: nat,
                           longer: seq<Event>, longerTables: seq<Table>)
    requires l.Valid() && Run(l, events, tables) && 0 < k <= |events|
    requires Continues(l, events, tables, subject, k, longer, longerTables)
    requires AbsentOnlyFull(l, events, tables, subject, |events|)
    ensures AbsentOnlyFull(l, longer, longerTables, subject, |longer|)
  {
    forall n | 0 <= n < |longer|
      ensures FullIfAbsentAt(l, longer, longerTables, subject, n)
    {
      ContinuationAt(l, events, tables, subject, k, longer, longerTables, n);
    }
  }

  // ----- a bucket is missing before it is full: the bound breaks -----------------------------------------

  /** Request i of the subject found a full bucket, and since then the requests paid for and the
      tokens left add up exactly to what there was and what time brought. */
  ghost predicate Exact(l: Limits, events: seq<Event>, fulls: seq<Table>, subject: string, n: nat, i: nat)
    requires n <= |events| && n < |fulls|
  {
    && i < n && events[i].subject == subject && subject in fulls[n]
    && events[i].now <= fulls[n][subject].updated && Latest(events, subject, i, n, fulls[n][subject].updated)
    && Sum(Payments(l, events, fulls, subject), i, n) as real + fulls[n][subject].tokens
         == l.burst as real + l.gain(fulls[n][subject].updated - events[i].now)
  }

  lemma ExactOther(l: Limits, events: seq<Event>, fulls: seq<Table>, subject: string, n: nat, i: nat)
    requires Forever(l, events, fulls) && n < |events| && events[n].subject != subject
    requires Exact(l, events, fulls, subject, n, i)
    ensures Exact(l, events, fulls, subject, n + 1, i)
  {
    assert RemembersAt(l, events, fulls, n);
    SumNext(Payments(l, events, fulls, subject), i, n);
  }

  lemma ExactFull(l: Limits, events: seq<Event>, fulls: seq<Table>, n: nat)
    requires l.burst > 0 && Earns(l) && Additive(l) && Forever(l, events, fulls) && n < |events|
    requires var s := events[n].subject; s in fulls[n] ==> FullAt(l, fulls[n][s], events[n].now)
    ensures Exact(l, events, fulls, events[n].subject, n + 1, n)
  {
    var e := events[n];
    assert RemembersAt(l, events, fulls, n);
    ForeverSane(l, events, fulls, n);
    FromFull(l, fulls[n], e);
    assert AddsAt(l, 0.0, 0.0);
    var paid := Payments(l, events, fulls, e.subject);
    assert Sum(paid, n, n) == 0;
    SumNext(paid, n, n);
  }

  /** What a request does to a bucket that is not full. */
  lemma PartStep(l: Limits, events: seq<Event>, fulls: seq<Table>, n: nat)
    requires Earns(l) && Additive(l) && Forever(l, events, fulls) && n < |events|
    requires events[n].subject in fulls[n] && !FullAt(l, fulls[n][events[n].subject], events[n].now)
    ensures var s := events[n].subject;
            && s in fulls[n + 1]
            && fulls[n + 1][s].updated == Later(fulls[n][s].updated, events[n].now)
            && fulls[n + 1][s].tokens + Payments(l, events, fulls, s)(n) as real
                 == fulls[n][s].tokens + l.gain(fulls[n + 1][s].updated - fulls[n][s].updated)
  {
    assert RemembersAt(l, events, fulls, n);
    ForeverSane(l, events, fulls, n);
    NotCapped(l, fulls[n][events[n].subject], events[n].now);
  }

  lemma ExactPart(l: Limits, events: seq<Event>, fulls: seq<Table>, n: nat, i: nat)
    requires Earns(l) && Additive(l) && Forever(l, events, fulls) && n < |events|
    requires Exact(l, events, fulls, events[n].subject, n, i)
    requires !FullAt(l, fulls[n][events[n].subject], events[n].now)
    ensures Exact(l, events, fulls, events[n].subject, n + 1, i)
  {
    var s := events[n].subject;
    PartStep(l, events, fulls, n);
    assert AddsAt(l, fulls[n + 1][s].updated - fulls[n][s].updated, fulls[n][s].updated - events[i].now);
    SumNext(Payments(l, events, fulls, s), i, n);
  }

  /** Once a subject has a bucket, there is such a request. */
  lemma {:induction false} ExactPotential(l: Limits, events: seq<Event>, fulls: seq<Table>, subject: string, n: nat)
    returns (i: nat)
    requires l.burst > 0 && Earns(l) && Additive(l) && Forever(l, events, fulls) && n <= |events|
    requires subject in fulls[n]
    ensures Exact(l, events, fulls, subject, n, i)
  {
    var e, full := events[n - 1], fulls[n - 1];
    assert RemembersAt(l, events, fulls, n - 1);
    if e.subject != subject {
      i := ExactPotential(l, events, fulls, subject, n - 1);
      ExactOther(l, events, fulls, subject, n - 1, i);
    } else if subject !in full || FullAt(l, full[subject], e.now) {
      i := n - 1;
      ExactFull(l, events, fulls, n - 1);
    } else {
      i := ExactPotential(l, events, fulls, subject, n - 1);
      ExactPart(l, events, fulls, n - 1, i);
    }
  }

  lemma FromFull(l: Limits, full: Table, e: Event)
    requires l.burst > 0 && AllSane(l, full) && (e.subject in full ==> FullAt(l, full[e.subject], e.now))
    ensures var b := Remember(l, full, e).0[e.subject];
            b.updated == e.now && b.tokens + Paid(l, full, e, e.subject) as real == l.burst as real
  {
  }

  function Later(x: real, y: real): real {
    if y > x then y else x
  }

  /** A bucket that is not full has not been capped. */
  lemma NotCapped(l: Limits, b: Bucket, now: real)
    requires Earns(l) && Additive(l) && Sane(l, b) && !FullAt(l, b, now)
    ensures Refill(l, b, now).tokens == b.tokens + l.gain(Later(b.updated, now) - b.updated) < l.burst as real
  {
    assert AddsAt(l, 0.0, 0.0);
  }

  /** After a bucket was forgotten, c requests have been allowed since at this same moment. */
  predicate Anew(l: Limits, t: Table, subject: string, now: real, c: nat) {
    c <= l.burst && if subject in t then t[subject] == Bucket((l.burst - c) as real, now, now) else c == 0
  }

  /** One more request at that moment is allowed until burst have been. */
  lemma AnewStep(l: Limits, t: Table, e: Event, next: Table, c: nat)
    requires l.Valid() && StepsTo(l, t, e, next) && Anew(l, t, e.subject, e.now, c)
    ensures Answer(l, t, e) <==> c < l.burst
    ensures Anew(l, next, e.subject, e.now, if c < l.burst then c + 1 else c)
  {
    var pruned := Prune(l, t, e.now);
    assert e.subject in t ==> e.subject in pruned && pruned[e.subject] == t[e.subject];
  }

  /** From event n on, which finds or leaves the subject's bucket forgotten, burst requests are allowed
      at once. */
  lemma {:induction false} BurstAgain(l: Limits, events: seq<Event>, tables: seq<Table>, subject: string,
                                      n: nat, m: nat)
    requires l.Valid() && l.burst > 0 && Run(l, events, tables) && n + m < |events| && m <= l.burst
    requires Enumerates(events[n].order, Prune(l, tables[n], events[n].now))
    requires subject !in Room(l, tables[n], events[n])
    requires forall j :: n < j < |events| ==> events[j].subject == subject && events[j].now == events[n].now
    ensures var c := Allowed(l, events, tables, subject, n, n + m + 1);
            m <= c <= m + 1 && Anew(l, tables[n + m + 1], subject, events[n].now, c)
  {
    RunStep(l, events, tables, n + m);
    if m == 0 {
      FirstAnew(l, tables[n], events[n], tables[n + 1], subject);
      assert Allowed(l, events, tables, subject, n, n) == 0;
    } else {
      BurstAgain(l, events, tables, subject, n, m - 1);
      AnewStep(l, tables[n + m], events[n + m], tables[n + m + 1], Allowed(l, events, tables, subject, n, n + m));
    }
  }

  lemma FirstAnew(l: Limits, t: Table, e: Event, next: Table, subject: string)
    requires l.Valid() && l.burst > 0 && StepsTo(l, t, e, next) && subject !in Room(l, t, e)
    ensures Anew(l, next, subject, e.now, if e.subject == subject && Answer(l, t, e) then 1 else 0)
  {
    RoomKeeps(l, Prune(l, t, e.now), e.subject, e.order);
  }

  lemma {:induction false} AllowedSplits(l: Limits, events: seq<Event>, tables: seq<Table>, subject: string,
                                         i: nat, n: nat, j: nat)
    requires i <= n <= j <= |events| < |tables|
    ensures Allowed(l, events, tables, subject, i, j)
              == Allowed(l, events, tables, subject, i, n) + Allowed(l, events, tables, subject, n, j)
    decreases j
  {
    if n < j {
      AllowedSplits(l, events, tables, subject, i, n, j - 1);
    }
  }

  lemma Continued(l: Limits, events: seq<Event>, tables: seq<Table>, subject: string, k: nat)
    returns (longer: seq<Event>, longerTables: seq<Table>)
    requires Run(l, events, tables) && 0 < k <= |events|
    ensures Continues(l, events, tables, subject, k, longer, longerTables)
  {
    RunPrefix(l, events, tables, k);
    longer, longerTables := RunExtends(l, events[..k], tables[..k + 1], subject, l.burst);
  }

  /** A bucket that is not full: since some earlier request more was allowed than the time brought. */
  lemma SpentMore(l: Limits, events: seq<Event>, tables: seq<Table>, subject: string, n: nat, b: Bucket)
    returns (i: nat, last: real)
    requires Earns(l) && Additive(l) && Run(l, events, tables) && n < |events|
    requires AbsentOnlyFull(l, events, tables, subject, n)
    requires l.burst > 0 && Remembered(tables, subject, n) == Some(b) && !FullAt(l, b, events[n].now)
    ensures i < n && events[i].subject == subject
    ensures events[n].now <= last && Latest(events, subject, i, n, last)
    ensures Allowed(l, events, tables, subject, i, n) as real > l.gain(last - events[i].now)
  {
    var fulls := ForeverExists(l, events);
    RunAgreesOn(l, events, tables, fulls, subject, n);
    ForeverSane(l, events, fulls, n);
    i := ExactPotential(l, events, fulls, subject, n);
    last := Later(b.updated, events[n].now);
    AllowedIsPaid(l, events, tables, fulls, subject, i, n);
    NotCapped(l, b, events[n].now);
    assert AddsAt(l, last - b.updated, b.updated - events[i].now);
  }

  lemma {:induction false} RememberedSane(l: Limits, events: seq<Event>, tables: seq<Table>, subject: string, n: nat)
    requires Earns(l) && Run(l, events, tables) && n <= |events| && Remembered(tables, subject, n).Some?
    ensures Sane(l, Remembered(tables, subject, n).value)
  {
    RunSane(l, events, tables, n);
    if subject !in tables[n] {
      RememberedSane(l, events, tables, subject, n - 1);
    }
  }

  lemma HasBurst(l: Limits, b: Bucket, now: real)
    requires Earns(l) && Sane(l, b) && !FullAt(l, b, now)
    ensures l.burst > 0
  {
  }

  /** Request n's section is the first that finds or leaves forgotten a bucket that is not full: burst
      requests right after it break the bound. */
  lemma BoundBroken(l: Limits, events: seq<Event>, tables: seq<Table>, subject: string, n: nat)
    returns (i: nat)
    requires l.Valid() && Earns(l) && Additive(l) && Run(l, events, tables) && |events| == n + 1 + l.burst
    requires AbsentOnlyFull(l, events, tables, subject, n) && !FullIfAbsentAt(l, events, tables, subject, n)
    requires forall j :: n < j < |events| ==> events[j].subject == subject && events[j].now == events[n].now
    ensures i < |events| && events[i].subject == subject && !WithinBound(l, events, tables, subject, i, |events|)
  {
    var b := Remembered(tables, subject, n).value;
    RememberedSane(l, events, tables, subject, n);
    HasBurst(l, b, events[n].now);
    var last;
    i, last := SpentMore(l, events, tables, subject, n, b);
    BurstAgain(l, events, tables, subject, n, l.burst);
    AllowedSplits(l, events, tables, subject, i, n, |events|);
    assert Latest(events, subject, i, |events|, last);
  }

  lemma Harm(l: Limits, events: seq<Event>, tables: seq<Table>, subject: string, n: nat)
    requires l.Valid() && Earns(l) && Additive(l) && Run(l, events, tables) && n < |events|
    requires AbsentOnlyFull(l, events, tables, subject, n) && !FullIfAbsentAt(l, events, tables, subject, n)
    ensures !StaysInBound(l, events, tables, subject, n + 1)
  {
    var longer, longerTables := Continued(l, events, tables, subject, n + 1);
    forall k | 0 <= k <= n
      ensures FullIfAbsentAt(l, longer, longerTables, subject, k) <==> FullIfAbsentAt(l, events, tables, subject, k)
      ensures longer[k] == events[k]
    {
      SamePrefix(l, events, tables, subject, n + 1, longer, longerTables, k);
    }
    var i := BoundBroken(l, longer, longerTables, subject, n);
  }

  lemma {:induction false} FirstHarm(l: Limits, events: seq<Event>, tables: seq<Table>, subject: string, m: nat)
    returns (n: nat)
    requires m <= |events| <= |tables| && !AbsentOnlyFull(l, events, tables, subject, m)
    ensures n < m && AbsentOnlyFull(l, events, tables, subject, n) && !FullIfAbsentAt(l, events, tables, subject, n)
  {
    if AbsentOnlyFull(l, events, tables, subject, m - 1) {
      n := m - 1;
    } else {
      n := FirstHarm(l, events, tables, subject, m - 1);
    }
  }

  /** At every moment of a run, whatever use the subject makes of its tokens, it stays within the bound in
      every window, if and only if its bucket is only missing while idle time would have refilled it. */
  lemma StaysInBoundIff(l: Limits, events: seq<Event>, tables: seq<Table>, subject: string)
    requires l.Valid() && Earns(l) && Additive(l) && Run(l, events, tables)
    ensures (forall k :: 0 < k <= |events| ==> StaysInBound(l, events, tables, subject, k))
            <==> AbsentOnlyFull(l, events, tables, subject, |events|)
  {
    if AbsentOnlyFull(l, events, tables, subject, |events|) {
      forall k, longer, longerTables
        | 0 < k <= |events| && Continues(l, events, tables, subject, k, longer, longerTables)
        ensures InBound(l, longer, longerTables, subject)
      {
        ContinuationAbsent(l, events, tables, subject, k, longer, longerTables);
        AlwaysInBound(l, longer, longerTables, subject);
      }
    } else {
      var n := FirstHarm(l, events, tables, subject, |events|);
      Harm(l, events, tables, subject, n);
    }
  }

  lemma AlwaysInBound(l: Limits, events: seq<Event>, tables: seq<Table>, subject: string)
    requires Earns(l) && Additive(l) && Run(l, events, tables)
    requires AbsentOnlyFull(l, events, tables, subject, |events|)
    ensures InBound(l, events, tables, subject)
  {
    forall i, j | 0 <= i < j <= |events| && events[i].subject == subject
      ensures WithinBound(l, events, tables, subject, i, j)
    {
      WindowBound(l, events, tables, subject, i, j);
    }
  }

  // ----- expiry alone ------------------------------------------------------------------------------------

  ghost predicate KeptAt(l: Limits, events: seq<Event>, tables: seq<Table>, subject: string, n: nat)
    requires n < |events| <= |tables|
  {
    var pruned := Prune(l, tables[n], events[n].now);
    Enumerates(events[n].order, pruned) && subject in pruned ==> subject in Room(l, tables[n], events[n])
  }

  /** No event evicts the subject's bucket; it may still expire. */
  ghost predicate NeverEvicted(l: Limits, events: seq<Event>, tables: seq<Table>, subject: string)
    requires |events| <= |tables|
  {
    forall n :: 0 <= n < |events| ==> KeptAt(l, events, tables, subject, n)
  }

  /** The clock readings come in the order of the lock. */
  ghost predicate Ordered(events: seq<Event>) {
    forall i, j :: 0 <= i < j < |events| ==> events[i].now <= events[j].now
  }

  /** The last reading before event n. */
  function Clock(events: seq<Event>, n: nat): real
    requires n <= |events|
  {
    if events == [] then 0.0 else if n == 0 then events[0].now else events[n - 1].now
  }

  ghost predicate AllFresh(t: Table, now: real) {
    forall s :: s in t ==> t[s].updated == t[s].lastSeen <= now
  }

  /** With readings in order every bucket was last seen when it was last refilled. */
  lemma {:induction false} OrderedFresh(l: Limits, events: seq<Event>, tables: seq<Table>, n: nat)
    requires Ordered(events) && Run(l, events, tables) && n <= |events|
    ensures AllFresh(tables[n], Clock(events, n))
  {
    if n > 0 {
      var e := events[n - 1];
      OrderedFresh(l, events, tables, n - 1);
      RunStep(l, events, tables, n - 1);
      RoomKeeps(l, Prune(l, tables[n - 1], e.now), e.subject, e.order);
    }
  }

  /** A bucket that is remembered and not in the table has expired. */
  lemma {:induction false} ForgottenExpired(l: Limits, events: seq<Event>, tables: seq<Table>, subject: string, n: nat)
    requires l.Valid() && Ordered(events) && Run(l, events, tables) && n <= |events|
    requires NeverEvicted(l, events, tables, subject) && Remembered(tables, subject, n).Some?
    ensures var b := Remembered(tables, subject, n).value;
            b.updated == b.lastSeen && (subject in tables[n] || b.lastSeen + l.ttl <= Clock(events, n))
  {
    OrderedFresh(l, events, tables, n);
    if subject !in tables[n] {
      ForgottenExpired(l, events, tables, subject, n - 1);
      RunStep(l, events, tables, n - 1);
      AdmitLive(l, tables[n - 1], events[n - 1], tables[n]);
      assert KeptAt(l, events, tables, subject, n - 1);
    }
  }

  /** A bucket idle for a lifetime is full. */
  lemma ExpiredIsFull(l: Limits, events: seq<Event>, tables: seq<Table>, subject: string)
    requires l.Valid() && Earns(l) && Recovers(l) && Ordered(events) && Run(l, events, tables)
    requires NeverEvicted(l, events, tables, subject)
    ensures AbsentOnlyFull(l, events, tables, subject, |events|)
  {
    forall n | 0 <= n < |events|
      ensures FullIfAbsentAt(l, events, tables, subject, n)
    {
      assert KeptAt(l, events, tables, subject, n);
      if Remembered(tables, subject, n).Some? {
        ForgottenExpired(l, events, tables, subject, n);
        RememberedSane(l, events, tables, subject, n);
      }
    }
  }

  /** burst requests at once, and burst more one lifetime later. */
  function TwoBursts(l: Limits, subject: string): seq<Event> {
    seq(2 * l.burst, n => Event(subject, if n < l.burst then 0.0 else l.ttl,
                                if n == 0 || n == l.burst then [] else [subject]))
  }

  function BurstTable(l: Limits, subject: string, n: int): Table {
    if n <= 0 then map[]
    else if n <= l.burst then map[subject := Bucket((l.burst - n) as real, 0.0, 0.0)]
    else map[subject := Bucket((2 * l.burst - n) as real, l.ttl, l.ttl)]
  }

  function BurstTables(l: Limits, subject: string): seq<Table> {
    seq(2 * l.burst + 1, n => BurstTable(l, subject, n))
  }

  /** Every request of the two bursts is allowed, and evicts nothing. */
  lemma BurstStep(l: Limits, subject: string, n: nat)
    requires l.Valid() && n < 2 * l.burst
    ensures var t, e := BurstTable(l, subject, n), TwoBursts(l, subject)[n];
            && StepsTo(l, t, e, BurstTable(l, subject, n + 1)) && Answer(l, t, e)
            && Room(l, t, e) == Prune(l, t, e.now)
  {
    var t, e := BurstTable(l, subject, n), TwoBursts(l, subject)[n];
    if n == l.burst {
      assert subject in t ==> !Live(l, t[subject], e.now);
      assert Prune(l, t, e.now) == map[];
    } else {
      assert Prune(l, t, e.now) == t;
    }
  }

  lemma BurstsRun(l: Limits, subject: string)
    requires l.Valid()
    ensures Run(l, TwoBursts(l, subject), BurstTables(l, subject))
    ensures NeverEvicted(l, TwoBursts(l, subject), BurstTables(l, subject), subject)
  {
    var events, tables := TwoBursts(l, subject), BurstTables(l, subject);
    forall n | 0 <= n < |events|
      ensures StepAt(l, events, tables, n) && KeptAt(l, events, tables, subject, n)
    {
      BurstStep(l, subject, n);
      assert tables[n] == BurstTable(l, subject, n) && tables[n + 1] == BurstTable(l, subject, n + 1);
    }
  }

  lemma {:induction false} BurstsAllowed(l: Limits, subject: string, n: nat)
    requires l.Valid() && n <= 2 * l.burst
    ensures Allowed(l, TwoBursts(l, subject), BurstTables(l, subject), subject, 0, n) == n
  {
    if n > 0 {
      BurstsAllowed(l, subject, n - 1);
      BurstStep(l, subject, n - 1);
      assert BurstTables(l, subject)[n - 1] == BurstTable(l, subject, n - 1);
    }
  }

  /** The bound over every run, with readings in order or in any order, for every subject that is never
      evicted in it. */
  ghost predicate Bounded(l: Limits, inOrder: bool) {
    forall events: seq<Event>, tables: seq<Table>, subject: string ::
      Run(l, events, tables) && NeverEvicted(l, events, tables, subject) && (inOrder ==> Ordered(events))
      ==> InBound(l, events, tables, subject)
  }

  /** A subject that returns one lifetime later is given a full bucket, however little the time brought. */
  lemma BoundNeedsRecovery(l: Limits)
    requires l.Valid() && l.burst > 0 && l.gain(l.ttl) < l.burst as real
    ensures !Bounded(l, true)
  {
    var n := 2 * l.burst;
    var events, tables := TwoBursts(l, "s"), BurstTables(l, "s");
    BurstsRun(l, "s");
    BurstsAllowed(l, "s", n);
    assert Latest(events, "s", 0, n, l.ttl);
    assert !WithinBound(l, events, tables, "s", 0, n);
  }

  /** In all runs whose readings come in order a subject that is never evicted stays within the bound, if
      and only if a lifetime suffices to refill a bucket. */
  lemma BoundedIff(l: Limits)
    requires l.Valid() && l.Steady() && l.rate > 0.0
    ensures Bounded(l, true) <==> l.ttl * l.rate >= l.burst as real
  {
    SteadyEarns(l);
    SteadyAdds(l);
    SteadyRecovers(l);
    if l.ttl * l.rate >= l.burst as real {
      forall events: seq<Event>, tables: seq<Table>, subject: string
        | Run(l, events, tables) && NeverEvicted(l, events, tables, subject) && Ordered(events)
        ensures InBound(l, events, tables, subject)
      {
        ExpiredIsFull(l, events, tables, subject);
        AlwaysInBound(l, events, tables, subject);
      }
    } else {
      Times(0.0, l.ttl, l.rate);
      BoundNeedsRecovery(l);
    }
  }

  // ----- late readings -------------------------------------------------------------------------------------

  /** burst requests at one reading, one that comes late to the lock with a reading a lifetime older, and
      burst more at the first reading. */
  function LateReading(l: Limits, subject: string): seq<Event> {
    seq(2 * l.burst + 1, n => Event(subject, if n == l.burst then 0.0 else l.ttl,
                                    if n == 0 || n == l.burst + 1 then [] else [subject]))
  }

  function LateTable(l: Limits, subject: string, n: int): Table {
    if n <= 0 then map[]
    else if n <= l.burst then map[subject := Bucket((l.burst - n) as real, l.ttl, l.ttl)]
    else if n == l.burst + 1 then map[subject := Bucket(0.0, l.ttl, 0.0)]
    else map[subject := Bucket((2 * l.burst + 1 - n) as real, l.ttl, l.ttl)]
  }

  function LateTables(l: Limits, subject: string): seq<Table> {
    seq(2 * l.burst + 2, n => LateTable(l, subject, n))
  }

  /** Every request but the late one is allowed, and none evicts anything. */
  lemma LateStep(l: Limits, subject: string, n: nat)
    requires l.Valid() && l.burst > 0 && n < 2 * l.burst + 1
    ensures var t, e := LateTable(l, subject, n), LateReading(l, subject)[n];
            && StepsTo(l, t, e, LateTable(l, subject, n + 1)) && (Answer(l, t, e) <==> n != l.burst)
            && Room(l, t, e) == Prune(l, t, e.now)
  {
    var t, e := LateTable(l, subject, n), LateReading(l, subject)[n];
    if n == l.burst + 1 {
      assert Prune(l, t, e.now) == map[];
    } else {
      assert Prune(l, t, e.now) == t;
    }
  }

  lemma LateRun(l: Limits, subject: string)
    requires l.Valid() && l.burst > 0
    ensures Run(l, LateReading(l, subject), LateTables(l, subject))
    ensures NeverEvicted(l, LateReading(l, subject), LateTables(l, subject), subject)
  {
    var events, tables := LateReading(l, subject), LateTables(l, subject);
    forall n | 0 <= n < |events|
      ensures StepAt(l, events, tables, n) && KeptAt(l, events, tables, subject, n)
    {
      LateStep(l, subject, n);
      assert tables[n] == LateTable(l, subject, n) && tables[n + 1] == LateTable(l, subject, n + 1);
    }
  }

  lemma {:induction false} LateAllowed(l: Limits, subject: string, n: nat)
    requires l.Valid() && l.burst > 0 && n <= 2 * l.burst + 1
    ensures Allowed(l, LateReading(l, subject), LateTables(l, subject), subject, 0, n)
              == if n <= l.burst then n else n - 1
  {
    if n > 0 {
      LateAllowed(l, subject, n - 1);
      LateStep(l, subject, n - 1);
      assert LateTables(l, subject)[n - 1] == LateTable(l, subject, n - 1);
    }
  }

  lemma {:induction false} NoneAllowed(l: Limits, events: seq<Event>, tables: seq<Table>, subject: string,
                                       i: nat, j: nat)
    requires l.burst == 0 && Earns(l) && Run(l, events, tables) && j <= |events|
    ensures Allowed(l, events, tables, subject, i, j) == 0
    decreases j
  {
    if i < j {
      NoneAllowed(l, events, tables, subject, i, j - 1);
      RunSane(l, events, tables, j - 1);
      NoTokens(l, tables[j - 1], events[j - 1]);
    }
  }

  /** With readings in any order, expiry alone can break the bound whatever rate and lifetime are: it holds
      in all runs if and only if nothing is ever allowed. */
  lemma BoundedInAnyOrderIff(l: Limits)
    requires l.Valid() && Earns(l) && Additive(l)
    ensures Bounded(l, false) <==> l.burst == 0
  {
    assert AddsAt(l, 0.0, 0.0);
    if l.burst == 0 {
      forall events: seq<Event>, tables: seq<Table>, subject: string | Run(l, events, tables)
        ensures InBound(l, events, tables, subject)
      {
        NoneInBound(l, events, tables, subject);
      }
    } else {
      var n := 2 * l.burst + 1;
      var events, tables := LateReading(l, "s"), LateTables(l, "s");
      LateRun(l, "s");
      LateAllowed(l, "s", n);
      assert Latest(events, "s", 0, n, l.ttl);
      assert !WithinBound(l, events, tables, "s", 0, n);
    }
  }

  lemma NoneInBound(l: Limits, events: seq<Event>, tables: seq<Table>, subject: string)
    requires l.burst == 0 && Earns(l) && Run(l, events, tables)
    ensures InBound(l, events, tables, subject)
  {
    forall i, j | 0 <= i < j <= |events| && events[i].subject == subject
      ensures WithinBound(l, events, tables, subject, i, j)
    {
      NoneAllowed(l, events, tables, subject, i, j);
    }
  }

  // ----- eviction ------------------------------------------------------------------------------------------

  function OneBucket(s: string): Table {
    map[s := Bucket(0.0, 0.0, 0.0)]
  }

  /** One subject, then another that evicts it from a table of one bucket, then the first again. */
  lemma EvictingRun(l: Limits, a: string, b: string) returns (events: seq<Event>, tables: seq<Table>)
    requires l.Valid() && l.burst == 1 && l.maxBuckets == 1 && a != b && a != "" && b != ""
    ensures Run(l, events, tables) && |events| == 3
    ensures events[0].subject == events[2].subject == a && events[1].subject == b
    ensures forall n :: 0 <= n < 3 ==> events[n].now == 0.0 && Answer(l, tables[n], events[n])
  {
    events := [Event(a, 0.0, []), Event(b, 0.0, [a]), Event(a, 0.0, [b])];
    tables := [map[], OneBucket(a), OneBucket(b), OneBucket(a)];
    EvictingStep(l, a, b);
    EvictingStep(l, b, a);
    assert Prune(l, map[], 0.0) == map[];
    assert StepAt(l, events, tables, 0) && StepAt(l, events, tables, 1) && StepAt(l, events, tables, 2);
  }

  /** A table of one bucket, which a second subject evicts: the first is then allowed twice at once. */
  lemma EvictionBreaksBound() returns (l: Limits, events: seq<Event>, tables: seq<Table>)
    ensures l.Valid() && l.Steady() && l.rate > 0.0 && l.ttl * l.rate >= l.burst as real
    ensures Run(l, events, tables) && |events| == 3 && events[0].now == events[1].now == events[2].now
    ensures Allowed(l, events, tables, "p|a", 0, 3) == 2 && l.burst == 1
    ensures !WithinBound(l, events, tables, "p|a", 0, 3)
  {
    l := Limits(1.0, elapsed => elapsed * 1.0, 1, 10.0, 1);
    var a, b := "p|a", "p|b";
    assert a[2] != b[2];
    events, tables := EvictingRun(l, a, b);
    assert Allowed(l, events, tables, a, 0, 1) == 1;
    assert Allowed(l, events, tables, a, 0, 2) == 1;
    assert Latest(events, a, 0, 3, 0.0);
  }

  lemma EvictingStep(l: Limits, s: string, other: string)
    requires l.Valid() && l.burst == 1 && l.maxBuckets == 1 && s != other && s != ""
    ensures StepsTo(l, OneBucket(s), Event(other, 0.0, [s]), OneBucket(other))
    ensures Answer(l, OneBucket(s), Event(other, 0.0, [s]))
  {
    var t := OneBucket(s);
    assert Prune(l, t, 0.0) == t;
    ScanNext(t, [], s);
    assert [] + [s] == [s];
    assert t - {s} == map[];
  }
}
