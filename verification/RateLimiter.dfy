/** The token-bucket rate limiter with expiring buckets and a bounded table
    (internal/gateway/gateway.go).  Times are seconds; rounding is not modelled. */
module RateLimiter {
  import opened Basics
  import opened StringOrder

  datatype Bucket = Bucket(tokens: real, updated: real, lastSeen: real)

  type Table = map<string, Bucket>

  /** The configuration; gain says how many tokens a stretch of time brings. */
  datatype Limits = Limits(rate: real, gain: real -> real, burst: nat, ttl: real, maxBuckets: nat) {
    predicate Valid() {
      ttl > 0.0 && maxBuckets > 0
    }

    /** Tokens come at the configured rate. */
    ghost predicate Steady() {
      forall elapsed :: gain(elapsed) == elapsed * rate
    }
  }

  const DEFAULT_BUCKET_TTL := 600.0
  const DEFAULT_MAX_BUCKETS := 4096

  // ----- one request, as a function of the table ----------------------------------------------

  predicate Live(l: Limits, b: Bucket, now: real) {
    b.lastSeen + l.ttl > now
  }

  function Prune(l: Limits, t: Table, now: real): Table {
    map s | s in t && Live(l, t[s], now) :: t[s]
  }

  /** s was seen earlier than u, or at the same time and comes first by name. */
  predicate Older(t: Table, s: string, u: string)
    requires s in t && u in t
  {
    t[s].lastSeen < t[u].lastSeen || (t[s].lastSeen == t[u].lastSeen && Less(s, u))
  }

  /** The order lists the table's subjects, each once. */
  ghost predicate Enumerates(order: seq<string>, t: Table) {
    && (forall i :: 0 <= i < |order| ==> order[i] in t)
    && (forall s :: s in t ==> s in order)
    && (forall i, j :: 0 <= i < j < |order| ==> order[i] != order[j])
  }

  predicate Listed(order: seq<string>, t: Table) {
    forall i :: 0 <= i < |order| ==> order[i] in t
  }

  /** What the search for the oldest subject holds after visiting these; "" also stands for none. */
  function ScanOldest(t: Table, order: seq<string>): (o: string)
    requires Listed(order, t)
    ensures o != "" ==> o in t
  {
    if order == [] then ""
    else
      var o, s := ScanOldest(t, order[..|order| - 1]), order[|order| - 1];
      if o == "" || Older(t, s, o) then s else o
  }

  function Evict(t: Table, order: seq<string>): Table
    requires Listed(order, t)
  {
    var o := ScanOldest(t, order);
    if o == "" then t else t - {o}
  }

  function Refill(l: Limits, b: Bucket, now: real): Bucket {
    var elapsed := now - b.updated;
    if elapsed > 0.0 then
      var tokens := b.tokens + l.gain(elapsed);
      Bucket(if tokens > l.burst as real then l.burst as real else tokens, now, b.lastSeen)
    else b
  }

  /** Spending one token, if there is one. */
  function Spend(l: Limits, b: Bucket, now: real): (Bucket, bool) {
    var b := Refill(l, b, now).(lastSeen := now);
    if b.tokens < 1.0 then (b, false) else (b.(tokens := b.tokens - 1.0), true)
  }

  function BucketFor(l: Limits, t: Table, subject: string, now: real): Bucket {
    if subject in t then t[subject] else Bucket(l.burst as real, now, now)
  }

  /** The pruned table with room made for the subject. */
  function MakeRoom(l: Limits, pruned: Table, subject: string, order: seq<string>): Table
    requires Listed(order, pruned)
  {
    if subject in pruned || |pruned| < l.maxBuckets then pruned else Evict(pruned, order)
  }

  /** One request; order is the order in which eviction visits the table. */
  function Admit(l: Limits, t: Table, subject: string, now: real, order: seq<string>): (Table, bool)
    requires Listed(order, Prune(l, t, now))
  {
    var pruned := Prune(l, t, now);
    var (b, ok) := Spend(l, BucketFor(l, pruned, subject, now), now);
    (MakeRoom(l, pruned, subject, order)[subject := b], ok)
  }

  // ----- the limiter --------------------------------------------------------------------------

  class Limiter {
    const limits: Limits
    var buckets: Table

    constructor (rate: real, burst: nat, ttl: real, maxBuckets: int)
      ensures limits.Valid() && limits.Steady() && limits.rate == rate && limits.burst == burst && buckets == map[]
    {
      limits := Limits(rate, elapsed => elapsed * rate, burst, if ttl <= 0.0 then DEFAULT_BUCKET_TTL else ttl,
                       if maxBuckets <= 0 then DEFAULT_MAX_BUCKETS else maxBuckets);
      buckets := map[];
    }

    /** A request: the table and the answer are those of the function, with some order of visits. */
    method Allow(subject: string, now: real) returns (ok: bool, ghost order: seq<string>)
      requires limits.Steady()
      modifies this
      ensures limits.rate <= 0.0 ==> ok && buckets == old(buckets)
      ensures limits.rate > 0.0 ==>
                && Enumerates(order, Prune(limits, old(buckets), now))
                && (buckets, ok) == Admit(limits, old(buckets), subject, now, order)
    {
      order := [];
      if limits.rate <= 0.0 {
        return true, order;
      }
      RemoveExpired(now);
      ghost var pruned := buckets;
      order := SomeOrder(pruned, pruned.Keys);
      var bucket;
      if subject in buckets {
        bucket := buckets[subject];
      } else {
        if |buckets| >= limits.maxBuckets {
          order := EvictOldest();
        }
        bucket := Bucket(limits.burst as real, now, now);
      }
      ok, bucket := SpendToken(bucket, now);
      buckets := buckets[subject := bucket];
    }

    method SpendToken(before: Bucket, now: real) returns (ok: bool, bucket: Bucket)
      requires limits.Steady()
      ensures (bucket, ok) == Spend(limits, before, now)
    {
      bucket := before;
      var elapsed := now - bucket.updated;
      if elapsed > 0.0 {
        bucket := bucket.(tokens := bucket.tokens + elapsed * limits.rate);
        if bucket.tokens > limits.burst as real {
          bucket := bucket.(tokens := limits.burst as real);
        }
        bucket := bucket.(updated := now);
      }
      bucket := bucket.(lastSeen := now);
      assert bucket == Refill(limits, before, now).(lastSeen := now);
      if bucket.tokens < 1.0 {
        return false, bucket;
      }
      bucket := bucket.(tokens := bucket.tokens - 1.0);
      return true, bucket;
    }

    method RemoveExpired(now: real)
      modifies this
      ensures buckets == Prune(limits, old(buckets), now)
    {
      var subjects := buckets.Keys;
      while subjects != {}
        invariant subjects <= buckets.Keys <= old(buckets).Keys
        invariant forall s :: s in buckets ==> buckets[s] == old(buckets)[s]
        invariant forall s :: s in buckets && s !in subjects ==> Live(limits, buckets[s], now)
        invariant forall s :: s in old(buckets) && Live(limits, old(buckets)[s], now) ==> s in buckets
        decreases |subjects|
      {
        var s :| s in subjects;
        if !Live(limits, buckets[s], now) {
          buckets := buckets - {s};
        }
        subjects := subjects - {s};
      }
    }

    method EvictOldest() returns (ghost order: seq<string>)
      modifies this
      ensures Enumerates(order, old(buckets)) && buckets == Evict(old(buckets), order)
    {
      order := [];
      var oldest := "";
      var subjects := buckets.Keys;
      while subjects != {}
        invariant buckets == old(buckets) && subjects <= buckets.Keys
        invariant forall i :: 0 <= i < |order| ==> order[i] in buckets && order[i] !in subjects
        invariant forall s :: s in buckets && s !in subjects ==> s in order
        invariant forall i, j :: 0 <= i < j < |order| ==> order[i] != order[j]
        invariant oldest == ScanOldest(buckets, order)
        decreases |subjects|
      {
        var s :| s in subjects;
        ScanNext(buckets, order, s);
        if oldest == "" || Older(buckets, s, oldest) {
          oldest := s;
        }
        order := order + [s];
        subjects := subjects - {s};
      }
      if oldest != "" {
        buckets := buckets - {oldest};
      }
    }
  }

  lemma ScanNext(t: Table, order: seq<string>, s: string)
    requires Listed(order, t) && s in t
    ensures ScanOldest(t, order + [s])
              == if ScanOldest(t, order) == "" || Older(t, s, ScanOldest(t, order)) then s else ScanOldest(t, order)
  {
    assert (order + [s])[..|order|] == order;
  }

  /** Every finite table can be enumerated. */
  lemma {:induction false} SomeOrder(t: Table, subjects: set<string>) returns (order: seq<string>)
    requires subjects <= t.Keys
    ensures forall i :: 0 <= i < |order| ==> order[i] in subjects
    ensures forall s :: s in subjects ==> s in order
    ensures forall i, j :: 0 <= i < j < |order| ==> order[i] != order[j]
    decreases |subjects|
  {
    if subjects == {} {
      order := [];
    } else {
      var s :| s in subjects;
      var rest := SomeOrder(t, subjects - {s});
      order := rest + [s];
    }
  }

  // ----- what eviction removes ----------------------------------------------------------------

  /** Without the empty subject, the search ends with the subject that is older than every other. */
  lemma {:induction false} ScanFindsOldest(t: Table, order: seq<string>, s: string)
    requires Listed(order, t) && "" !in order && s in order
    ensures var o := ScanOldest(t, order);
            o in order && (s == o || Older(t, o, s))
  {
    var before, last := order[..|order| - 1], order[|order| - 1];
    assert order == before + [last];
    var o := ScanOldest(t, before);
    if before != [] {
      ScanFindsOldest(t, before, before[0]);
      LessTrichotomy(o, last);
      if s in before {
        ScanFindsOldest(t, before, s);
        if Older(t, last, o) && s != o && t[last].lastSeen == t[s].lastSeen {
          LessTransitive(last, o, s);
        }
      }
    }
  }

  /** Eviction from a table without the empty subject removes exactly the oldest bucket. */
  lemma EvictsOldest(t: Table, order: seq<string>)
    requires Enumerates(order, t) && "" !in t && t != map[]
    ensures exists o :: o in t && Evict(t, order) == t - {o} && forall s :: s in t && s != o ==> Older(t, o, s)
  {
    var first :| first in t;
    var o := ScanOldest(t, order);
    ScanFindsOldest(t, order, first);
    forall s | s in t && s != o
      ensures Older(t, o, s)
    {
      ScanFindsOldest(t, order, s);
    }
  }

  /** With the empty subject, eviction removes nothing exactly when the visit ends with it and no
      other subject was seen before it: then it is itself the oldest, and "" means none. */
  lemma EvictsNothing(t: Table, order: seq<string>)
    requires Enumerates(order, t) && "" in t
    ensures Evict(t, order) == t
            <==> order[|order| - 1] == "" && forall s :: s in t ==> t[""].lastSeen <= t[s].lastSeen
  {
    var before, last := order[..|order| - 1], order[|order| - 1];
    assert order == before + [last];
    ScanNext(t, before, last);
    if last == "" {
      OthersBefore(t, before);
      EndsEmpty(t, before);
    }
  }

  lemma OthersBefore(t: Table, before: seq<string>)
    requires Enumerates(before + [""], t)
    ensures "" in t && Listed(before, t) && "" !in before
    ensures forall s :: s in t && s != "" ==> s in before
  {
    var order := before + [""];
    assert order[|before|] == "" && forall i :: 0 <= i < |before| ==> order[i] == before[i];
  }

  /** When the visit ends with the empty subject, the search holds "" just when that was seen no later. */
  lemma EndsEmpty(t: Table, before: seq<string>)
    requires Listed(before, t) && "" in t && "" !in before && forall s :: s in t && s != "" ==> s in before
    ensures Listed(before + [""], t)
    ensures ScanOldest(t, before + [""]) == "" <==> forall s :: s in t ==> t[""].lastSeen <= t[s].lastSeen
  {
    ScanNext(t, before, "");
    if before == [] {
      assert forall s :: s in t ==> s == "";
    } else {
      var o := ScanOldest(t, before);
      ScanFindsOldest(t, before, before[0]);
      forall s | s in before
        ensures t[o].lastSeen <= t[s].lastSeen
      {
        ScanFindsOldest(t, before, s);
      }
      assert o in t && o != "";
    }
  }

  /** There is room for the subject afterwards. */
  lemma RoomMade(l: Limits, pruned: Table, subject: string, order: seq<string>)
    requires l.Valid() && |pruned| <= l.maxBuckets && "" !in pruned && Enumerates(order, pruned)
    ensures var kept := MakeRoom(l, pruned, subject, order);
            kept.Keys <= pruned.Keys && |kept.Keys + {subject}| <= l.maxBuckets
  {
    if subject in pruned {
      assert pruned.Keys + {subject} == pruned.Keys;
    } else if |pruned| >= l.maxBuckets {
      EvictsOne(pruned, order);
    }
  }

  lemma EvictsOne(t: Table, order: seq<string>)
    requires Enumerates(order, t) && "" !in t && t != map[]
    ensures Evict(t, order).Keys < t.Keys && |Evict(t, order).Keys| == |t| - 1
  {
    EvictsOldest(t, order);
    var o :| o in t && Evict(t, order) == t - {o};
    assert (t - {o}).Keys == t.Keys - {o};
  }

  /** As long as no subject is empty, the table never holds more than its limit. */
  lemma TableBounded(l: Limits, t: Table, subject: string, now: real, order: seq<string>)
    requires l.Valid() && |t| <= l.maxBuckets && "" !in t && subject != ""
    requires Enumerates(order, Prune(l, t, now))
    ensures var next := Admit(l, t, subject, now, order).0;
            |next| <= l.maxBuckets && "" !in next
  {
    var pruned := Prune(l, t, now);
    assert pruned.Keys <= t.Keys;
    FewerMembers(pruned.Keys, t.Keys);
    RoomMade(l, pruned, subject, order);
    AdmitKeys(l, t, subject, now, order);
  }

  lemma AdmitKeys(l: Limits, t: Table, subject: string, now: real, order: seq<string>)
    requires Listed(order, Prune(l, t, now))
    ensures Admit(l, t, subject, now, order).0.Keys
              == MakeRoom(l, Prune(l, t, now), subject, order).Keys + {subject}
  {
  }
}
