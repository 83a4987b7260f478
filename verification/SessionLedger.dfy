/** What the answers of the session store mean in terms of the operations before them: who created a
    session, when it was last seen, and which sessions a creation or a listing drops
    (internal/gateway/session.go). */
module SessionLedger {
  import opened Basics
  import opened StringOrder
  import opened Sessions
  import opened SessionRuns

  // ----- the ledger ------------------------------------------------------------------------------

  /** The operation that created the session, among the first n. */
  function Creator(ops: seq<Op>, id: string, n: nat): Option<nat>
    requires n <= |ops|
  {
    if n == 0 then None
    else if ops[n - 1].Create? && ops[n - 1].id == id then Some(n - 1)
    else Creator(ops, id, n - 1)
  }

  lemma {:induction false} CreatorIs(ops: seq<Op>, id: string, n: nat)
    requires n <= |ops|
    ensures Creator(ops, id, n).Some? ==>
              var c := Creator(ops, id, n).value;
              c < n && ops[c].Create? && ops[c].id == id
  {
    if n > 0 {
      CreatorIs(ops, id, n - 1);
    }
  }

  /** How the store answered the n-th operation, a lookup or a marking. */
  function AnswerAt(ttl: int, ops: seq<Op>, states: seq<History>, n: nat): Answer
    requires n < |ops| < |states| && (ops[n].TouchOp? || ops[n].MarkOp?)
  {
    var op := ops[n];
    if op.TouchOp? then Touch(states[n].store, op.id, op.principal, op.version, op.now, ttl).1
    else MarkRevoking(states[n].store, op.id, op.principal, op.version, op.now, ttl).1
  }

  predicate AcceptedLookup(ttl: int, ops: seq<Op>, states: seq<History>, id: string, n: nat)
    requires n < |ops| < |states|
  {
    ops[n].TouchOp? && ops[n].id == id && AnswerAt(ttl, ops, states, n).Accepted?
  }

  predicate AcceptedMarking(ttl: int, ops: seq<Op>, states: seq<History>, id: string, n: nat)
    requires n < |ops| < |states|
  {
    ops[n].MarkOp? && ops[n].id == id && AnswerAt(ttl, ops, states, n).Accepted?
  }

  /** The reading of the session's creation, or of its latest accepted lookup since. */
  function Seen(ttl: int, ops: seq<Op>, states: seq<History>, id: string, n: nat): int
    requires n <= |ops| < |states|
  {
    if n == 0 then 0
    else if ops[n - 1].Create? && ops[n - 1].id == id then ops[n - 1].now
    else if AcceptedLookup(ttl, ops, states, id, n - 1) then ops[n - 1].now
    else Seen(ttl, ops, states, id, n - 1)
  }

  /** An earlier marking of the session was accepted. */
  ghost predicate MarkedBefore(ttl: int, ops: seq<Op>, states: seq<History>, id: string, n: nat)
    requires n <= |ops| < |states|
  {
    exists m :: 0 <= m < n && AcceptedMarking(ttl, ops, states, id, m)
  }

  /** The session has been created and is not yet evicted, deleted or cleared. */
  predicate Live(h: History, id: string) {
    id in h.created && id !in h.notified && id !in h.deleted && id !in h.cleared
  }

  /** The store holds exactly what the operations before say. */
  ghost predicate Recorded(ttl: int, ops: seq<Op>, states: seq<History>, id: string, n: nat)
    requires n <= |ops| < |states|
  {
    id in states[n].store ==>
      var c := Creator(ops, id, n);
      && c.Some? && c.value < n && ops[c.value].Create?
      && states[n].store[id] == Session(ops[c.value].principal, ops[c.value].version, ops[c.value].now,
                                        Seen(ttl, ops, states, id, n), id in states[n].marked)
  }

  /** What one operation may do to a session it did not create. */
  lemma StepRecords(ttl: int, max: nat, h: History, op: Op, next: History, id: string)
    requires Step(ttl, max, h, op, next) && Inv(max, h) && id in next.store && !(op.Create? && op.id == id)
    ensures id in h.store
    ensures Records(ttl, h, op, next, id)
  {
    if op.Create? {
      CreationRecords(ttl, max, h, op, next, id);
    } else {
      OtherRecords(ttl, max, h, op, next, id);
    }
  }

  /** The session was looked up, marked, or left as it was. */
  ghost predicate Records(ttl: int, h: History, op: Op, next: History, id: string)
    requires id in h.store && id in next.store
  {
    var touched := op.TouchOp? && op.id == id
                   && Touch(h.store, id, op.principal, op.version, op.now, ttl).1.Accepted?;
    var marked := op.MarkOp? && op.id == id
                  && MarkRevoking(h.store, id, op.principal, op.version, op.now, ttl).1.Accepted?;
    && (touched ==> next.store[id] == h.store[id].(lastSeen := op.now))
    && (marked ==> next.store[id] == h.store[id].(revoking := true))
    && (!touched && !marked ==> next.store[id] == h.store[id])
    && (id in next.marked <==> marked || id in h.marked)
  }

  lemma CreationRecords(ttl: int, max: nat, h: History, op: Op, next: History, id: string)
    requires Step(ttl, max, h, op, next) && Inv(max, h) && id in next.store && op.Create? && op.id != id
    ensures id in h.store
    ensures Records(ttl, h, op, next, id)
  {
    EvictionConserves(DropExpired(h, op.now, ttl).store, max, op.oldest, op.left, id);
  }

  lemma OtherRecords(ttl: int, max: nat, h: History, op: Op, next: History, id: string)
    requires Step(ttl, max, h, op, next) && Inv(max, h) && id in next.store && !op.Create?
    ensures id in h.store
    ensures Records(ttl, h, op, next, id)
  {
  }

  lemma StepCreates(ttl: int, max: nat, h: History, op: Op, next: History)
    requires Step(ttl, max, h, op, next) && Inv(max, h) && op.Create?
    ensures op.id in next.store && next.store[op.id] == Session(op.principal, op.version, op.now, op.now, false)
    ensures op.id !in next.marked
  {
  }

  lemma {:induction false} RunRecorded(ttl: int, max: nat, ops: seq<Op>, states: seq<History>, id: string, n: nat)
    requires Run(ttl, max, ops, states) && n <= |ops|
    ensures Recorded(ttl, ops, states, id, n)
  {
    if n > 0 && id in states[n].store {
      RunInv(ttl, max, ops, states, n - 1);
      RunRecorded(ttl, max, ops, states, id, n - 1);
      assert StepAt(ttl, max, states, n - 1, ops[n - 1]);
      if ops[n - 1].Create? && ops[n - 1].id == id {
        StepCreates(ttl, max, states[n - 1], ops[n - 1], states[n]);
      } else {
        NextRecorded(ttl, max, ops, states, id, n - 1);
      }
    }
  }

  lemma NextRecorded(ttl: int, max: nat, ops: seq<Op>, states: seq<History>, id: string, n: nat)
    requires n < |ops| < |states| && Inv(max, states[n]) && Step(ttl, max, states[n], ops[n], states[n + 1])
    requires Recorded(ttl, ops, states, id, n) && id in states[n + 1].store && !(ops[n].Create? && ops[n].id == id)
    ensures Recorded(ttl, ops, states, id, n + 1)
  {
    StepRecords(ttl, max, states[n], ops[n], states[n + 1], id);
    assert Creator(ops, id, n + 1) == Creator(ops, id, n);
  }

  lemma {:induction false} MarksRecorded(ttl: int, max: nat, ops: seq<Op>, states: seq<History>, id: string, n: nat)
    requires Run(ttl, max, ops, states) && n <= |ops|
    ensures id in states[n].marked <==> MarkedBefore(ttl, ops, states, id, n)
  {
    if n > 0 {
      MarksRecorded(ttl, max, ops, states, id, n - 1);
      assert StepAt(ttl, max, states, n - 1, ops[n - 1]);
      if AcceptedMarking(ttl, ops, states, id, n - 1) {
        assert MarkedBefore(ttl, ops, states, id, n);
      } else if MarkedBefore(ttl, ops, states, id, n) {
        var m :| 0 <= m < n && AcceptedMarking(ttl, ops, states, id, m);
        assert m < n - 1;
      } else {
        assert !MarkedBefore(ttl, ops, states, id, n - 1);
      }
    }
  }

  /** The store holds the live sessions. */
  lemma HoldsLive(ttl: int, max: nat, ops: seq<Op>, states: seq<History>, id: string, n: nat)
    requires Run(ttl, max, ops, states) && n <= |ops|
    ensures id in states[n].store <==> Live(states[n], id)
  {
    RunInv(ttl, max, ops, states, n);
    assert Places(states[n], id) == if id in states[n].created then 1 else 0;
  }

  // ----- who is answered ---------------------------------------------------------------------------

  /** The session is live, and operation c created it for this principal. */
  ghost predicate Owns(ops: seq<Op>, states: seq<History>, n: nat, c: nat)
    requires n < |ops| < |states| && (ops[n].TouchOp? || ops[n].MarkOp? || ops[n].DeleteOp?)
  {
    && c < n && ops[c].Create? && ops[c].id == ops[n].id && ops[c].principal == ops[n].principal
    && Live(states[n], ops[n].id)
  }

  /** Identifiers are created once. */
  lemma {:induction false} CreatedOnce(ttl: int, max: nat, ops: seq<Op>, states: seq<History>, id: string,
                                       n: nat, c: nat)
    requires Run(ttl, max, ops, states) && c < n <= |ops| && ops[c].Create? && ops[c].id == id
    ensures Creator(ops, id, n) == Some(c) && id in states[n].created
  {
    assert StepAt(ttl, max, states, n - 1, ops[n - 1]);
    if c < n - 1 {
      CreatedOnce(ttl, max, ops, states, id, n - 1, c);
    }
  }

  /** What the store says about the operation's session is what the operations before say. */
  lemma Looks(ttl: int, max: nat, ops: seq<Op>, states: seq<History>, n: nat)
    requires Run(ttl, max, ops, states) && n < |ops| && (ops[n].TouchOp? || ops[n].MarkOp? || ops[n].DeleteOp?)
    ensures var id, store := ops[n].id, states[n].store;
            && (id in store ==> store[id].lastSeen == Seen(ttl, ops, states, id, n)
                                && (store[id].revoking <==> MarkedBefore(ttl, ops, states, id, n)))
            && (id in store && store[id].principal == ops[n].principal <==> exists c: nat :: Owns(ops, states, n, c))
            && (forall c: nat :: Owns(ops, states, n, c) ==>
                  store[id].version == ops[c].version && store[id].createdAt == ops[c].now)
  {
    var id := ops[n].id;
    RunRecorded(ttl, max, ops, states, id, n);
    HoldsLive(ttl, max, ops, states, id, n);
    MarksRecorded(ttl, max, ops, states, id, n);
    forall c: nat | Owns(ops, states, n, c)
      ensures Creator(ops, id, n) == Some(c)
    {
      CreatedOnce(ttl, max, ops, states, id, n, c);
    }
    if id in states[n].store && states[n].store[id].principal == ops[n].principal {
      CreatorIs(ops, id, n);
      assert Owns(ops, states, n, Creator(ops, id, n).value);
    }
  }

  /** The operation's reading is less than a lifetime after the session was created or last looked up. */
  predicate InTime(ttl: int, ops: seq<Op>, states: seq<History>, n: nat)
    requires n < |ops| < |states| && (ops[n].TouchOp? || ops[n].MarkOp?)
  {
    ops[n].now < Seen(ttl, ops, states, ops[n].id, n) + ttl
  }

  /** In every run a lookup is accepted exactly for a live session of that principal and version, not
      marked before, less than a lifetime after it was created or last looked up; the session returned
      says so. */
  lemma LookupAcceptedIff(ttl: int, max: nat, ops: seq<Op>, states: seq<History>, n: nat)
    requires Run(ttl, max, ops, states) && n < |ops| && ops[n].TouchOp?
    ensures AnswerAt(ttl, ops, states, n).Accepted? <==>
              && InTime(ttl, ops, states, n) && !MarkedBefore(ttl, ops, states, ops[n].id, n)
              && exists c: nat :: Owns(ops, states, n, c) && ops[c].version == ops[n].version
    ensures forall c: nat :: Owns(ops, states, n, c) && AnswerAt(ttl, ops, states, n).Accepted? ==>
              AnswerAt(ttl, ops, states, n).session
                == Session(ops[n].principal, ops[n].version, ops[c].now, ops[n].now, false)
  {
    Looks(ttl, max, ops, states, n);
  }

  /** A marking is accepted under the same conditions, marked before or not. */
  lemma MarkingAcceptedIff(ttl: int, max: nat, ops: seq<Op>, states: seq<History>, n: nat)
    requires Run(ttl, max, ops, states) && n < |ops| && ops[n].MarkOp?
    ensures AnswerAt(ttl, ops, states, n).Accepted? <==>
              && InTime(ttl, ops, states, n)
              && exists c: nat :: Owns(ops, states, n, c) && ops[c].version == ops[n].version
  {
    Looks(ttl, max, ops, states, n);
  }

  /** The other two answers about a live session of the principal: expired and evicted now, or asked for
      under another version. */
  lemma RefusedIff(ttl: int, max: nat, ops: seq<Op>, states: seq<History>, n: nat)
    requires Run(ttl, max, ops, states) && n < |ops| && (ops[n].TouchOp? || ops[n].MarkOp?)
    requires ops[n].TouchOp? ==> !MarkedBefore(ttl, ops, states, ops[n].id, n)
    ensures AnswerAt(ttl, ops, states, n).Evicted? <==>
              !InTime(ttl, ops, states, n) && exists c: nat :: Owns(ops, states, n, c)
    ensures AnswerAt(ttl, ops, states, n).WrongVersion? <==>
              && InTime(ttl, ops, states, n)
              && exists c: nat :: Owns(ops, states, n, c) && ops[c].version != ops[n].version
  {
    Looks(ttl, max, ops, states, n);
  }

  /** A deletion takes a session out exactly when its own principal asks and a marking was accepted before. */
  lemma DeletedIff(ttl: int, max: nat, ops: seq<Op>, states: seq<History>, n: nat, id: string)
    requires Run(ttl, max, ops, states) && n < |ops| && ops[n].DeleteOp?
    ensures id in states[n].store && id !in states[n + 1].store <==>
              id == ops[n].id && MarkedBefore(ttl, ops, states, id, n) && exists c: nat :: Owns(ops, states, n, c)
  {
    Looks(ttl, max, ops, states, n);
    assert StepAt(ttl, max, states, n, ops[n]);
  }

  // ----- which sessions leave ------------------------------------------------------------------------

  /** A listing keeps exactly the sessions seen less than a lifetime ago. */
  lemma ListingKeeps(ttl: int, max: nat, ops: seq<Op>, states: seq<History>, n: nat, id: string)
    requires Run(ttl, max, ops, states) && n < |ops| && ops[n].SnapshotOp?
    ensures id in states[n + 1].store <==>
              id in states[n].store && ops[n].now < Seen(ttl, ops, states, id, n) + ttl
  {
    assert StepAt(ttl, max, states, n, ops[n]);
    RunRecorded(ttl, max, ops, states, id, n);
  }

  /** Seen at least as recently as id, names breaking ties. */
  predicate NotOlder(store: Store, other: string, id: string)
    requires other in store && id in store
  {
    store[other].lastSeen > store[id].lastSeen || (store[other].lastSeen == store[id].lastSeen && !Less(other, id))
  }

  function NotOlderThan(store: Store, id: string): set<string>
    requires id in store
  {
    set other | other in store && NotOlder(store, other, id)
  }

  /** Evicting the oldest leaves exactly the newest, as many as are less than max. */
  lemma {:induction false} EvictionKeepsNewest(store: Store, max: nat, evicted: seq<string>, left: Store, id: string)
    requires EvictsTo(store, max, evicted, left) && id in store
    ensures id in left <==> |NotOlderThan(store, id)| < max
    decreases |evicted|
  {
    if evicted == [] {
      FewerMembers(NotOlderThan(store, id), store.Keys);
    } else if id == evicted[0] {
      forall other | other in store
        ensures NotOlder(store, other, id)
      {
        LessTrichotomy(id, other);
      }
      assert NotOlderThan(store, id) == store.Keys;
      EvictionConserves(store - {id}, max, evicted[1..], left, id);
    } else {
      EvictionKeepsNewest(store - {evicted[0]}, max, evicted[1..], left, id);
      assert Older(store, evicted[0], id);
      assert !NotOlder(store, evicted[0], id);
      assert NotOlderThan(store - {evicted[0]}, id) == NotOlderThan(store, id);
    }
  }

  /** The live sessions seen less than a lifetime before a reading, and not before id. */
  ghost function FreshNotOlder(ttl: int, ops: seq<Op>, states: seq<History>, n: nat, now: int, id: string): set<string>
    requires n <= |ops| < |states|
  {
    set other | other in states[n].store && now < Seen(ttl, ops, states, other, n) + ttl
                && (Seen(ttl, ops, states, other, n) > Seen(ttl, ops, states, id, n)
                    || (Seen(ttl, ops, states, other, n) == Seen(ttl, ops, states, id, n) && !Less(other, id)))
  }

  /** A creation keeps exactly the newest of the sessions seen less than a lifetime ago, so many that the
      new one fits. */
  lemma CreationKeeps(ttl: int, max: nat, ops: seq<Op>, states: seq<History>, n: nat, id: string)
    requires Run(ttl, max, ops, states) && n < |ops| && ops[n].Create? && id != ops[n].id
    ensures id in states[n + 1].store <==>
              && id in states[n].store && ops[n].now < Seen(ttl, ops, states, id, n) + ttl
              && |FreshNotOlder(ttl, ops, states, n, ops[n].now, id)| < max
  {
    var op, store := ops[n], states[n].store;
    assert StepAt(ttl, max, states, n, op);
    forall other | other in store
      ensures store[other].lastSeen == Seen(ttl, ops, states, other, n)
    {
      RunRecorded(ttl, max, ops, states, other, n);
    }
    var kept := RemoveExpired(store, op.now, ttl);
    EvictionConserves(kept, max, op.oldest, op.left, id);
    if id in kept {
      EvictionKeepsNewest(kept, max, op.oldest, op.left, id);
      assert NotOlderThan(kept, id) == FreshNotOlder(ttl, ops, states, n, op.now, id);
    }
  }
}
