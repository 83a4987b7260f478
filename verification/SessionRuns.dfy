/** Runs of the session store: where every created session ends up, and that a revoking session
    is never accepted again (internal/gateway/session.go). */
module SessionRuns {
  import opened Basics
  import opened Sessions

  /** The store with what has happened so far: the sessions created, those handed to the eviction
      callback (with how often), deleted after revocation, cleared, and marked as revoking. */
  datatype History = History(store: Store, created: set<string>, notified: multiset<string>, deleted: set<string>,
                             cleared: set<string>, marked: set<string>)

  datatype Op = Create(id: string, principal: string, version: string, now: int, oldest: seq<string>, left: Store)
              | TouchOp(id: string, principal: string, version: string, now: int)
              | MarkOp(id: string, principal: string, version: string, now: int)
              | DeleteOp(id: string, principal: string)
              | ClearOp
              | SnapshotOp(now: int)

  function DropExpired(h: History, now: int, ttl: int): History {
    var kept := RemoveExpired(h.store, now, ttl);
    h.(store := kept, notified := h.notified + multiset(h.store.Keys - kept.Keys))
  }

  /** The history after a lookup that left this store and gave this answer. */
  function Looked(h: History, id: string, r: (Store, Answer)): History {
    h.(store := r.0, notified := if r.1.Evicted? then h.notified + multiset{id} else h.notified)
  }

  /** One operation; an identifier is created once, as identifiers are random. */
  ghost predicate Step(ttl: int, max: nat, h: History, op: Op, next: History) {
    match op
    case Create(id, principal, version, now, oldest, left) =>
      var dropped := DropExpired(h, now, ttl);
      && id !in h.created
      && EvictsTo(dropped.store, max, oldest, left)
      && next == dropped.(store := left[id := Session(principal, version, now, now, false)],
                          created := h.created + {id},
                          notified := dropped.notified + multiset(oldest))
    case TouchOp(id, principal, version, now) =>
      next == Looked(h, id, Touch(h.store, id, principal, version, now, ttl))
    case MarkOp(id, principal, version, now) =>
      var r := MarkRevoking(h.store, id, principal, version, now, ttl);
      next == Looked(h, id, r).(marked := if r.1.Accepted? then h.marked + {id} else h.marked)
    case DeleteOp(id, principal) =>
      var kept := DeleteRevoked(h.store, id, principal);
      next == h.(store := kept, deleted := h.deleted + (h.store.Keys - kept.Keys))
    case ClearOp => next == h.(store := map[], cleared := h.cleared + h.store.Keys)
    case SnapshotOp(now) => next == DropExpired(h, now, ttl)
  }

  // ----- the invariant -------------------------------------------------------------------------

  /** How many of the four places hold a session, counting repeated notifications. */
  function Places(h: History, id: string): nat {
    (if id in h.store then 1 else 0) + h.notified[id]
    + (if id in h.deleted then 1 else 0) + (if id in h.cleared then 1 else 0)
  }

  /** Every created session is in exactly one place, any other in none. */
  ghost predicate Placed(h: History) {
    forall id :: Places(h, id) == if id in h.created then 1 else 0
  }

  ghost predicate Marked(h: History) {
    forall id :: id in h.marked ==> id in h.created && (id in h.store ==> h.store[id].revoking)
  }

  ghost predicate Inv(max: nat, h: History) {
    |h.store| <= max && Placed(h) && Marked(h)
  }

  const START := History(map[], {}, multiset{}, {}, {}, {})

  lemma DropExpiredPlaces(h: History, now: int, ttl: int, id: string)
    ensures Places(DropExpired(h, now, ttl), id) == Places(h, id)
  {
  }

  lemma DropExpiredInv(max: nat, h: History, now: int, ttl: int)
    requires Inv(max, h)
    ensures Inv(max, DropExpired(h, now, ttl))
  {
    var next := DropExpired(h, now, ttl);
    assert next.store.Keys <= h.store.Keys;
    FewerMembers(next.store.Keys, h.store.Keys);
    forall id
      ensures Places(next, id) == if id in next.created then 1 else 0
    {
      DropExpiredPlaces(h, now, ttl, id);
    }
  }

  /** Eviction moves sessions out one by one: each is either left, unchanged, or listed once. */
  lemma {:induction false} EvictionConserves(store: Store, max: nat, evicted: seq<string>, left: Store, id: string)
    requires EvictsTo(store, max, evicted, left)
    ensures (if id in left then 1 else 0) + multiset(evicted)[id] == if id in store then 1 else 0
    ensures id in left ==> left[id] == store[id]
    ensures |left| < max
    decreases |evicted|
  {
    if evicted != [] {
      EvictionConserves(store - {evicted[0]}, max, evicted[1..], left, id);
      assert evicted == [evicted[0]] + evicted[1..];
    }
  }

  lemma CreatePlaces(h: History, id: string, session: Session, max: nat, oldest: seq<string>, left: Store,
                     other: string)
    requires Placed(h) && EvictsTo(h.store, max, oldest, left) && id !in h.created
    ensures var next := h.(store := left[id := session], created := h.created + {id},
                           notified := h.notified + multiset(oldest));
            Places(next, other) == if other in next.created then 1 else 0
  {
    EvictionConserves(h.store, max, oldest, left, other);
    assert Places(h, other) == if other in h.created then 1 else 0;
  }

  lemma CreateMarked(h: History, id: string, session: Session, max: nat, oldest: seq<string>, left: Store)
    requires Marked(h) && EvictsTo(h.store, max, oldest, left) && id !in h.created
    ensures forall other :: other in h.marked && other in left[id := session] ==> left[id := session][other].revoking
    ensures |left[id := session]| <= max
  {
    forall other | other in h.marked && other in left[id := session]
      ensures left[id := session][other].revoking
    {
      EvictionConserves(h.store, max, oldest, left, other);
    }
    EvictionConserves(h.store, max, oldest, left, id);
    assert left[id := session].Keys == left.Keys + {id};
  }

  lemma CreateInv(ttl: int, max: nat, h: History, op: Op, next: History)
    requires Inv(max, h) && op.Create? && Step(ttl, max, h, op, next)
    ensures Inv(max, next)
  {
    DropExpiredInv(max, h, op.now, ttl);
    var dropped := DropExpired(h, op.now, ttl);
    var session := Session(op.principal, op.version, op.now, op.now, false);
    CreateMarked(dropped, op.id, session, max, op.oldest, op.left);
    forall other
      ensures Places(next, other) == if other in next.created then 1 else 0
    {
      CreatePlaces(dropped, op.id, session, max, op.oldest, op.left, other);
    }
  }

  lemma LookedPlaced(h: History, id: string, r: (Store, Answer))
    requires Placed(h)
    requires if r.1.Evicted? then id in h.store && r.0 == h.store - {id} else r.0.Keys == h.store.Keys
    ensures Placed(Looked(h, id, r))
  {
    forall other
      ensures Places(Looked(h, id, r), other) == if other in h.created then 1 else 0
    {
      assert Places(h, other) == if other in h.created then 1 else 0;
    }
  }

  lemma LookupInv(ttl: int, max: nat, h: History, op: Op, next: History)
    requires Inv(max, h) && (op.TouchOp? || op.MarkOp?) && Step(ttl, max, h, op, next)
    ensures Inv(max, next)
  {
    var r := if op.TouchOp? then Touch(h.store, op.id, op.principal, op.version, op.now, ttl)
             else MarkRevoking(h.store, op.id, op.principal, op.version, op.now, ttl);
    assert next.store == r.0;
    if r.1.Evicted? {
      assert r.0.Keys == h.store.Keys - {op.id};
    } else {
      assert r.0.Keys == h.store.Keys;
    }
    LookedPlaced(h, op.id, r);
    assert forall id :: Places(next, id) == Places(Looked(h, op.id, r), id);
    assert op.id in h.store ==> Places(h, op.id) == if op.id in h.created then 1 else 0;
  }

  lemma RemovalInv(ttl: int, max: nat, h: History, op: Op, next: History)
    requires Inv(max, h) && (op.DeleteOp? || op.ClearOp?) && Step(ttl, max, h, op, next)
    ensures Inv(max, next)
  {
    assert next.store.Keys <= h.store.Keys;
    FewerMembers(next.store.Keys, h.store.Keys);
    forall id
      ensures Places(next, id) == if id in next.created then 1 else 0
    {
      assert Places(h, id) == if id in h.created then 1 else 0;
    }
  }

  lemma StepInv(ttl: int, max: nat, h: History, op: Op, next: History)
    requires Inv(max, h) && Step(ttl, max, h, op, next)
    ensures Inv(max, next)
  {
    match op
    case Create(_, _, _, _, _, _) => CreateInv(ttl, max, h, op, next);
    case TouchOp(_, _, _, _) => LookupInv(ttl, max, h, op, next);
    case MarkOp(_, _, _, _) => LookupInv(ttl, max, h, op, next);
    case SnapshotOp(now) => DropExpiredInv(max, h, now, ttl);
    case _ => RemovalInv(ttl, max, h, op, next);
  }

  // ----- runs ------------------------------------------------------------------------------------

  ghost predicate Run(ttl: int, max: nat, ops: seq<Op>, states: seq<History>) {
    && |states| == |ops| + 1 && states[0] == START
    && forall n :: 0 <= n < |ops| ==> StepAt(ttl, max, states, n, ops[n])
  }

  ghost predicate StepAt(ttl: int, max: nat, states: seq<History>, n: nat, op: Op)
    requires n + 1 < |states|
  {
    Step(ttl, max, states[n], op, states[n + 1])
  }

  /** In every run at most max sessions are live, and each created session is live, was notified as
      evicted exactly once, was deleted after its revocation or was cleared: one of these. */
  lemma {:induction false} RunInv(ttl: int, max: nat, ops: seq<Op>, states: seq<History>, n: nat)
    requires Run(ttl, max, ops, states) && n <= |ops|
    ensures Inv(max, states[n])
  {
    if n > 0 {
      RunInv(ttl, max, ops, states, n - 1);
      assert StepAt(ttl, max, states, n - 1, ops[n - 1]);
      StepInv(ttl, max, states[n - 1], ops[n - 1], states[n]);
    }
  }

  lemma {:induction false} MarkedForever(ttl: int, max: nat, ops: seq<Op>, states: seq<History>, m: nat, n: nat,
                                         id: string)
    requires Run(ttl, max, ops, states) && m <= n <= |ops| && id in states[m].marked
    ensures id in states[n].marked
    decreases n
  {
    if m < n {
      MarkedForever(ttl, max, ops, states, m, n - 1, id);
      assert StepAt(ttl, max, states, n - 1, ops[n - 1]);
    }
  }

  /** Once a session has been marked as revoking, no later lookup of it is ever accepted. */
  lemma RevokingNeverAccepted(ttl: int, max: nat, ops: seq<Op>, states: seq<History>, m: nat, n: nat)
    requires Run(ttl, max, ops, states) && m < n < |ops| && ops[m].MarkOp? && ops[n].TouchOp?
    requires ops[m].id == ops[n].id
    requires MarkRevoking(states[m].store, ops[m].id, ops[m].principal, ops[m].version, ops[m].now, ttl).1.Accepted?
    ensures Touch(states[n].store, ops[n].id, ops[n].principal, ops[n].version, ops[n].now, ttl).1.NotFound?
  {
    assert StepAt(ttl, max, states, m, ops[m]);
    MarkedForever(ttl, max, ops, states, m + 1, n, ops[m].id);
    RunInv(ttl, max, ops, states, n);
  }
}
