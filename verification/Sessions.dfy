/** The bounded store of protocol sessions, with expiry, eviction and revocation
    (internal/gateway/session.go).  Times are counted in nanoseconds. */
module Sessions {
  import opened StringOrder

  datatype Session = Session(principal: string, version: string, createdAt: int, lastSeen: int, revoking: bool)

  type Store = map<string, Session>

  datatype Answer = Accepted(session: Session) | NotFound | WrongVersion | Evicted(session: Session)

  // ----- operations as functions of the store --------------------------------------------------

  predicate Expired(s: Session, now: int, ttl: int) {
    now >= s.lastSeen + ttl
  }

  function RemoveExpired(store: Store, now: int, ttl: int): Store {
    map id | id in store && !Expired(store[id], now, ttl) :: store[id]
  }

  /** Seen earlier, or at the same time with a smaller identifier. */
  predicate Older(store: Store, a: string, b: string)
    requires a in store && b in store
  {
    store[a].lastSeen < store[b].lastSeen || (store[a].lastSeen == store[b].lastSeen && Less(a, b))
  }

  ghost predicate IsOldest(store: Store, id: string) {
    id in store && forall other :: other in store && other != id ==> Older(store, id, other)
  }

  /** Taking the oldest sessions out until fewer than max are left; evicted lists them in order. */
  ghost predicate EvictsTo(store: Store, max: nat, evicted: seq<string>, left: Store) {
    if evicted == [] then left == store && |store| < max
    else |store| >= max && IsOldest(store, evicted[0]) && EvictsTo(store - {evicted[0]}, max, evicted[1..], left)
  }

  /** What looking a session up and touching it does. */
  function Touch(store: Store, id: string, principal: string, version: string, now: int, ttl: int): (Store, Answer) {
    if id !in store || store[id].principal != principal || store[id].revoking then (store, NotFound)
    else if Expired(store[id], now, ttl) then (store - {id}, Evicted(store[id]))
    else if version != store[id].version then (store, WrongVersion)
    else (store[id := store[id].(lastSeen := now)], Accepted(store[id].(lastSeen := now)))
  }

  function MarkRevoking(store: Store, id: string, principal: string, version: string, now: int, ttl: int)
    : (Store, Answer)
  {
    if id !in store || store[id].principal != principal then (store, NotFound)
    else if Expired(store[id], now, ttl) then (store - {id}, Evicted(store[id]))
    else if version != store[id].version then (store, WrongVersion)
    else (store[id := store[id].(revoking := true)], Accepted(store[id].(revoking := true)))
  }

  function DeleteRevoked(store: Store, id: string, principal: string): Store {
    if id in store && store[id].principal == principal && store[id].revoking then store - {id} else store
  }

  // ----- the store -------------------------------------------------------------------------------

  /** The identifiers listed are exactly those that left, each once. */
  ghost predicate Lists(ids: seq<string>, gone: set<string>) {
    && (forall i :: 0 <= i < |ids| ==> ids[i] in gone)
    && (forall id :: id in gone ==> id in ids)
    && (forall i, j :: 0 <= i < j < |ids| ==> ids[i] != ids[j])
  }

  class SessionStore {
    const ttl: int
    const max: nat
    var sessions: Store

    constructor (ttl: int, max: nat)
      requires max > 0
      ensures this.ttl == ttl && this.max == max && sessions == map[]
    {
      this.ttl := ttl;
      this.max := max;
      sessions := map[];
    }

    /** The sessions given to the eviction callback are the expired ones and then the oldest ones. */
    method Create(id: string, principal: string, version: string, now: int)
      returns (evicted: seq<string>, ghost expired: seq<string>, ghost oldest: seq<string>, ghost left: Store)
      requires max > 0
      modifies this
      ensures Lists(expired, old(sessions).Keys - RemoveExpired(old(sessions), now, ttl).Keys)
      ensures EvictsTo(RemoveExpired(old(sessions), now, ttl), max, oldest, left)
      ensures evicted == expired + oldest
      ensures sessions == left[id := Session(principal, version, now, now, false)]
    {
      evicted := DropExpired(now);
      expired := evicted;
      ghost var start := sessions;
      oldest := [];
      forall more, left | EvictsTo(start, max, more, left)
        ensures EvictsTo(start, max, oldest + more, left)
      {
        assert oldest + more == more;
      }
      while |sessions| >= max
        invariant forall more, left :: EvictsTo(sessions, max, more, left) ==> EvictsTo(start, max, oldest + more, left)
        invariant evicted == expired + oldest
        decreases |sessions|
      {
        ghost var before := sessions;
        var removed := EvictOldest();
        EvictMore(start, max, oldest, before, removed);
        evicted := evicted + [removed];
        oldest := oldest + [removed];
      }
      left := sessions;
      assert EvictsTo(sessions, max, [], left);
      assert oldest + [] == oldest;
      sessions := sessions[id := Session(principal, version, now, now, false)];
    }

    method ValidateAndTouch(id: string, principal: string, version: string, now: int) returns (r: Answer)
      modifies this
      ensures (sessions, r) == Touch(old(sessions), id, principal, version, now, ttl)
    {
      if id !in sessions || sessions[id].principal != principal || sessions[id].revoking {
        return NotFound;
      }
      var session := sessions[id];
      if now >= session.lastSeen + ttl {
        sessions := sessions - {id};
        return Evicted(session);
      }
      if version != session.version {
        return WrongVersion;
      }
      session := session.(lastSeen := now);
      sessions := sessions[id := session];
      return Accepted(session);
    }

    method MarkRevokingSession(id: string, principal: string, version: string, now: int) returns (r: Answer)
      modifies this
      ensures (sessions, r) == MarkRevoking(old(sessions), id, principal, version, now, ttl)
    {
      if id !in sessions || sessions[id].principal != principal {
        return NotFound;
      }
      var session := sessions[id];
      if now >= session.lastSeen + ttl {
        sessions := sessions - {id};
        return Evicted(session);
      }
      if version != session.version {
        return WrongVersion;
      }
      session := session.(revoking := true);
      sessions := sessions[id := session];
      return Accepted(session);
    }

    method DeleteRevokedSession(id: string, principal: string)
      modifies this
      ensures sessions == DeleteRevoked(old(sessions), id, principal)
    {
      if id in sessions && sessions[id].principal == principal && sessions[id].revoking {
        sessions := sessions - {id};
      }
    }

    method Clear()
      modifies this
      ensures sessions == map[]
    {
      sessions := map[];
    }

    /** The live sessions, after dropping the expired ones. */
    method Snapshot(now: int) returns (live: Store, evicted: seq<string>)
      modifies this
      ensures sessions == RemoveExpired(old(sessions), now, ttl) == live
      ensures Lists(evicted, old(sessions).Keys - sessions.Keys)
    {
      evicted := DropExpired(now);
      live := sessions;
    }

    method DropExpired(now: int) returns (removed: seq<string>)
      modifies this
      ensures sessions == RemoveExpired(old(sessions), now, ttl)
      ensures Lists(removed, old(sessions).Keys - sessions.Keys)
    {
      removed := [];
      var ids := sessions.Keys;
      while ids != {}
        invariant ids <= sessions.Keys <= old(sessions).Keys
        invariant forall id :: id in sessions ==> sessions[id] == old(sessions)[id]
        invariant forall id :: id in sessions && id !in ids ==> !Expired(sessions[id], now, ttl)
        invariant forall id :: id in old(sessions) && !Expired(old(sessions)[id], now, ttl) ==> id in sessions
        invariant Lists(removed, old(sessions).Keys - sessions.Keys)
        decreases |ids|
      {
        var id :| id in ids;
        if Expired(sessions[id], now, ttl) {
          assert id !in removed;
          sessions := sessions - {id};
          removed := removed + [id];
        }
        ids := ids - {id};
      }
    }

    method EvictOldest() returns (removed: string)
      requires sessions != map[]
      modifies this
      ensures IsOldest(old(sessions), removed) && sessions == old(sessions) - {removed}
    {
      var ids := SortIds(sessions.Keys);
      assert ids[0] in ids;
      removed := ids[0];
      for k := 1 to |ids|
        invariant sessions == old(sessions) && removed in sessions
        invariant exists j :: 0 <= j < k && ids[j] == removed
        invariant forall j :: 0 <= j < k && ids[j] != removed ==> Older(sessions, removed, ids[j])
      {
        assert ids[k] in ids;
        OlderThanAll(sessions, ids, k, removed);
        if sessions[ids[k]].lastSeen < sessions[removed].lastSeen {
          removed := ids[k];
        }
      }
      sessions := sessions - {removed};
    }
  }

  /** How the choice of the oldest moves on to the next identifier in sorted order. */
  lemma OlderThanAll(store: Store, ids: seq<string>, k: nat, oldest: string)
    requires 0 < k < |ids| && Ascending(ids) && (forall id :: id in ids ==> id in store)
    requires exists j :: 0 <= j < k && ids[j] == oldest
    requires forall j :: 0 <= j < k && ids[j] != oldest ==> Older(store, oldest, ids[j])
    ensures store[ids[k]].lastSeen < store[oldest].lastSeen ==>
              forall j :: 0 <= j < k ==> Older(store, ids[k], ids[j])
    ensures store[ids[k]].lastSeen >= store[oldest].lastSeen ==> Older(store, oldest, ids[k])
  {
  }

  lemma EvictMore(start: Store, max: nat, oldest: seq<string>, before: Store, removed: string)
    requires |before| >= max && IsOldest(before, removed)
    requires forall more, left :: EvictsTo(before, max, more, left) ==> EvictsTo(start, max, oldest + more, left)
    ensures forall more, left :: EvictsTo(before - {removed}, max, more, left)
                                 ==> EvictsTo(start, max, oldest + [removed] + more, left)
  {
    forall more, left | EvictsTo(before - {removed}, max, more, left)
      ensures EvictsTo(start, max, oldest + [removed] + more, left)
    {
      assert ([removed] + more)[1..] == more;
      assert EvictsTo(before, max, [removed] + more, left);
      assert oldest + ([removed] + more) == oldest + [removed] + more;
    }
  }
}
