/** The in-memory replay store: used tokens and registered challenges with expiry
    (internal/replay/store.go).  Each method is one critical section. */
module ReplayStore {
  import opened Basics

  /** P stands for payloads of at least one byte; an empty one is refused before the store is looked at. */
  datatype Challenge<P> = Challenge(payload: P, expires: int)

  datatype Store<P> = Store(used: map<string, int>, challenges: map<string, Challenge<P>>)

  function Key(space: string, id: string): string {
    space + "\0" + id
  }

  /** Consume: one unexpired use per key; expired entries are pruned. */
  function Consume<P>(s: Store<P>, key: string, expires: int, now: int): Option<Store<P>> {
    if key in s.used && s.used[key] > now then None
    else Some(s.(used := (map k | k in s.used && s.used[k] > now :: s.used[k])[key := expires]))
  }

  /** Put: an unexpired challenge is never replaced. */
  function Put<P>(s: Store<P>, key: string, payload: P, expires: int, now: int): Option<Store<P>> {
    if key in s.challenges && s.challenges[key].expires > now then None
    else Some(s.(challenges := s.challenges[key := Challenge(payload, expires)]))
  }

  function Peek<P>(s: Store<P>, key: string, now: int): Option<P> {
    if key in s.challenges && s.challenges[key].expires > now then Some(s.challenges[key].payload) else None
  }

  /** Take: whatever the outcome, the key holds no challenge afterwards. */
  function Take<P>(s: Store<P>, key: string, now: int): (Store<P>, Option<P>) {
    (s.(challenges := s.challenges - {key}), Peek(s, key, now))
  }

  // ----- runs of the store -------------------------------------------------------------------------

  datatype Op<P> = ConsumeOp(key: string, expires: int, now: int)
                 | PutOp(key: string, payload: P, expires: int, now: int)
                 | PeekOp(key: string, now: int)
                 | TakeOp(key: string, now: int)

  /** The new store, or the old one when the operation is refused. */
  function Or<P>(r: Option<Store<P>>, s: Store<P>): Store<P> {
    if r.Some? then r.value else s
  }

  function Apply<P>(s: Store<P>, op: Op<P>): Store<P> {
    match op
    case ConsumeOp(key, expires, now) => Or(Consume(s, key, expires, now), s)
    case PutOp(key, payload, expires, now) => Or(Put(s, key, payload, expires, now), s)
    case PeekOp(_, _) => s
    case TakeOp(key, now) => Take(s, key, now).0
  }

  /** A use that is admitted. */
  predicate Uses<P>(s: Store<P>, op: Op<P>) {
    op.ConsumeOp? && Consume(s, op.key, op.expires, op.now).Some?
  }

  /** A challenge that is registered. */
  predicate Registers<P>(s: Store<P>, op: Op<P>) {
    op.PutOp? && Put(s, op.key, op.payload, op.expires, op.now).Some?
  }

  ghost predicate Run<P>(ops: seq<Op<P>>, stores: seq<Store<P>>) {
    && |stores| == |ops| + 1 && stores[0] == Store(map[], map[])
    && forall n :: 0 <= n < |ops| ==> StepAt(ops, stores, n)
  }

  ghost predicate StepAt<P>(ops: seq<Op<P>>, stores: seq<Store<P>>, n: nat)
    requires n < |ops| < |stores|
  {
    stores[n + 1] == Apply(stores[n], ops[n])
  }

  // ----- no second use -------------------------------------------------------------------------------

  /** Operation n is an admitted use whose clock reading has reached the expiry: it prunes older uses. */
  ghost predicate PrunesAt<P>(ops: seq<Op<P>>, stores: seq<Store<P>>, n: nat, expires: int)
    requires n < |ops| < |stores|
  {
    Uses(stores[n], ops[n]) && ops[n].now >= expires
  }

  ghost predicate UsesAt<P>(ops: seq<Op<P>>, stores: seq<Store<P>>, n: nat, key: string)
    requires n < |ops| < |stores|
  {
    Uses(stores[n], ops[n]) && ops[n].key == key
  }

  /** The use admitted by operation i is remembered until an admitted use of any key has a clock
      reading that reaches its expiry. */
  lemma {:induction false} Remembered<P>(ops: seq<Op<P>>, stores: seq<Store<P>>, i: nat, j: nat)
    requires Run(ops, stores) && i < j <= |ops| && Uses(stores[i], ops[i])
    requires forall n :: i < n < j ==> !UsesAt(ops, stores, n, ops[i].key)
    ensures var used := stores[j].used;
            if exists n :: i < n < j && PrunesAt(ops, stores, n, ops[i].expires) then ops[i].key !in used
            else ops[i].key in used && used[ops[i].key] == ops[i].expires
    decreases j
  {
    assert StepAt(ops, stores, j - 1);
    if i < j - 1 {
      Remembered(ops, stores, i, j - 1);
      assert !UsesAt(ops, stores, j - 1, ops[i].key);
      assert PrunesAt(ops, stores, j - 1, ops[i].expires)
             <==> Uses(stores[j - 1], ops[j - 1]) && ops[j - 1].now >= ops[i].expires;
    }
  }

  /** After an admitted use of a key, the next one is admitted exactly when its own clock reading has
      reached the expiry, or that of an admitted use of any key in between had. */
  lemma ReusedIff<P>(ops: seq<Op<P>>, stores: seq<Store<P>>, i: nat, j: nat)
    requires Run(ops, stores) && i < j < |ops| && Uses(stores[i], ops[i])
    requires ops[j].ConsumeOp? && ops[j].key == ops[i].key
    requires forall n :: i < n < j ==> !UsesAt(ops, stores, n, ops[i].key)
    ensures Uses(stores[j], ops[j])
            <==> ops[j].now >= ops[i].expires || exists n :: i < n < j && PrunesAt(ops, stores, n, ops[i].expires)
  {
    Remembered(ops, stores, i, j);
  }

  /** The first use of a key is admitted, whatever its clock reading. */
  lemma {:induction false} NeverUsed<P>(ops: seq<Op<P>>, stores: seq<Store<P>>, key: string, j: nat)
    requires Run(ops, stores) && j <= |ops| && forall n :: 0 <= n < j ==> !UsesAt(ops, stores, n, key)
    ensures key !in stores[j].used
  {
    if j > 0 {
      NeverUsed(ops, stores, key, j - 1);
      assert StepAt(ops, stores, j - 1) && !UsesAt(ops, stores, j - 1, key);
    }
  }

  lemma FirstUse<P>(ops: seq<Op<P>>, stores: seq<Store<P>>, j: nat)
    requires Run(ops, stores) && j < |ops| && ops[j].ConsumeOp?
    requires forall n :: 0 <= n < j ==> !UsesAt(ops, stores, n, ops[j].key)
    ensures Uses(stores[j], ops[j])
  {
    NeverUsed(ops, stores, ops[j].key, j);
  }

  /** Between an admitted use of a key and its expiry no other use of that key is admitted, over any
      sequence of operations. */
  lemma {:induction false} UsedOnce<P>(ops: seq<Op<P>>, stores: seq<Store<P>>, i: nat, j: nat)
    requires Run(ops, stores) && i < j < |ops| && Uses(stores[i], ops[i])
    requires forall n :: i < n <= j && ops[n].ConsumeOp? ==> ops[n].now < ops[i].expires
    ensures !UsesAt(ops, stores, j, ops[i].key)
    decreases j
  {
    forall n | i < n < j
      ensures !UsesAt(ops, stores, n, ops[i].key) && !PrunesAt(ops, stores, n, ops[i].expires)
    {
      UsedOnce(ops, stores, i, n);
    }
    if ops[j].ConsumeOp? && ops[j].key == ops[i].key {
      ReusedIff(ops, stores, i, j);
    }
  }

  // ----- what a take delivers --------------------------------------------------------------------------

  /** Operation i registered the challenge, and until j the key was neither taken nor registered again. */
  ghost predicate Stands<P>(ops: seq<Op<P>>, stores: seq<Store<P>>, key: string, c: Challenge<P>, i: nat, j: nat)
    requires j <= |ops| < |stores|
  {
    && i < j && Registers(stores[i], ops[i]) && ops[i].key == key
    && c == Challenge(ops[i].payload, ops[i].expires)
    && forall n :: i < n < j ==> !TouchesAt(ops, stores, n, key)
  }

  ghost predicate StillStands<P>(ops: seq<Op<P>>, stores: seq<Store<P>>, key: string, c: Challenge<P>, j: nat)
    requires j <= |ops| < |stores|
  {
    exists i: nat :: Stands(ops, stores, key, c, i, j)
  }

  ghost predicate TouchesAt<P>(ops: seq<Op<P>>, stores: seq<Store<P>>, n: nat, key: string)
    requires n < |ops| < |stores|
  {
    (ops[n].TakeOp? || Registers(stores[n], ops[n])) && ops[n].key == key
  }

  /** The store holds a challenge exactly when some registration of it still stands. */
  lemma {:induction false} HoldsIff<P>(ops: seq<Op<P>>, stores: seq<Store<P>>, key: string, c: Challenge<P>, j: nat)
    requires Run(ops, stores) && j <= |ops|
    ensures key in stores[j].challenges && stores[j].challenges[key] == c
            <==> StillStands(ops, stores, key, c, j)
    decreases j
  {
    if j > 0 {
      HoldsIff(ops, stores, key, c, j - 1);
      assert StepAt(ops, stores, j - 1);
      StandsNext(ops, stores, key, c, j - 1);
    }
  }

  lemma StandsNext<P>(ops: seq<Op<P>>, stores: seq<Store<P>>, key: string, c: Challenge<P>, j: nat)
    requires Run(ops, stores) && j < |ops|
    ensures StillStands(ops, stores, key, c, j + 1)
            <==> if TouchesAt(ops, stores, j, key)
                 then Registers(stores[j], ops[j]) && c == Challenge(ops[j].payload, ops[j].expires)
                 else StillStands(ops, stores, key, c, j)
  {
    var next := j + 1;
    if TouchesAt(ops, stores, j, key) {
      if Registers(stores[j], ops[j]) && c == Challenge(ops[j].payload, ops[j].expires) {
        assert Stands(ops, stores, key, c, j, next);
      }
    } else {
      if i: nat :| Stands(ops, stores, key, c, i, next) {
        assert Stands(ops, stores, key, c, i, j);
      }
      if i: nat :| Stands(ops, stores, key, c, i, j) {
        assert Stands(ops, stores, key, c, i, next);
      }
    }
  }

  /** Operation i registered this payload for the key of operation j, unexpired then, and it stands. */
  ghost predicate Due<P>(ops: seq<Op<P>>, stores: seq<Store<P>>, payload: P, i: nat, j: nat)
    requires j < |ops| < |stores| && ops[j].TakeOp?
  {
    i < j && ops[i].PutOp? && ops[i].expires > ops[j].now
    && Stands(ops, stores, ops[j].key, Challenge(payload, ops[i].expires), i, j)
  }

  /** In every run a take delivers a payload exactly when a registration of it, unexpired at the take's
      clock reading, has since been neither taken nor replaced: no registration is delivered twice. */
  lemma TakeDeliversIff<P>(ops: seq<Op<P>>, stores: seq<Store<P>>, j: nat, payload: P)
    requires Run(ops, stores) && j < |ops| && ops[j].TakeOp?
    ensures Take(stores[j], ops[j].key, ops[j].now).1 == Some(payload)
            <==> exists i: nat :: Due(ops, stores, payload, i, j)
    ensures Peek(stores[j], ops[j].key, ops[j].now) == Take(stores[j], ops[j].key, ops[j].now).1
  {
    var key, now := ops[j].key, ops[j].now;
    if Take(stores[j], key, now).1 == Some(payload) {
      var c := stores[j].challenges[key];
      HoldsIff(ops, stores, key, c, j);
      var i: nat :| Stands(ops, stores, key, c, i, j);
      assert Due(ops, stores, payload, i, j);
    }
    if i: nat :| Due(ops, stores, payload, i, j) {
      HoldsIff(ops, stores, key, Challenge(payload, ops[i].expires), j);
    }
  }

  /** A challenge is registered exactly when no standing registration of its key is unexpired at the
      store's reading. */
  lemma RegistersIff<P>(ops: seq<Op<P>>, stores: seq<Store<P>>, j: nat)
    requires Run(ops, stores) && j < |ops| && ops[j].PutOp?
    ensures Registers(stores[j], ops[j])
            <==> forall c: Challenge<P> :: StillStands(ops, stores, ops[j].key, c, j) ==> c.expires <= ops[j].now
  {
    var key := ops[j].key;
    forall c: Challenge<P>
      ensures StillStands(ops, stores, key, c, j)
              <==> key in stores[j].challenges && stores[j].challenges[key] == c
    {
      HoldsIff(ops, stores, key, c, j);
    }
  }

  class Memory<P> {
    var used: map<string, int>
    var challenges: map<string, Challenge<P>>

    ghost function View(): Store<P>
      reads this
    {
      Store(used, challenges)
    }

    constructor ()
      ensures View() == Store(map[], map[])
    {
      used, challenges := map[], map[];
    }

    method ConsumeUse(space: string, id: string, expiresAt: int, now: int) returns (ok: bool)
      modifies this
      ensures ok == Consume(old(View()), Key(space, id), expiresAt, now).Some?
      ensures View() == if ok then Consume(old(View()), Key(space, id), expiresAt, now).value else old(View())
    {
      var key := Key(space, id);
      if key in used && used[key] > now {
        return false;
      }
      var rest := used.Keys;
      while rest != {}
        invariant rest <= old(used).Keys && challenges == old(challenges)
        invariant used == map k | k in old(used) && (k in rest || old(used)[k] > now) :: old(used)[k]
        decreases rest
      {
        var k :| k in rest;
        if used[k] <= now {
          used := used - {k};
        }
        rest := rest - {k};
      }
      used := used[key := expiresAt];
      ok := true;
    }

    method PutChallenge(space: string, id: string, payload: P, expiresAt: int, now: int) returns (ok: bool)
      modifies this
      ensures ok == (space != "" && id != "" && Put(old(View()), Key(space, id), payload, expiresAt, now).Some?)
      ensures View() == if ok then Put(old(View()), Key(space, id), payload, expiresAt, now).value else old(View())
    {
      if space == "" || id == "" {
        return false;
      }
      var key := Key(space, id);
      if key in challenges && challenges[key].expires > now {
        return false;
      }
      challenges := challenges[key := Challenge(payload, expiresAt)];
      ok := true;
    }

    method PeekChallenge(space: string, id: string, now: int) returns (r: Option<P>)
      ensures r == Peek(View(), Key(space, id), now)
    {
      var key := Key(space, id);
      if key !in challenges || challenges[key].expires <= now {
        return None;
      }
      r := Some(challenges[key].payload);
    }

    method TakeChallenge(space: string, id: string, now: int) returns (r: Option<P>)
      modifies this
      ensures (View(), r) == Take(old(View()), Key(space, id), now)
    {
      var key := Key(space, id);
      if key !in challenges || challenges[key].expires <= now {
        challenges := challenges - {key};
        return None;
      }
      r := Some(challenges[key].payload);
      challenges := challenges - {key};
    }
  }
}
