/** Registration, inspection and verification of approvals as interleaved steps over one
    replay store (internal/approval/token.go with a challenge store configured).  Clock
    readings are arguments of the steps and need not agree with each other. */
module ApprovalProtocol {
  import opened Basics
  import opened ApprovalClaims
  import R = ReplayStore

  /** A registered challenge; its serial number tells apart registrations of the same id. */
  datatype Registered = Registered(claims: Claims, serial: nat)

  /** What a verifier works on: the claims it authenticated, the scope they are for, and its reading. */
  datatype Ticket = Ticket(claims: Claims, scope: Scope, now: int)

  datatype Pc =
    | Authenticated(ticket: Ticket)              // token checked, nothing looked up yet
    | Inspected(ticket: Ticket)                  // challenge peeked and bound
    | Taken(ticket: Ticket, serial: nat)         // challenge taken and bound
    | Done

  datatype Acceptance = Acceptance(ticket: Ticket, serial: nat)

  /** `registered` lists every successful registration by serial number. */
  datatype World = World(store: R.Store<Registered>, threads: map<nat, Pc>, next: nat,
                         registered: seq<Claims>, accepted: seq<Acceptance>)

  datatype Step =
    | Register(claims: Claims, now: int, again: int, storeNow: int)
    | Present(payload: Claims, scope: Scope, now: int)   // a verifier authenticates a signed token
    | Inspect(thread: nat)
    | Take(thread: nat)
    | Consume(thread: nat)

  function Begin(): World {
    World(R.Store(map[], map[]), map[], 0, [], [])
  }

  function ChallengeKey(id: string): string {
    R.Key("approval", id)
  }

  function UseKey(id: string): string {
    R.Key("approval-used", id)
  }

  /** RegisterChallenge: normalize, check the expiry with two readings, put with a third. */
  function DoRegister(w: World, claims: Claims, now: int, again: int, storeNow: int): World {
    match NormalizeClaims(claims, false)
    case None => w
    case Some(c) =>
      if c.expiresAt <= now || c.expiresAt > again + MAX_LIFETIME then w
      else
        match R.Put(w.store, ChallengeKey(c.challengeId), Registered(c, |w.registered|), c.expiresAt, storeNow)
        case None => w
        case Some(s) => w.(store := s, registered := w.registered + [c])
  }

  function Goto(w: World, t: nat, pc: Pc): World {
    w.(threads := w.threads[t := pc])
  }

  function DoInspect(w: World, t: nat, k: Ticket): World {
    match R.Peek(w.store, ChallengeKey(k.claims.challengeId), k.now)
    case None => Goto(w, t, Done)
    case Some(r) => Goto(w, t, if ChallengeBinding(r.claims, k.claims) then Inspected(k) else Done)
  }

  function DoTake(w: World, t: nat, k: Ticket): World {
    var (s, r) := R.Take(w.store, ChallengeKey(k.claims.challengeId), k.now);
    Goto(w.(store := s), t,
         if r.Some? && ChallengeBinding(r.value.claims, k.claims) then Taken(k, r.value.serial) else Done)
  }

  function DoConsume(w: World, t: nat, k: Ticket, serial: nat): World {
    match R.Consume(w.store, UseKey(k.claims.challengeId), k.claims.expiresAt, k.now)
    case None => Goto(w, t, Done)
    case Some(s) => Goto(w.(store := s, accepted := w.accepted + [Acceptance(k, serial)]), t, Done)
  }

  function Next(w: World, step: Step): World {
    match step
    case Register(claims, now, again, storeNow) => DoRegister(w, claims, now, again, storeNow)
    case Present(payload, scope, now) =>
      (match Authenticate(payload, scope, now)
       case None => w
       case Some(c) => Goto(w, w.next, Authenticated(Ticket(c, scope, now))).(next := w.next + 1))
    case Inspect(t) =>
      if t in w.threads && w.threads[t].Authenticated? then DoInspect(w, t, w.threads[t].ticket) else w
    case Take(t) =>
      if t in w.threads && w.threads[t].Inspected? then DoTake(w, t, w.threads[t].ticket) else w
    case Consume(t) =>
      if t in w.threads && w.threads[t].Taken? then DoConsume(w, t, w.threads[t].ticket, w.threads[t].serial) else w
  }

  function Run(w: World, steps: seq<Step>): World
    decreases |steps|
  {
    if steps == [] then w else Run(Next(w, steps[0]), steps[1..])
  }

  // ----- invariant -----------------------------------------------------------------

  /** This serial was issued, for claims that bind these. */
  predicate Answers(w: World, serial: nat, c: Claims) {
    serial < |w.registered| && ChallengeBinding(w.registered[serial], c)
  }

  /** A challenge in the store is the registration its serial names, under that id's key. */
  ghost predicate StoreOk(w: World) {
    forall k :: k in w.store.challenges ==>
      var r := w.store.challenges[k].payload;
      && r.serial < |w.registered| && w.registered[r.serial] == r.claims
      && k == ChallengeKey(r.claims.challengeId) && w.store.challenges[k].expires == r.claims.expiresAt
  }

  ghost predicate HoldersOk(w: World) {
    && (forall t :: t in w.threads ==> t < w.next)
    && (forall t :: t in w.threads && w.threads[t].Taken? ==>
          Answers(w, w.threads[t].serial, w.threads[t].ticket.claims))
    && (forall i :: 0 <= i < |w.accepted| ==> Answers(w, w.accepted[i].serial, w.accepted[i].ticket.claims))
  }

  /** Every registration is in one place at a time: in the store, with one verifier, or spent on one acceptance. */
  ghost predicate Exclusive(w: World) {
    && (forall k, t :: k in w.store.challenges && t in w.threads && w.threads[t].Taken? ==>
          w.store.challenges[k].payload.serial != w.threads[t].serial)
    && (forall k, i :: k in w.store.challenges && 0 <= i < |w.accepted| ==>
          w.store.challenges[k].payload.serial != w.accepted[i].serial)
    && (forall t, u :: t in w.threads && u in w.threads && t != u && w.threads[t].Taken? && w.threads[u].Taken? ==>
          w.threads[t].serial != w.threads[u].serial)
    && (forall t, i :: t in w.threads && w.threads[t].Taken? && 0 <= i < |w.accepted| ==>
          w.threads[t].serial != w.accepted[i].serial)
    && (forall i, j :: 0 <= i < j < |w.accepted| ==> w.accepted[i].serial != w.accepted[j].serial)
  }

  ghost predicate Inv(w: World) {
    StoreOk(w) && HoldersOk(w) && Exclusive(w)
  }

  lemma RegisterStore(w: World, claims: Claims, now: int, again: int, storeNow: int)
    requires StoreOk(w)
    ensures StoreOk(DoRegister(w, claims, now, again, storeNow))
  {
  }

  lemma RegisterHolders(w: World, claims: Claims, now: int, again: int, storeNow: int)
    requires HoldersOk(w)
    ensures HoldersOk(DoRegister(w, claims, now, again, storeNow))
  {
  }

  /** A serial is out once a verifier holds it or an acceptance spent it. */
  predicate SerialOut(w: World, serial: nat) {
    || (exists t :: t in w.threads && w.threads[t].Taken? && w.threads[t].serial == serial)
    || (exists i :: 0 <= i < |w.accepted| && w.accepted[i].serial == serial)
  }

  /** Storing a registration whose serial is not out. */
  lemma StoredExclusive(w: World, v: World, key: string, c: R.Challenge<Registered>)
    requires Exclusive(w) && !SerialOut(w, c.payload.serial)
    requires v.threads == w.threads && v.accepted == w.accepted
    requires v.store.challenges == w.store.challenges[key := c]
    ensures Exclusive(v)
  {
  }

  lemma RegisterInv(w: World, claims: Claims, now: int, again: int, storeNow: int)
    requires Inv(w)
    ensures Inv(DoRegister(w, claims, now, again, storeNow))
  {
    RegisterStore(w, claims, now, again, storeNow);
    RegisterHolders(w, claims, now, again, storeNow);
    var v := DoRegister(w, claims, now, again, storeNow);
    if v != w {
      var key := ChallengeKey(NormalizeClaims(claims, false).value.challengeId);
      StoredExclusive(w, v, key, v.store.challenges[key]);
    }
  }

  /** Two keys never hold the same registration. */
  lemma StoredApart(w: World, k: string, l: string)
    requires StoreOk(w) && k in w.store.challenges && l in w.store.challenges && k != l
    ensures w.store.challenges[k].payload.serial != w.store.challenges[l].payload.serial
  {
  }

  lemma TakeInv(w: World, t: nat)
    requires Inv(w) && t in w.threads && w.threads[t].Inspected?
    ensures Inv(Next(w, Take(t)))
  {
    var key := ChallengeKey(w.threads[t].ticket.claims.challengeId);
    var v := Next(w, Take(t));
    if v.threads[t].Taken? {
      forall k | k in v.store.challenges
        ensures v.store.challenges[k].payload.serial != v.threads[t].serial
      {
        StoredApart(w, k, key);
      }
    }
  }

  /** Moving a verifier to a place where it holds no registration. */
  lemma LetGoInv(w: World, v: World, t: nat, pc: Pc)
    requires Inv(w) && !pc.Taken? && t < v.next && w.next <= v.next
    requires v.store.challenges == w.store.challenges && v.registered == w.registered
    requires v.threads == w.threads[t := pc] && v.accepted == w.accepted
    ensures Inv(v)
  {
  }

  /** Spending the registration a verifier held. */
  lemma SpendInv(w: World, v: World, t: nat)
    requires Inv(w) && t in w.threads && w.threads[t].Taken?
    requires v.store.challenges == w.store.challenges && v.registered == w.registered && v.next == w.next
    requires v.threads == w.threads[t := Done]
    requires v.accepted == w.accepted + [Acceptance(w.threads[t].ticket, w.threads[t].serial)]
    ensures Inv(v)
  {
    forall i | 0 <= i < |v.accepted|
      ensures Answers(v, v.accepted[i].serial, v.accepted[i].ticket.claims)
      ensures forall k :: k in v.store.challenges ==> v.store.challenges[k].payload.serial != v.accepted[i].serial
      ensures forall u :: u in v.threads && v.threads[u].Taken? ==> v.threads[u].serial != v.accepted[i].serial
    {
      if i < |w.accepted| {
        assert v.accepted[i] == w.accepted[i];
      }
    }
    assert forall i :: 0 <= i < |w.accepted| ==> v.accepted[i] == w.accepted[i];
  }

  lemma ConsumeInv(w: World, t: nat)
    requires Inv(w) && t in w.threads && w.threads[t].Taken?
    ensures Inv(Next(w, Consume(t)))
  {
    var v := Next(w, Consume(t));
    if v.accepted == w.accepted {
      LetGoInv(w, v, t, Done);
    } else {
      SpendInv(w, v, t);
    }
  }

  lemma PresentInv(w: World, payload: Claims, scope: Scope, now: int)
    requires Inv(w)
    ensures Inv(Next(w, Present(payload, scope, now)))
  {
    var v := Next(w, Present(payload, scope, now));
    if v != w {
      LetGoInv(w, v, w.next, v.threads[w.next]);
    }
  }

  lemma InspectInv(w: World, t: nat)
    requires Inv(w)
    ensures Inv(Next(w, Inspect(t)))
  {
    var v := Next(w, Inspect(t));
    if v != w {
      LetGoInv(w, v, t, v.threads[t]);
    }
  }

  lemma StepInv(w: World, step: Step)
    requires Inv(w)
    ensures Inv(Next(w, step))
  {
    match step
    case Register(claims, now, again, storeNow) => RegisterInv(w, claims, now, again, storeNow);
    case Present(payload, scope, now) => PresentInv(w, payload, scope, now);
    case Inspect(t) => InspectInv(w, t);
    case Take(t) =>
      if t in w.threads && w.threads[t].Inspected? {
        TakeInv(w, t);
      }
    case Consume(t) =>
      if t in w.threads && w.threads[t].Taken? {
        ConsumeInv(w, t);
      }
  }

  lemma {:induction false} RunInv(w: World, steps: seq<Step>)
    requires Inv(w)
    ensures Inv(Run(w, steps))
    decreases |steps|
  {
    if steps != [] {
      StepInv(w, steps[0]);
      RunInv(Next(w, steps[0]), steps[1..]);
    }
  }

  // ----- conservation ----------------------------------------------------------------

  /** The serial numbers of the registrations of one id. */
  function SerialsOf(w: World, id: string): set<nat> {
    set i: nat | i < |w.registered| && w.registered[i].challengeId == id
  }

  /** The registrations the acceptances of one id used up, in order. */
  function SpentOn(accepted: seq<Acceptance>, id: string): seq<nat> {
    if accepted == [] then []
    else SpentOn(accepted[..|accepted| - 1], id)
         + (if accepted[|accepted| - 1].ticket.claims.challengeId == id then [accepted[|accepted| - 1].serial] else [])
  }

  lemma {:induction false} SpentMembers(accepted: seq<Acceptance>, id: string, x: nat)
    ensures x in SpentOn(accepted, id) <==>
              exists i :: 0 <= i < |accepted| && accepted[i].ticket.claims.challengeId == id && accepted[i].serial == x
  {
    if accepted != [] {
      SpentMembers(accepted[..|accepted| - 1], id, x);
    }
  }

  predicate Distinct(xs: seq<nat>) {
    forall i, j :: 0 <= i < j < |xs| ==> xs[i] != xs[j]
  }

  lemma {:induction false} SpentDistinct(accepted: seq<Acceptance>, id: string)
    requires forall i, j :: 0 <= i < j < |accepted| ==> accepted[i].serial != accepted[j].serial
    ensures Distinct(SpentOn(accepted, id))
  {
    if accepted != [] {
      SpentDistinct(accepted[..|accepted| - 1], id);
      SpentMembers(accepted[..|accepted| - 1], id, accepted[|accepted| - 1].serial);
    }
  }

  /** Distinct members of a set are no more than the set has. */
  lemma {:induction false} DistinctBound(xs: seq<nat>, s: set<nat>)
    requires Distinct(xs) && forall i :: 0 <= i < |xs| ==> xs[i] in s
    ensures |xs| <= |s|
  {
    if xs != [] {
      var last := xs[|xs| - 1];
      DistinctBound(xs[..|xs| - 1], s - {last});
    }
  }

  lemma SpentAreSerials(w: World, id: string, x: nat)
    requires Inv(w) && AllNormal(w) && x in SpentOn(w.accepted, id)
    ensures x in SerialsOf(w, id)
  {
    SpentMembers(w.accepted, id, x);
    var k :| 0 <= k < |w.accepted| && w.accepted[k].ticket.claims.challengeId == id && w.accepted[k].serial == x;
    assert Answers(w, x, w.accepted[k].ticket.claims);
  }

  /** In every interleaving an id is verified successfully at most as often as it was registered,
      and every acceptance used up a registration of its own. */
  lemma Conservation(steps: seq<Step>, id: string)
    ensures var w := Run(Begin(), steps);
            && |SpentOn(w.accepted, id)| <= |SerialsOf(w, id)|
            && Distinct(SpentOn(w.accepted, id))
  {
    var w := Run(Begin(), steps);
    RunInv(Begin(), steps);
    RunNormal(Begin(), steps);
    SpentDistinct(w.accepted, id);
    var spent := SpentOn(w.accepted, id);
    forall i | 0 <= i < |spent|
      ensures spent[i] in SerialsOf(w, id)
    {
      SpentAreSerials(w, id, spent[i]);
    }
    DistinctBound(spent, SerialsOf(w, id));
  }

  /** In every interleaving each accepted approval is for the very challenge that one registration named,
      field by field, and expires no later. */
  lemma AcceptedIsBound(steps: seq<Step>, i: nat)
    requires i < |Run(Begin(), steps).accepted|
    ensures var w := Run(Begin(), steps);
            var a, k := w.accepted[i].ticket.claims, w.accepted[i].serial;
            && k < |w.registered| && Matches(w.registered[k], a)
  {
    RunInv(Begin(), steps);
    RunNormal(Begin(), steps);
    var w := Run(Begin(), steps);
    RunChecked(Begin(), steps);
    assert Answers(w, w.accepted[i].serial, w.accepted[i].ticket.claims);
    BindingMatches(w, w.accepted[i].ticket.claims, w.accepted[i].serial);
  }

  /** The approval names the registered challenge and everything registered under it. */
  predicate Matches(registered: Claims, approved: Claims) {
    && approved.challengeId == registered.challengeId && approved.approvalId == registered.approvalId
    && approved.sessionId == registered.sessionId && approved.operation == registered.operation
    && approved.reviewSha == registered.reviewSha && approved.targets == registered.targets
    && approved.expiresAt <= registered.expiresAt
  }

  // ----- what was checked ------------------------------------------------------------

  /** The claims are a signed approval's, in time at the verifier's reading and for its scope. */
  ghost predicate Checked(k: Ticket) {
    && Normal(k.claims, true) && InScope(k.claims, k.scope)
    && k.now < k.claims.expiresAt <= k.now + 5 * 60 * 1_000_000_000
  }

  ghost predicate AllChecked(w: World) {
    && (forall t :: t in w.threads && !w.threads[t].Done? ==> Checked(w.threads[t].ticket))
    && (forall i :: 0 <= i < |w.accepted| ==> Checked(w.accepted[i].ticket))
  }

  lemma PresentOne(w: World, payload: Claims, scope: Scope, now: int)
    ensures var v := Next(w, Present(payload, scope, now));
            match Authenticate(payload, scope, now)
            case None => v == w
            case Some(c) =>
              && v == Goto(w, w.next, Authenticated(Ticket(c, scope, now))).(next := w.next + 1)
              && Normal(c, true) && Checked(Ticket(c, scope, now))
  {
    var r := Authenticate(payload, scope, now);
    if r.Some? {
      AuthenticateIff(payload, scope, now, r.value);
      NormalizedIsNormal(payload, true);
    }
  }

  lemma PresentChecked(w: World, payload: Claims, scope: Scope, now: int)
    requires AllChecked(w)
    ensures AllChecked(Next(w, Present(payload, scope, now)))
  {
    PresentOne(w, payload, scope, now);
  }

  /** A verifier's own section keeps its ticket, drops it or turns it into an acceptance. */
  lemma TicketKept(w: World, v: World, t: nat, pc: Pc)
    requires AllChecked(w) && t in w.threads && !w.threads[t].Done? && v.threads == w.threads[t := pc]
    requires pc.Done? || pc.ticket == w.threads[t].ticket
    requires v.accepted == w.accepted
             || (w.threads[t].Taken?
                 && v.accepted == w.accepted + [Acceptance(w.threads[t].ticket, w.threads[t].serial)])
    ensures AllChecked(v)
  {
  }

  lemma InspectChecked(w: World, t: nat)
    requires AllChecked(w) && t in w.threads && w.threads[t].Authenticated?
    ensures AllChecked(DoInspect(w, t, w.threads[t].ticket))
  {
    var v := DoInspect(w, t, w.threads[t].ticket);
    TicketKept(w, v, t, v.threads[t]);
  }

  lemma TakeChecked(w: World, t: nat)
    requires AllChecked(w) && t in w.threads && w.threads[t].Inspected?
    ensures AllChecked(DoTake(w, t, w.threads[t].ticket))
  {
    var v := DoTake(w, t, w.threads[t].ticket);
    TicketKept(w, v, t, v.threads[t]);
  }

  lemma ConsumeChecked(w: World, t: nat)
    requires AllChecked(w) && t in w.threads && w.threads[t].Taken?
    ensures AllChecked(DoConsume(w, t, w.threads[t].ticket, w.threads[t].serial))
  {
    var v := DoConsume(w, t, w.threads[t].ticket, w.threads[t].serial);
    TicketKept(w, v, t, v.threads[t]);
  }

  lemma RegisterChecked(w: World, claims: Claims, now: int, again: int, storeNow: int)
    requires AllChecked(w)
    ensures AllChecked(DoRegister(w, claims, now, again, storeNow))
  {
  }

  lemma StepChecked(w: World, step: Step)
    requires AllChecked(w)
    ensures AllChecked(Next(w, step))
  {
    match step
    case Register(claims, now, again, storeNow) => RegisterChecked(w, claims, now, again, storeNow);
    case Present(payload, scope, now) => PresentChecked(w, payload, scope, now);
    case Inspect(t) =>
      if t in w.threads && w.threads[t].Authenticated? {
        InspectChecked(w, t);
      }
    case Take(t) =>
      if t in w.threads && w.threads[t].Inspected? {
        TakeChecked(w, t);
      }
    case Consume(t) =>
      if t in w.threads && w.threads[t].Taken? {
        ConsumeChecked(w, t);
      }
  }

  lemma {:induction false} RunChecked(w: World, steps: seq<Step>)
    requires AllChecked(w)
    ensures AllChecked(Run(w, steps))
    decreases |steps|
  {
    if steps != [] {
      StepChecked(w, steps[0]);
      RunChecked(Next(w, steps[0]), steps[1..]);
    }
  }

  /** In every interleaving each accepted approval has a valid approver, has its verifier's session,
      operation, review digest and exactly its targets, and at the verifier's reading had not expired and
      had no more than five minutes left. */
  lemma AcceptedIsAuthorized(steps: seq<Step>, i: nat)
    requires i < |Run(Begin(), steps).accepted|
    ensures var k := Run(Begin(), steps).accepted[i].ticket;
            && 0 < |k.claims.approver| <= 256
            && (exists i :: 0 <= i < |k.claims.approver| && k.claims.approver[i] != ' ')
            && (forall i :: 0 <= i < |k.claims.approver| ==> ' ' <= k.claims.approver[i] != 0x7f as char)
            && k.claims.sessionId == k.scope.sessionId && k.claims.operation == k.scope.operation
            && k.claims.reviewSha == k.scope.reviewSha
            && Normalizes(Given(k.scope.targets, k.scope.path, k.scope.expectedHash, k.scope.contentSha),
                          k.claims.targets)
            && (forall i :: 0 <= i < |k.claims.targets| ==>
                  |k.claims.targets[i].after| == 64
                  && forall c :: c in k.claims.targets[i].after ==> '0' <= c <= '9' || 'a' <= c <= 'f')
            && k.now < k.claims.expiresAt <= k.now + 5 * 60 * 1_000_000_000
  {
    RunChecked(Begin(), steps);
  }

  // ----- and what is accepted ----------------------------------------------------------

  /** Registration k stands under the approval's id. */
  predicate StandsFor(w: World, c: Claims, k: nat) {
    && ChallengeKey(c.challengeId) in w.store.challenges
    && w.store.challenges[ChallengeKey(c.challengeId)].payload.serial == k
    && k < |w.registered| && Matches(w.registered[k], c)
  }

  /** No use of the approval's id is remembered at this reading. */
  predicate Unused(w: World, c: Claims, now: int) {
    UseKey(c.challengeId) in w.store.used ==> w.store.used[UseKey(c.challengeId)] <= now
  }

  function Verification(w: World, payload: Claims, scope: Scope, now: int): seq<Step> {
    [Present(payload, scope, now), Inspect(w.next), Take(w.next), Consume(w.next)]
  }

  lemma FourSteps(w: World, a: Step, b: Step, c: Step, d: Step)
    ensures Run(w, [a, b, c, d]) == Next(Next(Next(Next(w, a), b), c), d)
  {
    assert [a, b, c, d][1..] == [b, c, d] && [b, c, d][1..] == [c, d] && [c, d][1..] == [d] && [d][1..] == [];
    assert Run(Next(Next(w, a), b), [c, d]) == Run(Next(Next(Next(w, a), b), c), [d]);
    assert Run(Next(w, a), [b, c, d]) == Run(Next(Next(w, a), b), [c, d]);
  }

  lemma BindingMatches(w: World, c: Claims, k: nat)
    requires AllNormal(w) && k < |w.registered| && Normal(c, true)
    ensures ChallengeBinding(w.registered[k], c) <==> Matches(w.registered[k], c)
  {
    assert NormalizeClaims(w.registered[k], false) == Some(w.registered[k]);
    NormalIff(w.registered[k], false);
  }

  /** The challenge under the approval's id, if there is one that it matches. */
  function Holder(w: World, c: Claims): Option<nat> {
    var key := ChallengeKey(c.challengeId);
    if key in w.store.challenges && StandsFor(w, c, w.store.challenges[key].payload.serial)
    then Some(w.store.challenges[key].payload.serial) else None
  }

  /** A challenge that matches an approval in time has not expired either. */
  lemma BindsIff(w: World, k: Ticket)
    requires StoreOk(w) && AllNormal(w) && Checked(k)
    ensures var key := ChallengeKey(k.claims.challengeId);
            var r := R.Peek(w.store, key, k.now);
            && (r.Some? && ChallengeBinding(r.value.claims, k.claims) <==> Holder(w, k.claims).Some?)
            && (r.Some? && ChallengeBinding(r.value.claims, k.claims) ==> Holder(w, k.claims) == Some(r.value.serial))
  {
    var key := ChallengeKey(k.claims.challengeId);
    if key in w.store.challenges {
      BindingMatches(w, k.claims, w.store.challenges[key].payload.serial);
    }
  }

  lemma InspectOne(w: World, t: nat, k: Ticket)
    requires StoreOk(w) && AllNormal(w) && Checked(k) && t in w.threads && w.threads[t] == Authenticated(k)
    ensures Next(w, Inspect(t)) == Goto(w, t, if Holder(w, k.claims).Some? then Inspected(k) else Done)
  {
    BindsIff(w, k);
  }

  lemma TakeOne(w: World, t: nat, k: Ticket)
    requires StoreOk(w) && AllNormal(w) && Checked(k) && t in w.threads && w.threads[t] == Inspected(k)
    requires Holder(w, k.claims).Some?
    ensures var v := Next(w, Take(t));
            && t in v.threads && v.threads[t] == Taken(k, Holder(w, k.claims).value)
            && v.store.used == w.store.used && v.accepted == w.accepted
  {
    BindsIff(w, k);
  }

  lemma ConsumeOne(w: World, t: nat, k: Ticket, serial: nat)
    requires t in w.threads && w.threads[t] == Taken(k, serial)
    ensures Next(w, Consume(t)).accepted
              == if Unused(w, k.claims, k.now) then w.accepted + [Acceptance(k, serial)] else w.accepted
  {
  }

  lemma DoneStays(w: World, t: nat)
    requires t in w.threads && w.threads[t] == Done
    ensures Next(w, Take(t)) == w && Next(w, Consume(t)) == w
  {
  }

  /** The verification once its token is authenticated. */
  lemma VerifiesOne(w: World, t: nat, k: Ticket)
    requires StoreOk(w) && AllNormal(w) && Checked(k) && t in w.threads && w.threads[t] == Authenticated(k)
    ensures Next(Next(Next(w, Inspect(t)), Take(t)), Consume(t)).accepted
              == if Holder(w, k.claims).Some? && Unused(w, k.claims, k.now)
                 then w.accepted + [Acceptance(k, Holder(w, k.claims).value)] else w.accepted
  {
    InspectOne(w, t, k);
    var v := Next(w, Inspect(t));
    if Holder(w, k.claims).Some? {
      assert Holder(v, k.claims) == Holder(w, k.claims);
      TakeOne(v, t, k);
      ConsumeOne(Next(v, Take(t)), t, k, Holder(w, k.claims).value);
    } else {
      DoneStays(v, t);
    }
  }

  lemma UnknownStays(w: World, t: nat)
    requires t !in w.threads
    ensures Next(w, Inspect(t)) == w && Next(w, Take(t)) == w && Next(w, Consume(t)) == w
  {
  }

  lemma VerifiesAll(w: World, payload: Claims, scope: Scope, now: int)
    requires Inv(w) && AllNormal(w)
    ensures Run(w, Verification(w, payload, scope, now)).accepted
              == match Authenticate(payload, scope, now)
                 case None => w.accepted
                 case Some(c) =>
                   if Holder(w, c).Some? && Unused(w, c, now)
                   then w.accepted + [Acceptance(Ticket(c, scope, now), Holder(w, c).value)] else w.accepted
  {
    FourSteps(w, Present(payload, scope, now), Inspect(w.next), Take(w.next), Consume(w.next));
    PresentOne(w, payload, scope, now);
    var v := Next(w, Present(payload, scope, now));
    match Authenticate(payload, scope, now) {
      case None => UnknownStays(w, w.next);
      case Some(c) =>
        assert StoreOk(v) && AllNormal(v) && Holder(v, c) == Holder(w, c);
        VerifiesOne(v, w.next, Ticket(c, scope, now));
    }
  }

  /** Undisturbed, a verification of a signed token accepts exactly when its claims are in scope and in
      time, a registration stands that they match, and no use of their id is remembered; it then records
      that acceptance. */
  lemma VerifyAcceptsIff(before: seq<Step>, payload: Claims, scope: Scope, now: int, c: Claims, k: nat)
    ensures var w := Run(Begin(), before);
            Run(w, Verification(w, payload, scope, now)).accepted
              == w.accepted + [Acceptance(Ticket(c, scope, now), k)]
            <==>
              && NormalizeClaims(payload, true) == Some(c) && InScope(c, scope)
              && now < c.expiresAt <= now + 5 * 60 * 1_000_000_000
              && StandsFor(w, c, k) && Unused(w, c, now)
  {
    var w := Run(Begin(), before);
    RunInv(Begin(), before);
    RunNormal(Begin(), before);
    AuthenticateIff(payload, scope, now, c);
    VerifiesAll(w, payload, scope, now);
    var one := [Acceptance(Ticket(c, scope, now), k)];
    assert (w.accepted + one)[|w.accepted|] == one[0];
    if Authenticate(payload, scope, now).Some? {
      var d := Authenticate(payload, scope, now).value;
      if Holder(w, d).Some? && Unused(w, d, now) {
        var other := [Acceptance(Ticket(d, scope, now), Holder(w, d).value)];
        assert (w.accepted + other)[|w.accepted|] == other[0];
      }
    }
  }

  /** A registration succeeds exactly for claims that normalize, expire in the future and within five
      minutes, and whose id has no challenge that is unexpired at the store's reading. */
  lemma RegistersIff(before: seq<Step>, claims: Claims, now: int, again: int, storeNow: int, c: Claims)
    ensures var w := Run(Begin(), before);
            var v := Next(w, Register(claims, now, again, storeNow));
            && (v.registered == w.registered + [c] <==>
                  && NormalizeClaims(claims, false) == Some(c)
                  && now < c.expiresAt <= again + 5 * 60 * 1_000_000_000
                  && forall k: nat :: Standing(w, c.challengeId, k) ==> w.registered[k].expiresAt <= storeNow)
            && (v.registered == w.registered + [c] ==> Standing(v, c.challengeId, |w.registered|))
  {
    var w := Run(Begin(), before);
    RunInv(Begin(), before);
    var key := ChallengeKey(c.challengeId);
    if key in w.store.challenges {
      assert Standing(w, c.challengeId, w.store.challenges[key].payload.serial);
    }
    var v := Next(w, Register(claims, now, again, storeNow));
    if v.registered != w.registered {
      assert v.registered[|w.registered|] == NormalizeClaims(claims, false).value;
    }
  }

  /** The store holds this registration for the id. */
  predicate Standing(w: World, id: string, k: nat) {
    && ChallengeKey(id) in w.store.challenges && w.store.challenges[ChallengeKey(id)].payload.serial == k
    && k < |w.registered|
  }

  /** Registrations are stored normalized, so normalizing the stored payload again is the identity. */
  ghost predicate AllNormal(w: World) {
    forall i :: 0 <= i < |w.registered| ==> NormalizeClaims(w.registered[i], false) == Some(w.registered[i])
  }

  lemma {:induction false} RunNormal(w: World, steps: seq<Step>)
    requires AllNormal(w)
    ensures AllNormal(Run(w, steps))
    decreases |steps|
  {
    if steps != [] {
      StepNormal(w, steps[0]);
      RunNormal(Next(w, steps[0]), steps[1..]);
    }
  }

  lemma StepNormal(w: World, step: Step)
    requires AllNormal(w)
    ensures AllNormal(Next(w, step))
  {
    if step.Register? && NormalizeClaims(step.claims, false).Some? {
      NormalizeClaimsIdempotent(step.claims, false);
    }
  }
}
